/** The OpenACC part of MatDestroy_SeqAIJ. It checks whether ai (m + 1
    entries), aj and aa (nz entries each) are on the device. It deletes
    from the device each array whose check succeeded. Then the host
    arrays are freed. */
module AccDestroy {
  import opened Aij
  import opened Device
  import opened AccMult

  /** The device after the three presence checks, all taken against e, and
      the deletes they guard. Afterwards none of the three arrays is present
      over its extent, and no other buffer has changed. */
  function Released(e: Env, ai: object, aj: object, aa: object, m: int, nz: int): (r: Env)
    requires ai != aj && ai != aa && aj != aa
    ensures !Present(r.resident, ai, m + 1) && !Present(r.resident, aj, nz) && !Present(r.resident, aa, nz)
    ensures r.resident - {ai, aj, aa} == e.resident - {ai, aj, aa}
  {
    var p0 := Present(e.resident, ai, m + 1);
    var p1 := Present(e.resident, aj, nz);
    var p2 := Present(e.resident, aa, nz);
    var e1 := if p0 then DeleteFrom(e, ai, m + 1) else e;
    var e2 := if p1 then DeleteFrom(e1, aj, nz) else e1;
    var e3 := if p2 then DeleteFrom(e2, aa, nz) else e2;
    assert e3.resident - {aa} == e2.resident - {aa};
    assert e2.resident - {aj} == e1.resident - {aj};
    assert e1.resident - {ai} == e.resident - {ai};
    assert ai in e3.resident <==> ai in e1.resident by {
      assert ai in e3.resident <==> ai in e3.resident - {aa};
      assert ai in e2.resident <==> ai in e2.resident - {aj};
    }
    assert ai in e3.resident ==> e3.resident[ai] == e1.resident[ai] by {
      if ai in e3.resident {
        assert (e3.resident - {aa})[ai] == (e2.resident - {aa})[ai];
        assert (e2.resident - {aj})[ai] == (e1.resident - {aj})[ai];
      }
    }
    assert aj in e3.resident <==> aj in e2.resident by {
      assert aj in e3.resident <==> aj in e3.resident - {aa};
    }
    assert aj in e3.resident ==> e3.resident[aj] == e2.resident[aj] by {
      if aj in e3.resident {
        assert (e3.resident - {aa})[aj] == (e2.resident - {aa})[aj];
      }
    }
    assert e2.resident - {aj} - {ai} == e.resident - {ai} - {aj} by {
      assert e1.resident - {ai} - {aj} == e.resident - {ai} - {aj};
    }
    e3
  }

  /** MatDestroy's device part followed by the free of the host arrays. */
  function Destroyed(e: Env, ai: object, aj: object, aa: object, m: int, nz: int): (r: Env)
    requires ai != aj && ai != aa && aj != aa
  {
    Logged(Released(e, ai, aj, aa, m, nz), HostFree)
  }

  /** MatDestroy_SeqAIJ up to the free of the host arrays: the presence
      of ai, aj and aa is recorded in present[0..2], each array is deleted
      from the device if it was present, then the host arrays are freed. */
  method MatDestroy(a: SeqAij, dev: Accelerator)
    requires a.Valid()
    modifies dev
    ensures dev.env == Destroyed(old(dev.env), a.ai, a.aj, a.aa, a.m, a.nz)
  {
    var present := new bool[3];
    present[0] := dev.IsPresent(a.ai, a.m + 1);
    present[1] := dev.IsPresent(a.aj, a.nz);
    present[2] := dev.IsPresent(a.aa, a.nz);
    dev.ExitData(a.ai, a.m + 1, present[0]);
    dev.ExitData(a.aj, a.nz, present[1]);
    dev.ExitData(a.aa, a.nz, present[2]);
    dev.Issue(HostFree);
  }

  /** Taking the three checks first gives the same device as checking each
      array just before its own delete. */
  lemma ChecksUpFront(e: Env, ai: object, aj: object, aa: object, m: int, nz: int)
    requires ai != aj && ai != aa && aj != aa
    ensures Released(e, ai, aj, aa, m, nz)
         == DeleteIfPresent(DeleteIfPresent(DeleteIfPresent(e, ai, m + 1), aj, nz), aa, nz)
  {
    var e1 := DeleteIfPresent(e, ai, m + 1);
    assert e1.resident - {ai} == e.resident - {ai};
    assert (aj in e1.resident <==> aj in e.resident) by {
      assert aj in e1.resident <==> aj in e1.resident - {ai};
    }
    if aj in e.resident {
      assert (e1.resident - {ai})[aj] == (e.resident - {ai})[aj];
    }
    var e2 := DeleteIfPresent(e1, aj, nz);
    assert e2.resident - {aj} == e1.resident - {aj};
    assert (aa in e2.resident <==> aa in e.resident) by {
      assert aa in e2.resident <==> aa in e2.resident - {aj};
      assert aa in e1.resident <==> aa in e1.resident - {ai};
    }
    if aa in e.resident {
      assert (e2.resident - {aj})[aa] == (e1.resident - {aj})[aa];
      assert (e1.resident - {ai})[aa] == (e.resident - {ai})[aa];
    }
  }

  /** Exactly what stays resident of each array: a copy survives only when
      it was resident but shorter than the extent the check asks for. */
  lemma Survivors(e: Env, ai: object, aj: object, aa: object, m: int, nz: int)
    requires ai != aj && ai != aa && aj != aa
    ensures var r := Released(e, ai, aj, aa, m, nz).resident;
      && (ai in r <==> ai in e.resident && !Present(e.resident, ai, m + 1))
      && (aj in r <==> aj in e.resident && !Present(e.resident, aj, nz))
      && (aa in r <==> aa in e.resident && !Present(e.resident, aa, nz))
  {
    ChecksUpFront(e, ai, aj, aa, m, nz);
    var e1 := DeleteIfPresent(e, ai, m + 1);
    var e2 := DeleteIfPresent(e1, aj, nz);
    var e3 := DeleteIfPresent(e2, aa, nz);
    assert e1.resident - {ai} == e.resident - {ai};
    assert e2.resident - {aj} == e1.resident - {aj};
    assert e3.resident - {aa} == e2.resident - {aa};
    assert ai in e3.resident <==> ai in e1.resident by {
      assert ai in e3.resident <==> ai in e3.resident - {aa};
      assert ai in e2.resident <==> ai in e2.resident - {aj};
    }
    assert aj in e3.resident <==> aj in e.resident && !Present(e.resident, aj, nz) by {
      assert aj in e3.resident <==> aj in e3.resident - {aa};
      assert aj in e1.resident <==> aj in e1.resident - {ai};
      if aj in e.resident {
        assert (e1.resident - {ai})[aj] == (e.resident - {ai})[aj];
      }
    }
    assert aa in e2.resident <==> aa in e.resident by {
      assert aa in e2.resident <==> aa in e2.resident - {aj};
      assert aa in e1.resident <==> aa in e1.resident - {ai};
    }
    if aa in e.resident {
      assert (e2.resident - {aj})[aa] == (e1.resident - {aj})[aa];
      assert (e1.resident - {ai})[aa] == (e.resident - {ai})[aa];
    }
  }

  /** A matrix that was never uploaded triggers no delete: the device,
      log included, is left as it was. */
  lemma NeverUploaded(e: Env, ai: object, aj: object, aa: object, m: int, nz: int)
    requires ai != aj && ai != aa && aj != aa
    requires ai !in e.resident && aj !in e.resident && aa !in e.resident
    ensures Released(e, ai, aj, aa, m, nz) == e
  {
  }

  /** The events issued by MatDestroy: one delete per array found present,
      in the order ai, aj, aa, then the free of the host arrays, last. */
  lemma DeletesBeforeFree(e: Env, ai: object, aj: object, aa: object, m: int, nz: int)
    requires ai != aj && ai != aa && aj != aa
    ensures Destroyed(e, ai, aj, aa, m, nz).log == e.log
      + (if Present(e.resident, ai, m + 1) then [Delete(ai, m + 1)] else [])
      + (if Present(e.resident, aj, nz) then [Delete(aj, nz)] else [])
      + (if Present(e.resident, aa, nz) then [Delete(aa, nz)] else [])
      + [HostFree]
  {
  }

  /** Destroying a matrix after an offloaded multiply deletes all three
      arrays and frees the host arrays last. The device then holds what it
      held before the multiply, less the matrix arrays and x. */
  lemma MultThenDestroy(e: Env, ai: object, aj: object, aa: object, x: object,
                        m: int, nz: int, xSize: int, current: int)
    requires ai != aj && ai != aa && aj != aa && x != ai && x != aj && x != aa
    requires current <= m
    ensures var e1 := AfterMult(e, ai, aj, aa, x, m, nz, xSize, current);
      var r := Destroyed(e1, ai, aj, aa, m, nz);
      && r.resident == e.resident - {ai, aj, aa, x}
      && r.log == e1.log + [Delete(ai, m + 1), Delete(aj, nz), Delete(aa, nz), HostFree]
  {
    var e1 := AfterMult(e, ai, aj, aa, x, m, nz, xSize, current);
    MultResidency(e, ai, aj, aa, x, m, nz, xSize, current);
    DeletesBeforeFree(e1, ai, aj, aa, m, nz);
    var r := Destroyed(e1, ai, aj, aa, m, nz).resident;
    assert r - {ai, aj, aa} == e1.resident - {ai, aj, aa};
    assert ai !in r && aj !in r && aa !in r && x !in r;
    assert r == r - {ai, aj, aa};
    assert e1.resident - {ai, aj, aa} == (e1.resident - {ai, aj, aa, x});
  }
}
