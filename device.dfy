/** The accelerator's data environment, as the OpenACC directives of the
    multiply and of MatDestroy see it: which host buffers have a device
    copy and of how many elements, and the events issued so far.
    Asynchronous queues are run in issue order. */
module Device {
  import opened Tiling

  /** An event on the device: a copy-in or a delete of buf[0 : len], a
      kernel launch over rows [lo, hi), a wait for all queues, or the
      release of the matrix's host arrays. */
  datatype Event = CopyIn(buf: object, len: int) | Delete(buf: object, len: int)
                 | Launch(lo: int, hi: int) | Wait | HostFree

  /** Resident buffers with their device extents, and the event log. */
  datatype Env = Env(resident: map<object, int>, log: seq<Event>)

  /** acc_is_present(buf, len): all of buf[0 : len] has a device copy. */
  predicate Present(res: map<object, int>, buf: object, len: int) {
    buf in res && len <= res[buf]
  }

  /** A present(buf[lo : lo + len]) clause of a kernel is satisfied. */
  predicate Covers(res: map<object, int>, buf: object, lo: int, len: int) {
    buf in res && 0 <= lo && lo + len <= res[buf]
  }

  /** enter data copyin(buf[:len]). */
  function CopyInto(e: Env, buf: object, len: int): (r: Env)
    ensures Present(r.resident, buf, len)
    ensures r.resident - {buf} == e.resident - {buf}
    ensures r.log == e.log + [CopyIn(buf, len)]
  {
    Env(e.resident[buf := len], e.log + [CopyIn(buf, len)])
  }

  /** enter data copyin(buf[:len]) if(!present), with present read just before. */
  function CopyInIfAbsent(e: Env, buf: object, len: int): (r: Env)
    ensures Present(r.resident, buf, len)
    ensures Present(e.resident, buf, len) ==> r == e
    ensures !Present(e.resident, buf, len) ==> r == CopyInto(e, buf, len)
  {
    if Present(e.resident, buf, len) then e else CopyInto(e, buf, len)
  }

  /** exit data delete(buf[:len]). */
  function DeleteFrom(e: Env, buf: object, len: int): (r: Env)
    ensures buf !in r.resident
    ensures r.resident - {buf} == e.resident - {buf}
    ensures r.log == e.log + [Delete(buf, len)]
  {
    Env(e.resident - {buf}, e.log + [Delete(buf, len)])
  }

  /** exit data delete(buf[:len]) if(present), with present read just before. */
  function DeleteIfPresent(e: Env, buf: object, len: int): (r: Env)
    ensures !Present(r.resident, buf, len)
    ensures !Present(e.resident, buf, len) ==> r == e
    ensures Present(e.resident, buf, len) ==> r == DeleteFrom(e, buf, len)
  {
    if Present(e.resident, buf, len) then DeleteFrom(e, buf, len) else e
  }

  /** Appends one event and leaves residency alone. */
  function Logged(e: Env, ev: Event): (r: Env)
    ensures r.resident == e.resident && r.log == e.log + [ev]
  {
    Env(e.resident, e.log + [ev])
  }

  /** The launch events of a list of tiles, in order. */
  function Launches(tiles: seq<Range>): (evs: seq<Event>)
    ensures |evs| == |tiles|
    ensures forall k :: 0 <= k < |tiles| ==> evs[k] == Launch(tiles[k].lo, tiles[k].hi)
  {
    if |tiles| == 0 then [] else Launches(tiles[..|tiles| - 1]) + [Launch(tiles[|tiles| - 1].lo, tiles[|tiles| - 1].hi)]
  }

  /** The OpenACC runtime seen by one process. */
  class Accelerator {
    var env: Env

    /** A runtime with nothing on the device. */
    constructor ()
      ensures env == Env(map[], [])
    {
      env := Env(map[], []);
    }

    /** acc_is_present. */
    predicate IsPresent(buf: object, len: int)
      reads this
    {
      Present(env.resident, buf, len)
    }

    /** enter data copyin(buf[:len]) if(cond). */
    method EnterData(buf: object, len: int, cond: bool)
      modifies this
      ensures env == if cond then CopyInto(old(env), buf, len) else old(env)
    {
      if cond {
        env := CopyInto(env, buf, len);
      }
    }

    /** exit data delete(buf[:len]) if(cond). */
    method ExitData(buf: object, len: int, cond: bool)
      modifies this
      ensures env == if cond then DeleteFrom(old(env), buf, len) else old(env)
    {
      if cond {
        env := DeleteFrom(env, buf, len);
      }
    }

    /** acc wait, a kernels region being issued, or the host arrays being
        freed: one event, no change of residency. */
    method Issue(ev: Event)
      requires !ev.CopyIn? && !ev.Delete?
      modifies this
      ensures env == Logged(old(env), ev)
    {
      env := Logged(env, ev);
    }
  }
}
