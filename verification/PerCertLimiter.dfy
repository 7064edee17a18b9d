/** The per-certificate in-flight counter of remote.go: a map that forgets idle serials. */
module PerCertLimiter {
  type Serial = string

  type Counts = map<Serial, int>

  function Held(inUse: Counts, serial: Serial): int {
    if serial in inUse then inUse[serial] else 0
  }

  function Taken(inUse: Counts, serial: Serial): Counts {
    inUse[serial := Held(inUse, serial) + 1]
  }

  function GivenBack(inUse: Counts, serial: Serial): Counts {
    if Held(inUse, serial) <= 1 then inUse - {serial}
    else inUse[serial := Held(inUse, serial) - 1]
  }

  /** Only active serials are present, each within the cap; a cap that is off tracks nothing. */
  predicate WithinCap(inUse: Counts, cap: int) {
    if cap <= 0 then inUse == map[]
    else forall serial | serial in inUse :: 1 <= inUse[serial] <= cap
  }

  class Limiter {
    var inUse: Counts
    const cap: int

    ghost predicate Valid()
      reads this
    {
      WithinCap(inUse, cap)
    }

    constructor (cap: int)
      ensures Valid() && inUse == map[] && this.cap == cap
    {
      inUse := map[];
      this.cap := cap;
    }

    method Acquire(serial: Serial) returns (ok: bool)
      requires Valid()
      modifies this
      ensures Valid()
      ensures ok <==> cap <= 0 || Held(old(inUse), serial) < cap
      ensures inUse == if ok && cap > 0 then Taken(old(inUse), serial) else old(inUse)
      ensures Held(inUse, serial) == Held(old(inUse), serial) + if ok && cap > 0 then 1 else 0
      ensures forall other | other != serial :: Held(inUse, other) == Held(old(inUse), other)
    {
      if cap <= 0 {
        return true;
      }
      if Held(inUse, serial) >= cap {
        return false;
      }
      inUse := inUse[serial := Held(inUse, serial) + 1];
      return true;
    }

    method Release(serial: Serial)
      requires Valid()
      modifies this
      ensures Valid()
      ensures inUse == if cap > 0 then GivenBack(old(inUse), serial) else old(inUse)
      ensures Held(inUse, serial) == if Held(old(inUse), serial) > 0 then Held(old(inUse), serial) - 1 else 0
      ensures forall other | other != serial :: Held(inUse, other) == Held(old(inUse), other)
    {
      if cap <= 0 {
        return;
      }
      if Held(inUse, serial) <= 1 {
        inUse := inUse - {serial};
      } else {
        inUse := inUse[serial := Held(inUse, serial) - 1];
      }
    }
  }

  // ----- What one request's pair of calls leaves behind -----

  /** A call that changed the map: an acquire that succeeded, or a release. */
  datatype Call = Take(serial: Serial) | Give(serial: Serial)

  function After(inUse: Counts, call: Call): Counts {
    match call
    case Take(serial) => Taken(inUse, serial)
    case Give(serial) => GivenBack(inUse, serial)
  }

  function AfterAll(inUse: Counts, calls: seq<Call>): Counts
    decreases |calls|
  {
    if calls == [] then inUse else After(AfterAll(inUse, calls[..|calls| - 1]), calls[|calls| - 1])
  }

  /** Idle serials are absent; holds of every state a limiter with a cap is in. */
  ghost predicate NoIdle(inUse: Counts) {
    forall serial | serial in inUse :: inUse[serial] >= 1
  }

  ghost predicate Spares(calls: seq<Call>, serial: Serial) {
    forall i | 0 <= i < |calls| :: calls[i].serial != serial
  }

  lemma OtherCommutes(inUse: Counts, serial: Serial, call: Call)
    requires NoIdle(inUse) && call.serial != serial
    ensures After(Taken(inUse, serial), call) == Taken(After(inUse, call), serial)
    ensures NoIdle(After(inUse, call))
  {
    var taken := Taken(inUse, serial);
    assert Held(taken, call.serial) == Held(inUse, call.serial);
    assert Held(After(inUse, call), serial) == Held(inUse, serial);
  }

  lemma {:induction false} OthersCommute(inUse: Counts, serial: Serial, calls: seq<Call>)
    requires NoIdle(inUse) && Spares(calls, serial)
    ensures AfterAll(Taken(inUse, serial), calls) == Taken(AfterAll(inUse, calls), serial)
    ensures NoIdle(AfterAll(inUse, calls))
    decreases |calls|
  {
    if calls != [] {
      var before, call := calls[..|calls| - 1], calls[|calls| - 1];
      OthersCommute(inUse, serial, before);
      OtherCommutes(AfterAll(inUse, before), serial, call);
    }
  }

  /**
   A release undoes its acquire: after any calls for other serials in between,
   the map is what those calls alone would have made of it.
   */
  lemma ReleaseUndoesAcquire(inUse: Counts, serial: Serial, calls: seq<Call>)
    requires NoIdle(inUse) && Spares(calls, serial)
    ensures GivenBack(AfterAll(Taken(inUse, serial), calls), serial) == AfterAll(inUse, calls)
  {
    OthersCommute(inUse, serial, calls);
    assert GivenBack(Taken(AfterAll(inUse, calls), serial), serial) == AfterAll(inUse, calls);
  }
}
