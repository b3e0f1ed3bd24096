/** The in-memory guard against replayed token ids: it forgets an id once its time to live is over. */
module ReplayGuard {
  datatype GuardCall = GuardCall(now: real, jti: string, ttl: int) {
    function Expiry(): real {
      now + ttl as real
    }
  }

  function Purge(storage: map<string, real>, now: real): map<string, real> {
    map k | k in storage && storage[k] > now :: storage[k]
  }

  function Check(storage: map<string, real>, call: GuardCall): (bool, map<string, real>) {
    var kept := Purge(storage, call.now);
    if call.jti in kept then (false, kept) else (true, kept[call.jti := call.Expiry()])
  }

  class InMemoryReplayGuard {
    var storage: map<string, real>

    constructor ()
      ensures storage == map[]
    {
      storage := map[];
    }

    method CheckAndSet(call: GuardCall) returns (accepted: bool)
      modifies this
      ensures (accepted, storage) == Check(old(storage), call)
    {
      var currentTime := call.now;
      var expiredKeys := set k | k in storage && storage[k] <= currentTime;
      while expiredKeys != {}
        invariant forall k :: k in expiredKeys ==> k in storage && storage[k] <= currentTime
        invariant Purge(storage, currentTime) == Purge(old(storage), currentTime)
        invariant forall k :: k in storage && storage[k] <= currentTime ==> k in expiredKeys
      {
        var k :| k in expiredKeys;
        expiredKeys := expiredKeys - {k};
        storage := storage - {k};
      }
      assert storage == Purge(old(storage), currentTime);
      if call.jti in storage && storage[call.jti] > currentTime {
        return false;
      }
      storage := storage[call.jti := call.Expiry()];
      return true;
    }
  }

  function Run(calls: seq<GuardCall>): (map<string, real>, seq<bool>) {
    if calls == [] then (map[], [])
    else
      var (storage, answers) := Run(calls[..|calls| - 1]);
      var (accepted, storage') := Check(storage, calls[|calls| - 1]);
      (storage', answers + [accepted])
  }

  /** Some accepted call for this id has not run out by time `now`. */
  ghost predicate Blocked(accepted: seq<GuardCall>, jti: string, now: real) {
    exists i :: 0 <= i < |accepted| && accepted[i].jti == jti && accepted[i].Expiry() > now
  }

  /** The reference forgets nothing: it keeps every accepted call. */
  ghost function Accepted(calls: seq<GuardCall>): seq<GuardCall> {
    if calls == [] then []
    else
      var earlier, call := Accepted(calls[..|calls| - 1]), calls[|calls| - 1];
      if Blocked(earlier, call.jti, call.now) then earlier else earlier + [call]
  }

  ghost predicate NonDecreasing(calls: seq<GuardCall>) {
    forall i, j :: 0 <= i < j < |calls| ==> calls[i].now <= calls[j].now
  }

  /** From time `now` on, the storage blocks the same ids as the full history. */
  ghost predicate Remembers(storage: map<string, real>, accepted: seq<GuardCall>, now: real) {
    forall jti, u: real :: u >= now ==> ((jti in storage && storage[jti] > u) <==> Blocked(accepted, jti, u))
  }

  lemma BlockedAppend(accepted: seq<GuardCall>, call: GuardCall, jti: string, u: real)
    ensures Blocked(accepted + [call], jti, u) <==> Blocked(accepted, jti, u) || (call.jti == jti && call.Expiry() > u)
  {
    var longer := accepted + [call];
    if Blocked(accepted, jti, u) {
      var i :| 0 <= i < |accepted| && accepted[i].jti == jti && accepted[i].Expiry() > u;
      assert longer[i] == accepted[i];
    }
    if call.jti == jti && call.Expiry() > u {
      assert longer[|accepted|] == call;
    }
  }

  lemma BlockedLess(accepted: seq<GuardCall>, jti: string, now: real, u: real)
    requires now <= u && Blocked(accepted, jti, u)
    ensures Blocked(accepted, jti, now)
  {
  }

  lemma CheckRemembers(storage: map<string, real>, accepted: seq<GuardCall>, call: GuardCall)
    requires Remembers(storage, accepted, call.now)
    ensures var (answer, storage') := Check(storage, call);
      && answer == !Blocked(accepted, call.jti, call.now)
      && Remembers(storage', if answer then accepted + [call] else accepted, call.now)
  {
    var (answer, storage') := Check(storage, call);
    assert answer == !Blocked(accepted, call.jti, call.now);
    if answer {
      forall jti, u: real | u >= call.now
        ensures (jti in storage' && storage'[jti] > u) <==> Blocked(accepted + [call], jti, u)
      {
        BlockedAppend(accepted, call, jti, u);
        if Blocked(accepted, jti, u) { BlockedLess(accepted, jti, call.now, u); }
      }
    }
  }

  /**
   * The self-purging guard answers every call exactly like one that never forgets: a call is
   * accepted if and only if no earlier accepted call for its id has time + ttl later than now.
   */
  lemma {:induction false} PurgingIsInvisible(calls: seq<GuardCall>)
    requires NonDecreasing(calls) && calls != []
    ensures var init, call := calls[..|calls| - 1], calls[|calls| - 1];
      && |Run(calls).1| == |calls|
      && Run(calls).1[|calls| - 1] == !Blocked(Accepted(init), call.jti, call.now)
      && Remembers(Run(calls).0, Accepted(calls), call.now)
  {
    var init, call := calls[..|calls| - 1], calls[|calls| - 1];
    if init != [] {
      PurgingIsInvisible(init);
      assert init[|init| - 1].now <= call.now;
    }
    CheckRemembers(Run(init).0, Accepted(init), call);
  }
}
