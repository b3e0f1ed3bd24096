/**
 * The sliding-window rate limiter. Its sorted set holds whole seconds, each its own score, so
 * several requests admitted in one second share one member. Time is counted in milliseconds.
 */
module RateLimiter {
  import opened Wrappers
  import opened Sequences

  type Millis = nat

  function Second(t: Millis): nat {
    t / 1000
  }

  /** A Redis key: the members of the sorted set and the last time at which the key is still there. An empty set is no key. */
  datatype Bucket = Bucket(members: set<nat>, expireAt: Option<int>)

  const EMPTY := Bucket({}, None)

  datatype Reply = Reply(allowed: bool, count: int, resetTime: int)

  /** What any access at time `t` finds under the key. */
  function Live(b: Bucket, t: Millis): set<nat> {
    if b.expireAt.Some? && b.expireAt.value < t then {} else b.members
  }

  /** `ZREMRANGEBYSCORE key 0 cutoff` */
  function Purge(members: set<nat>, cutoff: int): set<nat> {
    set m | m in members && m > cutoff
  }

  /** `EXPIRE key window` at time `t`; without a positive number of seconds it deletes the key. */
  function Expire(members: set<nat>, window: int, t: Millis): Bucket {
    if window <= 0 then EMPTY else Bucket(members, Some(t + 1000 * window))
  }

  /** The script, run atomically at time `t`. */
  function Evaluate(b: Bucket, limit: int, window: int, t: Millis): (Bucket, Reply) {
    var now := Second(t);
    var kept := Purge(Live(b, t), now - window);
    if |kept| < limit then
      (Expire(kept + {now}, window, t), Reply(true, |kept| + 1, now + window))
    else
      (Bucket(kept, if kept == {} then None else b.expireAt), Reply(false, |kept|, now + window))
  }

  /** The Redis key in place: the methods are the script's commands, `Check` is the script. */
  class SlidingWindow {
    const limit: int
    const window: int
    var members: set<nat>
    var expireAt: Option<int>

    constructor (limit: int, window: int)
      ensures this.limit == limit && this.window == window && Stored() == EMPTY
    {
      this.limit, this.window := limit, window;
      members, expireAt := {}, None;
    }

    function Stored(): Bucket
      reads this
    {
      Bucket(members, expireAt)
    }

    /** Redis drops an expired key before any command sees it. */
    method DropIfExpired(t: Millis)
      modifies this
      ensures members == Live(old(Stored()), t)
      ensures members != {} ==> expireAt == old(expireAt)
    {
      if expireAt.Some? && expireAt.value < t {
        members, expireAt := {}, None;
      }
    }

    method RemoveRangeByScore(cutoff: int)
      modifies this
      ensures members == Purge(old(members), cutoff)
      ensures expireAt == if members == {} then None else old(expireAt)
    {
      members := set m | m in members && !(0 <= m <= cutoff);
      if members == {} {
        expireAt := None;
      }
    }

    method SetExpiry(t: Millis)
      modifies this
      ensures Stored() == Expire(old(members), window, t)
    {
      if window <= 0 {
        members, expireAt := {}, None;
      } else {
        expireAt := Some(t + 1000 * window);
      }
    }

    method Check(t: Millis) returns (r: Reply)
      modifies this
      ensures (Stored(), r) == Evaluate(old(Stored()), limit, window, t)
    {
      DropIfExpired(t);
      var now := Second(t);
      RemoveRangeByScore(now - window);
      var current := |members|;
      if current < limit {
        members := members + {now};
        SetExpiry(t);
        r := Reply(true, current + 1, now + window);
      } else {
        r := Reply(false, current, now + window);
      }
    }
  }

  /** One limiter used over a whole run of requests, given by the times they arrive at. */
  function Run(limit: int, window: int, calls: seq<Millis>): (Bucket, seq<Reply>) {
    if calls == [] then (EMPTY, [])
    else
      var (b, replies) := Run(limit, window, calls[..|calls| - 1]);
      var (b', r) := Evaluate(b, limit, window, calls[|calls| - 1]);
      (b', replies + [r])
  }

  ghost predicate NonDecreasing(calls: seq<Millis>) {
    forall i, j :: 0 <= i < j < |calls| ==> calls[i] <= calls[j]
  }

  /**
   * The reference: a log of admitted seconds that nothing is ever removed from. A request is
   * refused exactly when the log holds at least `limit` distinct seconds later than now - window.
   */
  function LogAdmits(log: set<nat>, limit: int, window: int, now: nat): bool {
    |Purge(log, now - window)| < limit
  }

  function Log(limit: int, window: int, calls: seq<Millis>): set<nat> {
    if calls == [] then {}
    else
      var log := Log(limit, window, calls[..|calls| - 1]);
      var now := Second(calls[|calls| - 1]);
      if LogAdmits(log, limit, window, now) then log + {now} else log
  }

  lemma RunLength(limit: int, window: int, calls: seq<Millis>)
    ensures |Run(limit, window, calls).1| == |calls|
  {
  }

  lemma NonDecreasingInit(calls: seq<Millis>)
    requires NonDecreasing(calls) && calls != []
    ensures NonDecreasing(calls[..|calls| - 1])
    ensures forall i :: 0 <= i < |calls| - 1 ==> calls[i] <= calls[|calls| - 1]
  {
  }

  /** Nothing in the log is later than the last request. */
  lemma {:induction false} LogIsPast(limit: int, window: int, calls: seq<Millis>)
    requires NonDecreasing(calls) && calls != []
    ensures forall m :: m in Log(limit, window, calls) ==> m <= Second(calls[|calls| - 1])
  {
    if |calls| > 1 {
      NonDecreasingInit(calls);
      LogIsPast(limit, window, calls[..|calls| - 1]);
    }
  }

  /**
   * The bucket is a faithful image of the log up to time `at`: what expiry and purging removed
   * from it can never again fall into the window.
   */
  ghost predicate Tracks(b: Bucket, log: set<nat>, window: int, at: Millis) {
    forall t: Millis :: t >= at ==> Purge(Live(b, t), Second(t) - window) == Purge(log, Second(t) - window)
  }

  lemma SecondsGrow(t: Millis, u: Millis)
    requires t <= u
    ensures Second(t) <= Second(u)
  {
  }

  /** `EXPIRE` fires only when the second it was set in has left the window. */
  lemma WindowPassed(t: Millis, u: Millis, window: int)
    requires t + 1000 * window < u
    ensures Second(t) <= Second(u) - window
  {
  }

  lemma PurgeTwice(s: set<nat>, lower: int, upper: int)
    requires lower <= upper
    ensures Purge(Purge(s, lower), upper) == Purge(s, upper)
  {
  }

  /** One script run keeps the image and answers as the log does. */
  lemma EvaluateTracks(b: Bucket, log: set<nat>, limit: int, window: int, t: Millis)
    requires Tracks(b, log, window, t) && forall m :: m in log ==> m <= Second(t)
    ensures var (b', r) := Evaluate(b, limit, window, t);
      && r.allowed == LogAdmits(log, limit, window, Second(t))
      && Tracks(b', if r.allowed then log + {Second(t)} else log, window, t)
  {
    var (b', r) := Evaluate(b, limit, window, t);
    var log' := if r.allowed then log + {Second(t)} else log;
    forall u: Millis | u >= t
      ensures Purge(Live(b', u), Second(u) - window) == Purge(log', Second(u) - window)
    {
      SecondsGrow(t, u);
      PurgeTwice(log, Second(t) - window, Second(u) - window);
      PurgeTwice(Live(b, t), Second(t) - window, Second(u) - window);
      if r.allowed && t + 1000 * window < u {
        WindowPassed(t, u, window);
      }
    }
  }

  /**
   * Refinement: the purged, expiring set answers every request of every run exactly as the
   * never-purged log does, and after each request it is the set of admitted seconds later than
   * now - window (no request can tell it from that set later on).
   */
  lemma {:induction false} RunTracksLog(limit: int, window: int, calls: seq<Millis>)
    requires NonDecreasing(calls) && calls != []
    ensures var t := calls[|calls| - 1];
      var (b, replies) := Run(limit, window, calls);
      && |replies| == |calls|
      && replies[|calls| - 1].allowed == LogAdmits(Log(limit, window, calls[..|calls| - 1]), limit, window, Second(t))
      && Tracks(b, Log(limit, window, calls), window, t)
  {
    RunLength(limit, window, calls);
    var init, t := calls[..|calls| - 1], calls[|calls| - 1];
    NonDecreasingInit(calls);
    var b, log := Run(limit, window, init).0, Log(limit, window, init);
    if init != [] {
      RunTracksLog(limit, window, init);
      LogIsPast(limit, window, init);
      assert init[|init| - 1] <= t;
      SecondsGrow(init[|init| - 1], t);
    }
    assert Tracks(b, log, window, t);
    EvaluateTracks(b, log, limit, window, t);
  }

  /** The script without its `EXPIRE`: the key then only ever loses what purging removes. */
  function EvaluateKeeping(members: set<nat>, limit: int, window: int, t: Millis): (set<nat>, Reply) {
    var now := Second(t);
    var kept := Purge(members, now - window);
    if |kept| < limit then (kept + {now}, Reply(true, |kept| + 1, now + window))
    else (kept, Reply(false, |kept|, now + window))
  }

  function RunKeeping(limit: int, window: int, calls: seq<Millis>): (set<nat>, seq<Reply>) {
    if calls == [] then ({}, [])
    else
      var (members, replies) := RunKeeping(limit, window, calls[..|calls| - 1]);
      var (members', r) := EvaluateKeeping(members, limit, window, calls[|calls| - 1]);
      (members', replies + [r])
  }

  lemma KeepingTracks(members: set<nat>, limit: int, window: int, t: Millis)
    ensures var (members', r) := EvaluateKeeping(members, limit, window, t);
      forall u: Millis :: u >= t ==>
        Purge(members', Second(u) - window) ==
        Purge(if r.allowed then members + {Second(t)} else members, Second(u) - window)
  {
    var (members', r) := EvaluateKeeping(members, limit, window, t);
    forall u: Millis | u >= t
      ensures Purge(members', Second(u) - window) == Purge(if r.allowed then members + {Second(t)} else members, Second(u) - window)
    {
      SecondsGrow(t, u);
      PurgeTwice(members, Second(t) - window, Second(u) - window);
    }
  }

  /** One step with and one without `EXPIRE`, from states that agree on every window to come. */
  lemma KeepingStep(b: Bucket, members: set<nat>, limit: int, window: int, t: Millis)
    requires Tracks(b, members, window, t) && forall m :: m in members ==> m <= Second(t)
    ensures var (b', r) := Evaluate(b, limit, window, t);
      var (members', r') := EvaluateKeeping(members, limit, window, t);
      && r == r'
      && Tracks(b', members', window, t)
      && forall m :: m in members' ==> m <= Second(t)
  {
    EvaluateTracks(b, members, limit, window, t);
    KeepingTracks(members, limit, window, t);
    assert Purge(Live(b, t), Second(t) - window) == Purge(members, Second(t) - window);
  }

  /** Dropping the `EXPIRE` changes no answer of any run: not the verdict, not the count, not the reset time. */
  lemma {:induction false} ExpireIsInvisible(limit: int, window: int, calls: seq<Millis>)
    requires NonDecreasing(calls)
    ensures Run(limit, window, calls).1 == RunKeeping(limit, window, calls).1
    ensures calls != [] ==>
              var t := calls[|calls| - 1];
              && Tracks(Run(limit, window, calls).0, RunKeeping(limit, window, calls).0, window, t)
              && forall m :: m in RunKeeping(limit, window, calls).0 ==> m <= Second(t)
  {
    if calls != [] {
      var init, t := calls[..|calls| - 1], calls[|calls| - 1];
      NonDecreasingInit(calls);
      ExpireIsInvisible(limit, window, init);
      if init != [] {
        assert init[|init| - 1] <= t;
        SecondsGrow(init[|init| - 1], t);
      }
      KeepingStep(Run(limit, window, init).0, RunKeeping(limit, window, init).0, limit, window, t);
    }
  }

  function SecondsAdmitted(calls: seq<Millis>, replies: seq<Reply>): set<nat> {
    set i | 0 <= i < |calls| && i < |replies| && replies[i].allowed :: Second(calls[i])
  }

  /** The distinct seconds in which some request of the run was admitted. */
  function AdmittedSeconds(limit: int, window: int, calls: seq<Millis>): set<nat> {
    SecondsAdmitted(calls, Run(limit, window, calls).1)
  }

  lemma AdmittedAppend(calls: seq<Millis>, replies: seq<Reply>, t: Millis, r: Reply)
    requires |calls| == |replies|
    ensures SecondsAdmitted(calls + [t], replies + [r]) ==
            SecondsAdmitted(calls, replies) + if r.allowed then {Second(t)} else {}
  {
    var all, answers := calls + [t], replies + [r];
    forall m | m in SecondsAdmitted(calls, replies)
      ensures m in SecondsAdmitted(all, answers)
    {
      var i :| 0 <= i < |calls| && replies[i].allowed && Second(calls[i]) == m;
      assert answers[i].allowed && Second(all[i]) == m;
    }
    if r.allowed {
      assert answers[|calls|].allowed && Second(all[|calls|]) == Second(t);
    }
  }

  lemma {:induction false} LogIsAdmittedSeconds(limit: int, window: int, calls: seq<Millis>)
    requires NonDecreasing(calls)
    ensures Log(limit, window, calls) == AdmittedSeconds(limit, window, calls)
  {
    if calls != [] {
      var init, t := calls[..|calls| - 1], calls[|calls| - 1];
      NonDecreasingInit(calls);
      LogIsAdmittedSeconds(limit, window, init);
      RunTracksLog(limit, window, calls);
      RunLength(limit, window, init);
      var r := Evaluate(Run(limit, window, init).0, limit, window, t).1;
      assert calls == init + [t] && Run(limit, window, calls).1 == Run(limit, window, init).1 + [r];
      AdmittedAppend(init, Run(limit, window, init).1, t, r);
    }
  }

  /** Right after the script no stored member is expired or due for purging. */
  lemma EvaluateStores(b: Bucket, limit: int, window: int, t: Millis)
    ensures var b' := Evaluate(b, limit, window, t).0;
      Live(b', t) == b'.members && Purge(b'.members, Second(t) - window) == b'.members
  {
  }

  /** The set stored after a request is, member for member, the admitted seconds later than now - window. */
  lemma StoredSetIsTheWindow(limit: int, window: int, calls: seq<Millis>)
    requires NonDecreasing(calls) && calls != []
    ensures var now := Second(calls[|calls| - 1]);
      Run(limit, window, calls).0.members == Purge(AdmittedSeconds(limit, window, calls), now - window)
  {
    var t := calls[|calls| - 1];
    RunTracksLog(limit, window, calls);
    LogIsAdmittedSeconds(limit, window, calls);
    EvaluateStores(Run(limit, window, calls[..|calls| - 1]).0, limit, window, t);
  }

  /** A request is refused exactly when at least `limit` distinct seconds later than now - window have seen an admission. */
  lemma RefusedIff(limit: int, window: int, calls: seq<Millis>, t: Millis)
    requires NonDecreasing(calls + [t])
    ensures Evaluate(Run(limit, window, calls).0, limit, window, t).1.allowed <==>
            |Purge(AdmittedSeconds(limit, window, calls), Second(t) - window)| < limit
  {
    var all := calls + [t];
    assert all[..|all| - 1] == calls;
    NonDecreasingInit(all);
    RunTracksLog(limit, window, all);
    RunLength(limit, window, calls);
    LogIsAdmittedSeconds(limit, window, calls);
  }

  /** The seconds of `log` in the half-open window (end - window, end]. */
  function InWindow(log: set<nat>, window: int, end: int): set<nat> {
    set m | m in log && end - window < m <= end
  }

  lemma {:induction false} LogBound(limit: int, window: int, calls: seq<Millis>, end: int)
    requires NonDecreasing(calls)
    ensures |InWindow(Log(limit, window, calls), window, end)| <= if limit > 0 then limit else 0
  {
    if calls == [] {
      assert InWindow(Log(limit, window, calls), window, end) == {};
    } else {
      var init, now := calls[..|calls| - 1], Second(calls[|calls| - 1]);
      NonDecreasingInit(calls);
      LogBound(limit, window, init, end);
      var log := Log(limit, window, init);
      if LogAdmits(log, limit, window, now) && end - window < now <= end {
        var before := Purge(log, now - window);
        assert InWindow(log + {now}, window, end) <= before + {now};
        SubsetSize(InWindow(log + {now}, window, end), before + {now});
      } else {
        assert InWindow(Log(limit, window, calls), window, end) == InWindow(log, window, end);
      }
    }
  }

  /** In any interval (end - window, end], at any time at all, at most `limit` distinct seconds saw a request admitted. */
  lemma WindowBound(limit: int, window: int, calls: seq<Millis>, end: int)
    requires NonDecreasing(calls)
    ensures |InWindow(AdmittedSeconds(limit, window, calls), window, end)| <= if limit > 0 then limit else 0
  {
    LogIsAdmittedSeconds(limit, window, calls);
    LogBound(limit, window, calls, end);
  }

  /** How many requests, not seconds, were admitted in (end - window, end]. */
  function AdmissionsIn(limit: int, window: int, calls: seq<Millis>, end: int): nat {
    if calls == [] then 0
    else
      var init, t := calls[..|calls| - 1], calls[|calls| - 1];
      var allowed := Evaluate(Run(limit, window, init).0, limit, window, t).1.allowed;
      AdmissionsIn(limit, window, init, end) + if allowed && end - window < Second(t) <= end then 1 else 0
  }

  function Burst(t: Millis, n: nat): seq<Millis> {
    seq(n, i => t)
  }

  lemma OneMoreInSecond(b: Bucket, limit: int, window: int, t: Millis)
    requires limit >= 2 && window > 0 && (b == EMPTY || b == Bucket({Second(t)}, Some(t + 1000 * window)))
    ensures var (b', r) := Evaluate(b, limit, window, t); r.allowed && b' == Bucket({Second(t)}, Some(t + 1000 * window))
  {
    var kept := Purge(Live(b, t), Second(t) - window);
    assert kept == if b == EMPTY then {} else {Second(t)};
    assert kept + {Second(t)} == {Second(t)};
  }

  /** With a limit of two or more, every request of a burst inside one second is admitted, however many there are. */
  lemma {:induction false} BurstAdmitted(limit: int, window: int, t: Millis, n: nat)
    requires limit >= 2 && window > 0
    ensures AdmissionsIn(limit, window, Burst(t, n), Second(t)) == n
    ensures Run(limit, window, Burst(t, n)).0 ==
            if n == 0 then EMPTY else Bucket({Second(t)}, Some(t + 1000 * window))
  {
    if n > 0 {
      assert Burst(t, n)[..n - 1] == Burst(t, n - 1);
      BurstAdmitted(limit, window, t, n - 1);
      OneMoreInSecond(Run(limit, window, Burst(t, n - 1)).0, limit, window, t);
    }
  }

  /** With a limit of one or less, a second that admitted one request admits no other. */
  lemma {:induction false} SingleAdmissions(limit: int, window: int, calls: seq<Millis>, end: int)
    requires limit <= 1 && window > 0 && NonDecreasing(calls)
    ensures AdmissionsIn(limit, window, calls, end) == |InWindow(Log(limit, window, calls), window, end)|
  {
    if calls == [] {
      assert InWindow(Log(limit, window, calls), window, end) == {};
    } else {
      var init, now := calls[..|calls| - 1], Second(calls[|calls| - 1]);
      NonDecreasingInit(calls);
      SingleAdmissions(limit, window, init, end);
      RunTracksLog(limit, window, calls);
      RunLength(limit, window, init);
      var log := Log(limit, window, init);
      assert now in log <==> now in Purge(log, now - window);
      if LogAdmits(log, limit, window, now) {
        assert Purge(log, now - window) == {};
        if end - window < now <= end {
          assert InWindow(log + {now}, window, end) == InWindow(log, window, end) + {now};
        } else {
          assert InWindow(log + {now}, window, end) == InWindow(log, window, end);
        }
      }
    }
  }

  /** Every run of this limiter admits at most `limit` requests, and not only seconds, in every window. */
  ghost predicate BoundsRequests(limit: int, window: int) {
    forall calls, end: int :: NonDecreasing(calls) ==>
      AdmissionsIn(limit, window, calls, end) <= if limit > 0 then limit else 0
  }

  lemma RequestsBoundedIffLimitAtMostOne(limit: int, window: int)
    requires window > 0
    ensures BoundsRequests(limit, window) <==> limit <= 1
  {
    if limit <= 1 {
      forall calls, end: int | NonDecreasing(calls)
        ensures AdmissionsIn(limit, window, calls, end) <= if limit > 0 then limit else 0
      {
        SingleAdmissions(limit, window, calls, end);
        LogBound(limit, window, calls, end);
      }
    } else {
      var calls := Burst(0, limit + 1);
      BurstAdmitted(limit, window, 0, limit + 1);
      assert NonDecreasing(calls);
      assert AdmissionsIn(limit, window, calls, Second(0)) == limit + 1;
    }
  }

  /** The reported count is the size of the stored set exactly when the current second was not yet a member. */
  lemma CountOvershoots(b: Bucket, limit: int, window: int, t: Millis)
    requires window > 0 && Evaluate(b, limit, window, t).1.allowed
    ensures var (b', r) := Evaluate(b, limit, window, t);
      r.count == |b'.members| <==> Second(t) !in Live(b, t)
  {
    var kept := Purge(Live(b, t), Second(t) - window);
    if Second(t) in kept {
      assert kept + {Second(t)} == kept;
    }
  }

  /** The reply in full: counted are the live members later than now - window, and the request itself if it is allowed. */
  lemma ReplyIs(b: Bucket, limit: int, window: int, t: Millis)
    ensures var now := t / 1000;
      var inWindow := set m | m in b.members && m > now - window && (b.expireAt.Some? ==> b.expireAt.value >= t);
      var r := Evaluate(b, limit, window, t).1;
      && r.resetTime == now + window
      && (r.allowed <==> |inWindow| < limit)
      && r.count == |inWindow| + (if r.allowed then 1 else 0)
  {
    var now := t / 1000;
    assert Purge(Live(b, t), now - window) == set m | m in b.members && m > now - window && (b.expireAt.Some? ==> b.expireAt.value >= t);
  }
}
