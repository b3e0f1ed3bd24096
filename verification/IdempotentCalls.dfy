/**
 * The idempotency decorator: claim the key, run the function, store the result; a caller that
 * finds the key taken returns what is stored under it. The store only ever inserts.
 */
module IdempotentCalls {
  import opened Wrappers

  type Key = string
  type CallerId = nat

  /** What a key can hold: the marker the decorator claims it with, or some other value. */
  datatype Value = Processing | Stored(data: string)

  /** What the wrapped function does when it is run. */
  datatype Effect = Returns(data: string) | Throws

  datatype Answer = FunctionRaised | KeyExistsRaised | Found(value: Value) | FoundNothing | ReturnedResult(data: string)

  class InMemoryIdempotencyStorage {
    var storage: map<Key, Value>

    constructor ()
      ensures storage == map[]
    {
      storage := map[];
    }

    method Get(key: Key) returns (value: Option<Value>)
      ensures value == if key in storage then Some(storage[key]) else None
    {
      value := if key in storage then Some(storage[key]) else None;
    }

    /** Inserts, or refuses (the key exists) and leaves everything as it was. */
    method Set(key: Key, value: Value) returns (inserted: bool)
      modifies this
      ensures inserted <==> key !in old(storage)
      ensures storage == if inserted then old(storage)[key := value] else old(storage)
    {
      if key in storage {
        return false;
      }
      storage := storage[key := value];
      return true;
    }
  }

  /** One call of the wrapper with no other call in between: how it ends and whether the function ran. */
  function CallAlone(store: map<Key, Value>, key: Key, effect: Effect): (map<Key, Value>, Answer, bool) {
    if key in store then (store, Found(store[key]), false)
    else (store[key := Processing], if effect.Throws? then FunctionRaised else KeyExistsRaised, true)
  }

  method Wrapper(storage: InMemoryIdempotencyStorage, key: Key, effect: Effect) returns (answer: Answer, ran: bool)
    modifies storage
    ensures (storage.storage, answer, ran) == CallAlone(old(storage.storage), key, effect)
  {
    var claimed := storage.Set(key, Processing);
    if !claimed {
      var existing := storage.Get(key);
      return if existing.Some? then Found(existing.value) else FoundNothing, false;
    }
    match effect
    case Throws =>
      return FunctionRaised, true;
    case Returns(data) =>
      var stored := storage.Set(key, Stored(data));
      return if stored then ReturnedResult(data) else KeyExistsRaised, true;
  }

  /** Where a call of the wrapper stands; between any two of its steps other calls may take theirs. */
  datatype Phase =
    | Arrived
    | Claimed
    | Running
    | Computed(data: string)
    | Refused
    | Done(answer: Answer)

  datatype Caller = Caller(key: Key, phase: Phase)

  /** Any number of calls in progress over one store; `started` lists every start of a wrapped function. */
  datatype System = System(store: map<Key, Value>, callers: map<CallerId, Caller>, started: seq<(Key, CallerId)>)

  /** One atomic step of one call; `effect` says what the function does if this step ends its run. */
  function Step(s: System, who: CallerId, effect: Effect): System {
    if who !in s.callers then s
    else
      var c := s.callers[who];
      match c.phase
      case Arrived =>
        if c.key in s.store then s.(callers := s.callers[who := c.(phase := Refused)])
        else s.(store := s.store[c.key := Processing], callers := s.callers[who := c.(phase := Claimed)])
      case Claimed =>
        s.(callers := s.callers[who := c.(phase := Running)], started := s.started + [(c.key, who)])
      case Running =>
        s.(callers := s.callers[who := c.(phase := if effect.Throws? then Done(FunctionRaised) else Computed(effect.data))])
      case Computed(data) =>
        if c.key in s.store then s.(callers := s.callers[who := c.(phase := Done(KeyExistsRaised))])
        else s.(store := s.store[c.key := Stored(data)], callers := s.callers[who := c.(phase := Done(ReturnedResult(data)))])
      case Refused =>
        s.(callers := s.callers[who := c.(phase := Done(if c.key in s.store then Found(s.store[c.key]) else FoundNothing))])
      case Done(_) => s
  }

  /** Any number of calls has just arrived at a store with any contents. */
  ghost predicate Initial(s: System) {
    s.started == [] && forall c :: c in s.callers ==> s.callers[c].phase.Arrived?
  }

  /** Every interleaving is a choice, step after step, of who goes next and what the function does. */
  function Run(s: System, schedule: seq<(CallerId, Effect)>): System {
    if schedule == [] then s
    else
      var last := schedule[|schedule| - 1];
      Step(Run(s, schedule[..|schedule| - 1]), last.0, last.1)
  }

  /** This call has claimed its key (and may have gone on from there). */
  predicate Claimant(p: Phase) {
    p.Claimed? || p.Running? || p.Computed? || (p.Done? && (p.answer.FunctionRaised? || p.answer.KeyExistsRaised?))
  }

  ghost predicate KeyClaimedOnce(s: System) {
    forall a, b :: a in s.callers && b in s.callers && a != b && Claimant(s.callers[a].phase) && Claimant(s.callers[b].phase)
      ==> s.callers[a].key != s.callers[b].key
  }

  ghost predicate CallerFits(s: System, initial: map<Key, Value>, who: CallerId)
    requires who in s.callers
  {
    var c := s.callers[who];
    && (Claimant(c.phase) ==> c.key in s.store && c.key !in initial && s.store[c.key] == Processing)
    && (c.phase.Refused? ==> c.key in s.store)
    && (c.phase.Done? ==> c.phase.answer.FunctionRaised? || c.phase.answer.KeyExistsRaised?
                          || (c.phase.answer.Found? && c.key in s.store && c.phase.answer.value == s.store[c.key]))
  }

  ghost predicate StartsFit(s: System) {
    && (forall i :: 0 <= i < |s.started| ==>
          var (key, who) := s.started[i];
          who in s.callers && s.callers[who].key == key && Claimant(s.callers[who].phase) && !s.callers[who].phase.Claimed?)
    && (forall i, j :: 0 <= i < j < |s.started| ==> s.started[i].0 != s.started[j].0)
  }

  /** Every claimant past its claim has a start of its own. */
  ghost predicate ClaimantsStarted(s: System) {
    forall who :: who in s.callers && Claimant(s.callers[who].phase) && !s.callers[who].phase.Claimed? ==>
      (s.callers[who].key, who) in s.started
  }

  ghost predicate Invariant(s: System, initial: map<Key, Value>) {
    && (forall k :: k in initial ==> k in s.store && s.store[k] == initial[k])
    && (forall k :: k in s.store && k !in initial ==> s.store[k] == Processing)
    && (forall who :: who in s.callers ==> CallerFits(s, initial, who))
    && KeyClaimedOnce(s)
    && StartsFit(s)
    && ClaimantsStarted(s)
  }

  lemma StepKeepsStore(s: System, initial: map<Key, Value>, who: CallerId, effect: Effect)
    requires Invariant(s, initial)
    ensures var s' := Step(s, who, effect);
      && (forall k :: k in initial ==> k in s'.store && s'.store[k] == initial[k])
      && (forall k :: k in s'.store && k !in initial ==> s'.store[k] == Processing)
      && (forall k :: k in s.store ==> k in s'.store && s'.store[k] == s.store[k])
  {
    if who in s.callers { assert CallerFits(s, initial, who); }
  }

  lemma StepKeepsOther(s: System, initial: map<Key, Value>, who: CallerId, effect: Effect, c: CallerId)
    requires Invariant(s, initial) && c in s.callers && c != who
    ensures CallerFits(Step(s, who, effect), initial, c)
  {
    StepKeepsStore(s, initial, who, effect);
    assert CallerFits(s, initial, c);
  }

  lemma ClaimFits(s: System, initial: map<Key, Value>, who: CallerId, effect: Effect)
    requires Invariant(s, initial) && who in s.callers && (s.callers[who].phase.Arrived? || s.callers[who].phase.Refused?)
    ensures CallerFits(Step(s, who, effect), initial, who)
  {
    assert CallerFits(s, initial, who);
  }

  lemma RunningFits(s: System, initial: map<Key, Value>, who: CallerId, effect: Effect)
    requires Invariant(s, initial) && who in s.callers && !s.callers[who].phase.Arrived? && !s.callers[who].phase.Refused?
    ensures CallerFits(Step(s, who, effect), initial, who)
  {
    assert CallerFits(s, initial, who);
  }

  lemma StepKeepsCaller(s: System, initial: map<Key, Value>, who: CallerId, effect: Effect, c: CallerId)
    requires Invariant(s, initial) && c in s.callers
    ensures CallerFits(Step(s, who, effect), initial, c)
  {
    if c != who {
      StepKeepsOther(s, initial, who, effect, c);
    } else if s.callers[who].phase.Arrived? || s.callers[who].phase.Refused? {
      ClaimFits(s, initial, who, effect);
    } else {
      RunningFits(s, initial, who, effect);
    }
  }

  /** A call that has just claimed its key shares it with no other claimant. */
  lemma NewClaimIsAlone(s: System, initial: map<Key, Value>, who: CallerId, other: CallerId)
    requires Invariant(s, initial) && who in s.callers && other in s.callers
    requires s.callers[who].phase.Arrived? && s.callers[who].key !in s.store
    ensures Claimant(s.callers[other].phase) ==> s.callers[other].key != s.callers[who].key
  {
    assert CallerFits(s, initial, other);
  }

  lemma StepKeepsClaims(s: System, initial: map<Key, Value>, who: CallerId, effect: Effect)
    requires Invariant(s, initial)
    ensures KeyClaimedOnce(Step(s, who, effect))
  {
    var s' := Step(s, who, effect);
    if who in s.callers && s.callers[who].phase.Arrived? && s.callers[who].key !in s.store {
      forall other | other in s.callers
        ensures Claimant(s.callers[other].phase) ==> s.callers[other].key != s.callers[who].key
      {
        NewClaimIsAlone(s, initial, who, other);
      }
    } else {
      assert who in s.callers && Claimant(s'.callers[who].phase) ==> Claimant(s.callers[who].phase);
    }
  }

  lemma StepKeepsStarts(s: System, initial: map<Key, Value>, who: CallerId, effect: Effect)
    requires Invariant(s, initial)
    ensures StartsFit(Step(s, who, effect))
  {
    if who in s.callers {
      assert CallerFits(s, initial, who);
      if s.callers[who].phase.Claimed? {
        var key := s.callers[who].key;
        forall i | 0 <= i < |s.started|
          ensures s.started[i].0 != key
        {
          var other := s.started[i].1;
          assert s.callers[other].key == s.started[i].0 && Claimant(s.callers[other].phase);
        }
      }
    }
  }

  lemma StepKeepsClaimants(s: System, initial: map<Key, Value>, who: CallerId, effect: Effect)
    requires Invariant(s, initial)
    ensures ClaimantsStarted(Step(s, who, effect))
  {
    if who in s.callers {
      assert CallerFits(s, initial, who);
      assert forall e :: e in s.started ==> e in Step(s, who, effect).started;
    }
  }

  lemma StepKeepsInvariant(s: System, initial: map<Key, Value>, who: CallerId, effect: Effect)
    requires Invariant(s, initial)
    ensures Invariant(Step(s, who, effect), initial)
  {
    StepKeepsStore(s, initial, who, effect);
    StepKeepsClaims(s, initial, who, effect);
    StepKeepsStarts(s, initial, who, effect);
    StepKeepsClaimants(s, initial, who, effect);
    assert Step(s, who, effect).callers.Keys == s.callers.Keys;
    forall c | c in s.callers
      ensures CallerFits(Step(s, who, effect), initial, c)
    {
      StepKeepsCaller(s, initial, who, effect, c);
    }
  }

  lemma {:induction false} RunKeepsInvariant(s: System, schedule: seq<(CallerId, Effect)>)
    requires Initial(s)
    ensures Invariant(Run(s, schedule), s.store)
  {
    if schedule != [] {
      RunKeepsInvariant(s, schedule[..|schedule| - 1]);
      var last := schedule[|schedule| - 1];
      StepKeepsInvariant(Run(s, schedule[..|schedule| - 1]), s.store, last.0, last.1);
    }
  }

  function StartsOf(started: seq<(Key, CallerId)>, key: Key): nat {
    if started == [] then 0
    else StartsOf(started[..|started| - 1], key) + if started[|started| - 1].0 == key then 1 else 0
  }

  lemma {:induction false} DistinctStarts(started: seq<(Key, CallerId)>, key: Key)
    requires forall i, j :: 0 <= i < j < |started| ==> started[i].0 != started[j].0
    ensures StartsOf(started, key) <= 1
    ensures (forall i :: 0 <= i < |started| ==> started[i].0 != key) ==> StartsOf(started, key) == 0
  {
    if started != [] {
      DistinctStarts(started[..|started| - 1], key);
    }
  }

  /** In every interleaving of any number of calls the wrapped function starts at most once per key. */
  lemma AtMostOneRunPerKey(s: System, schedule: seq<(CallerId, Effect)>, key: Key)
    requires Initial(s)
    ensures StartsOf(Run(s, schedule).started, key) <= 1
    ensures key in s.store ==> StartsOf(Run(s, schedule).started, key) == 0
  {
    RunKeepsInvariant(s, schedule);
    var end := Run(s, schedule);
    DistinctStarts(end.started, key);
    if key in s.store {
      forall i | 0 <= i < |end.started|
        ensures end.started[i].0 != key
      {
        assert CallerFits(end, s.store, end.started[i].1);
      }
    }
  }

  /** A stored value never changes, from any point of an interleaving to any later one. */
  lemma {:induction false} StoredValuesNeverChange(s: System, schedule: seq<(CallerId, Effect)>, k: Key)
    requires k in s.store
    ensures k in Run(s, schedule).store && Run(s, schedule).store[k] == s.store[k]
  {
    if schedule != [] {
      StoredValuesNeverChange(s, schedule[..|schedule| - 1], k);
    }
  }

  /** This call has started the wrapped function. */
  ghost predicate Ran(s: System, who: CallerId) {
    exists i :: 0 <= i < |s.started| && s.started[i].1 == who
  }

  lemma RanIff(s: System, initial: map<Key, Value>, who: CallerId)
    requires Invariant(s, initial) && who in s.callers
    ensures Ran(s, who) <==> Claimant(s.callers[who].phase) && !s.callers[who].phase.Claimed?
  {
    if Claimant(s.callers[who].phase) && !s.callers[who].phase.Claimed? {
      var i :| 0 <= i < |s.started| && s.started[i] == (s.callers[who].key, who);
      assert s.started[i].1 == who;
    }
  }

  /**
   * How calls end, in every interleaving: a call ends in an exception exactly when it ran the
   * function, even when the function returned; every other one finds a value, the one that was
   * there from the start or the claim marker. No call ever returns the function's result, and
   * none is ever stored.
   */
  lemma HowCallsEnd(s: System, schedule: seq<(CallerId, Effect)>, who: CallerId)
    requires Initial(s) && who in Run(s, schedule).callers && Run(s, schedule).callers[who].phase.Done?
    ensures var c := Run(s, schedule).callers[who];
      var answer := c.phase.answer;
      && (Ran(Run(s, schedule), who) <==> answer.FunctionRaised? || answer.KeyExistsRaised?)
      && (!Ran(Run(s, schedule), who) <==> answer == Found(if c.key in s.store then s.store[c.key] else Processing))
    ensures forall k :: k in Run(s, schedule).store && k !in s.store ==> Run(s, schedule).store[k] == Processing
  {
    RunKeepsInvariant(s, schedule);
    RanIff(Run(s, schedule), s.store, who);
    assert CallerFits(Run(s, schedule), s.store, who);
  }

  /** A call refused by the store always finds a value when it looks. */
  lemma RefusedCallFinds(s: System, schedule: seq<(CallerId, Effect)>, who: CallerId, effect: Effect)
    requires Initial(s) && who in Run(s, schedule).callers && Run(s, schedule).callers[who].phase.Refused?
    ensures var end := Run(s, schedule);
      var key := end.callers[who].key;
      key in end.store && Step(end, who, effect).callers[who].phase == Done(Found(end.store[key]))
  {
    RunKeepsInvariant(s, schedule);
    assert CallerFits(Run(s, schedule), s.store, who);
  }

  function Repeat(who: CallerId, effect: Effect, n: nat): seq<(CallerId, Effect)> {
    seq(n, i => (who, effect))
  }

  lemma {:induction false} RepeatStep(s: System, who: CallerId, effect: Effect, n: nat)
    ensures Run(s, Repeat(who, effect, n + 1)) == Step(Run(s, Repeat(who, effect, n)), who, effect)
  {
    assert Repeat(who, effect, n + 1)[..n] == Repeat(who, effect, n);
  }

  /** A call left alone goes through its steps to what the wrapper, run without interruption, does. */
  lemma StepsAgreeWithWrapper(s: System, who: CallerId, effect: Effect)
    requires who in s.callers && s.callers[who].phase.Arrived?
    ensures var end := Run(s, Repeat(who, effect, 4));
      var (store, answer, ran) := CallAlone(s.store, s.callers[who].key, effect);
      && end.store == store && who in end.callers && end.callers[who].phase == Done(answer)
      && end.started == if ran then s.started + [(s.callers[who].key, who)] else s.started
  {
    var s1 := Step(s, who, effect);
    var s2 := Step(s1, who, effect);
    var s3 := Step(s2, who, effect);
    assert Run(s, Repeat(who, effect, 4)) == Step(s3, who, effect) by {
      assert Run(s, Repeat(who, effect, 0)) == s;
      RepeatStep(s, who, effect, 0);
      RepeatStep(s, who, effect, 1);
      RepeatStep(s, who, effect, 2);
      RepeatStep(s, who, effect, 3);
    }
    var key := s.callers[who].key;
    if key in s.store {
      assert s2.callers[who].phase == Done(Found(s.store[key]));
    } else {
      assert s2.callers[who].phase == Running && s2.store == s.store[key := Processing];
    }
  }
}
