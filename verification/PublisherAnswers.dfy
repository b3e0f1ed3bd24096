/** What concurrent publishers are answered: alone as the service answers, and from the key what was committed under it. */
module PublisherAnswers {
  import opened Wrappers
  import opened RegistryModels
  import opened CapsuleRepository
  import opened CapsuleRegistry
  import opened Publishing
  import opened CapsuleHistories
  import WormStore

  predicate RecordedUnder(b: Publisher, key: string, id: string, number: nat) {
    b.phase == Recorded(number) && b.request.key == key && b.request.id == id
  }

  /** Some publisher that used this key has committed version `number` of this capsule and recorded it. */
  ghost predicate RecordedBy(s: System, key: string, id: string, number: nat) {
    exists who :: who in s.publishers && RecordedUnder(s.publishers[who], key, id, number)
  }

  /** Every idempotency result was there at the start or was recorded here by a publisher with that key, for its capsule and the number it committed. */
  ghost predicate ResultsTrue(s: System, start: map<string, Remembered>) {
    forall k :: k in s.results ==>
      (k in start && s.results[k] == start[k]) || RecordedBy(s, k, s.results[k].capsuleId, s.results[k].version)
  }

  predicate Replaying(p: Phase) {
    p.KeyKnown? || p.Replayed?
  }

  /** The number a replay goes by came from a result under its key, of some capsule. */
  ghost predicate FromKey(s: System, start: map<string, Remembered>, b: Publisher)
    requires Replaying(b.phase)
  {
    var key := b.request.key;
    (key in start && start[key].version == b.phase.number) || exists id :: RecordedBy(s, key, id, b.phase.number)
  }

  ghost predicate ReplaysTrue(s: System, start: map<string, Remembered>) {
    forall who :: who in s.publishers && Replaying(s.publishers[who].phase) ==> FromKey(s, start, s.publishers[who])
  }

  /** No publisher that has recorded does anything more. */
  ghost predicate RecordsStay(s: System, s': System) {
    forall who :: who in s.publishers && s.publishers[who].phase.Recorded? ==> who in s'.publishers && s'.publishers[who] == s.publishers[who]
  }

  lemma StaysRecorded(s: System, s': System, key: string, id: string, number: nat)
    requires RecordsStay(s, s') && RecordedBy(s, key, id, number)
    ensures RecordedBy(s', key, id, number)
  {
    var who :| who in s.publishers && RecordedUnder(s.publishers[who], key, id, number);
    assert RecordedUnder(s'.publishers[who], key, id, number);
  }

  lemma StaysFromKey(s: System, s': System, start: map<string, Remembered>, b: Publisher)
    requires RecordsStay(s, s') && Replaying(b.phase) && FromKey(s, start, b)
    ensures FromKey(s', start, b)
  {
    var key := b.request.key;
    if !(key in start && start[key].version == b.phase.number) {
      var id :| RecordedBy(s, key, id, b.phase.number);
      StaysRecorded(s, s', key, id, b.phase.number);
    }
  }

  /** What a step does to results and to the publisher, as far as answers are concerned. */
  ghost predicate AnswerStep(s: System, s': System, who: nat)
    requires who in s.publishers
  {
    && who in s'.publishers && s'.publishers == s.publishers[who := Publisher(s.publishers[who].request, s'.publishers[who].phase)]
    && var (r, p, p') := (s.publishers[who].request, s.publishers[who].phase, s'.publishers[who].phase);
       && (if p.Committed? then p' == Recorded(p.number) && s'.results == s.results[r.key := Remembered(r.id, p.number)]
           else s'.results == s.results)
       && (p.Recorded? ==> p' == p)
       && (Replaying(p') ==> (Replaying(p) && p'.number == p.number) || (r.key in s.results && s.results[r.key].version == p'.number))
  }

  lemma CommitAnswers(s: System, who: nat)
    requires who in s.publishers && s.publishers[who].phase.Ready?
    ensures AnswerStep(s, AdvanceOne(s, who), who)
  {
  }

  lemma StoreAnswers(s: System, who: nat)
    requires who in s.publishers && s.publishers[who].phase.Checked?
    ensures AnswerStep(s, AdvanceOne(s, who), who)
  {
    var (r, p) := (s.publishers[who].request, s.publishers[who].phase);
    var (files, stored) := WormStore.Store(s.files, r.tenant, r.hash, r.text);
    assert AdvanceOne(s, who) == Moved(s, who, if stored then Stored(p.latest, p.status) else Refused).(files := files);
  }

  lemma KeyAnswers(s: System, who: nat)
    requires who in s.publishers && s.publishers[who].phase.Stored?
    ensures AnswerStep(s, AdvanceOne(s, who), who)
  {
  }

  lemma EndAnswers(s: System, who: nat)
    requires who in s.publishers && Over(s.publishers[who].phase)
    ensures AnswerStep(s, AdvanceOne(s, who), who)
  {
    var p := s.publishers[who].phase;
    if p.KeyKnown? {
      assert AdvanceOne(s, who).publishers[who].phase.Refused? || AdvanceOne(s, who).publishers[who].phase == Replayed(p.number);
    } else if p.Committed? {
      assert AdvanceOne(s, who).publishers[who].phase == Recorded(p.number);
    } else {
      assert AdvanceOne(s, who) == s;
    }
  }

  lemma LookAnswers(s: System, who: nat)
    requires who in s.publishers
    requires var p := s.publishers[who].phase; p.Arrived? || p.KeyUnknown? || p.Read? || p.HashClear?
    ensures AnswerStep(s, AdvanceOne(s, who), who)
  {
  }

  lemma EveryStepAnswers(s: System, who: nat)
    requires who in s.publishers
    ensures AnswerStep(s, AdvanceOne(s, who), who)
  {
    match s.publishers[who].phase
    case Checked(_, _) => StoreAnswers(s, who);
    case Stored(_, _) => KeyAnswers(s, who);
    case Ready(_, _) => CommitAnswers(s, who);
    case Arrived => LookAnswers(s, who);
    case KeyUnknown(_, _) => LookAnswers(s, who);
    case Read(_) => LookAnswers(s, who);
    case HashClear(_) => LookAnswers(s, who);
    case _ => EndAnswers(s, who);
  }

  lemma AnswerStepKeepsResults(s: System, s': System, who: nat, start: map<string, Remembered>)
    requires who in s.publishers && AnswerStep(s, s', who) && ResultsTrue(s, start)
    ensures RecordsStay(s, s') && ResultsTrue(s', start)
  {
    var (r, p) := (s.publishers[who].request, s.publishers[who].phase);
    forall k | k in s'.results
      ensures (k in start && s'.results[k] == start[k]) || RecordedBy(s', k, s'.results[k].capsuleId, s'.results[k].version)
    {
      if p.Committed? && k == r.key {
        assert RecordedUnder(s'.publishers[who], k, r.id, p.number);
      } else if !(k in start && s.results[k] == start[k]) {
        StaysRecorded(s, s', k, s.results[k].capsuleId, s.results[k].version);
      }
    }
  }

  lemma AnswerStepKeepsReplays(s: System, s': System, who: nat, start: map<string, Remembered>)
    requires who in s.publishers && AnswerStep(s, s', who) && RecordsStay(s, s') && ResultsTrue(s, start) && ReplaysTrue(s, start)
    ensures ReplaysTrue(s', start)
  {
    forall other | other in s'.publishers && Replaying(s'.publishers[other].phase)
      ensures FromKey(s', start, s'.publishers[other])
    {
      var b, b' := s.publishers[other], s'.publishers[other];
      if Replaying(b.phase) && b'.phase.number == b.phase.number {
        StaysFromKey(s, s', start, b);
      } else {
        var key := b'.request.key;
        if !(key in start && s.results[key] == start[key]) {
          StaysRecorded(s, s', key, s.results[key].capsuleId, s.results[key].version);
        }
      }
    }
  }

  lemma OthersAnswerNothing(s: System, a: Action)
    requires a.Advance? ==> a.who !in s.publishers
    ensures Step(s, a).results == s.results && Step(s, a).publishers == s.publishers
  {
  }

  lemma SameAnswers(s: System, s': System, start: map<string, Remembered>)
    requires ResultsTrue(s, start) && ReplaysTrue(s, start) && s'.results == s.results && s'.publishers == s.publishers
    ensures ResultsTrue(s', start) && ReplaysTrue(s', start)
  {
    assert RecordsStay(s, s');
    forall k | k in s'.results
      ensures (k in start && s'.results[k] == start[k]) || RecordedBy(s', k, s'.results[k].capsuleId, s'.results[k].version)
    {
      if !(k in start && s.results[k] == start[k]) {
        StaysRecorded(s, s', k, s.results[k].capsuleId, s.results[k].version);
      }
    }
    forall who | who in s'.publishers && Replaying(s'.publishers[who].phase)
      ensures FromKey(s', start, s'.publishers[who])
    {
      StaysFromKey(s, s', start, s.publishers[who]);
    }
  }

  lemma StepKeepsAnswers(s: System, a: Action, start: map<string, Remembered>)
    requires ResultsTrue(s, start) && ReplaysTrue(s, start)
    ensures ResultsTrue(Step(s, a), start) && ReplaysTrue(Step(s, a), start)
  {
    var s' := Step(s, a);
    if a.Advance? && a.who in s.publishers {
      EveryStepAnswers(s, a.who);
      AnswerStepKeepsResults(s, s', a.who, start);
      AnswerStepKeepsReplays(s, s', a.who, start);
    } else {
      OthersAnswerNothing(s, a);
      SameAnswers(s, s', start);
    }
  }

  lemma {:induction false} RunKeepsAnswers(s: System, schedule: seq<Action>)
    requires Initial(s)
    ensures ResultsTrue(Run(s, schedule), s.results) && ReplaysTrue(Run(s, schedule), s.results)
  {
    if schedule != [] {
      RunKeepsAnswers(s, schedule[..|schedule| - 1]);
      StepKeepsAnswers(Run(s, schedule[..|schedule| - 1]), schedule[|schedule| - 1], s.results);
    }
  }

  /** Version `n` of the capsule was committed by a publisher that used the key. */
  ghost predicate CommittedUnder(s: System, key: string, id: string, n: nat) {
    (id, n) in s.ledger && var who := s.ledger[(id, n)].0; who in s.publishers && s.publishers[who].request.key == key && s.publishers[who].request.id == id
  }

  lemma RecordedIsCommitted(s: System, schedule: seq<Action>, key: string, id: string, n: nat)
    requires Initial(s) && NeverCreated(schedule, id) && RecordedBy(Run(s, schedule), key, id, n)
    ensures CommittedUnder(Run(s, schedule), key, id, n)
  {
    var end := Run(s, schedule);
    InitialInOrder(s, id);
    RunKeepsOrder(s, schedule, id);
    var who :| who in end.publishers && RecordedUnder(end.publishers[who], key, id, n);
    assert SuccessesInLedger(end, id);
  }

  /**
   * In every interleaving at all, a result that was not there at the start was recorded by a
   * publisher with that key and names its capsule and the number it committed; while no create
   * takes the id, that version is in the ledger as that publisher's.
   */
  lemma NewResultsAreCommitted(s: System, schedule: seq<Action>, key: string)
    requires Initial(s) && key !in s.results && key in Run(s, schedule).results
    ensures var end := Run(s, schedule);
      var (id, n) := (end.results[key].capsuleId, end.results[key].version);
      && RecordedBy(end, key, id, n)
      && (NeverCreated(schedule, id) ==> CommittedUnder(end, key, id, n))
  {
    RunKeepsAnswers(s, schedule);
    var end := Run(s, schedule);
    var (id, n) := (end.results[key].capsuleId, end.results[key].version);
    if NeverCreated(schedule, id) {
      RecordedIsCommitted(s, schedule, key, id, n);
    }
  }

  /** Every replay goes by the number of a result that was there at the start or that a publisher with its key committed and recorded. */
  lemma ReplaysGoByTheKey(s: System, schedule: seq<Action>, who: nat)
    requires Initial(s) && who in Run(s, schedule).publishers && Replaying(Run(s, schedule).publishers[who].phase)
    ensures FromKey(Run(s, schedule), s.results, Run(s, schedule).publishers[who])
  {
    RunKeepsAnswers(s, schedule);
  }

  /** Nothing happens any more to a publisher that has its answer. */
  predicate Answered(p: Phase) {
    p.Recorded? || p.Replayed? || p.Refused?
  }

  lemma AnsweredOnce(s: System, who: nat)
    requires who in s.publishers && Answered(s.publishers[who].phase)
    ensures AdvanceOne(s, who) == s
  {
  }

  lemma {:induction false} AnsweredStays(s: System, who: nat, n: nat)
    requires who in s.publishers && Answered(s.publishers[who].phase)
    ensures Run(s, GoOn(who, n)) == s
    decreases n
  {
    if n == 0 {
      GoOnNot(s, who);
    } else {
      AnsweredOnce(s, who);
      GoOnStep(s, who, n);
      AnsweredStays(s, who, n - 1);
    }
  }

  /** The publisher's end says what the service's answer says. */
  predicate SaysSame(r: NewVersion, p: Phase, o: Outcome<Receipt>) {
    match p
    case Recorded(n) => o == Ok(Receipt(r.id, n, Some(Version(r.tenant, r.hash, r.actor)), true))
    case Replayed(n) => o.Ok? && !o.value.created && o.value.id == r.id && o.value.number == n
    case Refused => o.Err?
    case _ => false
  }

  /** After `n` steps alone the publisher has the service's answer, and the registry is as the service leaves it. */
  ghost predicate EndsAsService(s: System, who: nat, n: nat, w: World, o: Outcome<Receipt>)
    requires who in s.publishers
  {
    var end := Run(s, GoOn(who, n));
    && WorldOf(end) == w && who in end.publishers && SaysSame(s.publishers[who].request, end.publishers[who].phase, o)
  }

  lemma EndedAsService(s: System, who: nat, n: nat, w: World, o: Outcome<Receipt>)
    requires who in s.publishers && Answered(s.publishers[who].phase)
    requires WorldOf(s) == w && SaysSame(s.publishers[who].request, s.publishers[who].phase, o)
    ensures EndsAsService(s, who, n, w, o)
  {
    AnsweredStays(s, who, n);
  }

  lemma OneStepFirst(s: System, who: nat, n: nat, s': System, w: World, o: Outcome<Receipt>)
    requires n > 0 && who in s.publishers && s' == AdvanceOne(s, who) && who in s'.publishers
    requires s'.publishers[who].request == s.publishers[who].request && EndsAsService(s', who, n - 1, w, o)
    ensures EndsAsService(s, who, n, w, o)
  {
    GoOnStep(s, who, n);
  }

  /** The repository's answer as the service passes it on, with the files as they are. */
  function Passed(s: System, r: NewVersion): (World, Outcome<Receipt>) {
    var (store, o) := PublishVersionOf(Store(s.db, s.results), r);
    (World(store, s.files), Dereference(o))
  }

  /** The publisher has loaded what is there, and its key is unknown. */
  predicate UpToDate(s: System, who: nat) {
    && who in s.publishers
    && var r := s.publishers[who].request; r.key !in s.results && FindCapsule(s.db, r.tenant, r.id).Some?
  }

  lemma FromCommitted(s: System, who: nat, n: nat, w: World, o: Outcome<Receipt>)
    requires n >= 1 && who in s.publishers && s.publishers[who].phase.Committed?
    requires var (r, number) := (s.publishers[who].request, s.publishers[who].phase.number);
      && w == World(Store(s.db, s.results[r.key := Remembered(r.id, number)]), s.files)
      && o == Ok(Receipt(r.id, number, Some(Version(r.tenant, r.hash, r.actor)), true))
    ensures EndsAsService(s, who, n, w, o)
  {
    var s' := AdvanceOne(s, who);
    EndedAsService(s', who, n - 1, w, o);
    OneStepFirst(s, who, n, s', w, o);
  }

  lemma ReadyResult(s: System, who: nat)
    requires UpToDate(s, who) && NumberedAt(s.db, s.publishers[who].request.id)
    requires var r := s.publishers[who].request;
      && s.db.capsules[r.id].status == Active && !HashPublished(s.db, r.tenant, r.id, r.hash)
      && s.publishers[who].phase == Ready(s.db.capsules[r.id].latestVersion, (r.tenant, r.hash) !in s.db.blobs)
    ensures var r := s.publishers[who].request;
      if BlobRefused(s.db, r.tenant, r.hash, r.text)
      then AdvanceOne(s, who) == Moved(s, who, Refused) && Passed(s, r) == (WorldOf(s), Err(IntegrityFailure))
      else
        && AdvanceOne(s, who) == AfterCommit(s, who)
        && Passed(s, r) == (World(Store(Published(s.db, r), s.results[r.key := Remembered(r.id, s.db.capsules[r.id].latestVersion + 1)]), s.files),
                            Ok(Receipt(r.id, s.db.capsules[r.id].latestVersion + 1, Some(Version(r.tenant, r.hash, r.actor)), true)))
  {
    PublishCommits(s.db, s.publishers[who].request);
  }

  lemma FromReady(s: System, who: nat, n: nat)
    requires n >= 2 && UpToDate(s, who) && NumberedAt(s.db, s.publishers[who].request.id)
    requires var r := s.publishers[who].request;
      && s.db.capsules[r.id].status == Active && !HashPublished(s.db, r.tenant, r.id, r.hash)
      && s.publishers[who].phase == Ready(s.db.capsules[r.id].latestVersion, (r.tenant, r.hash) !in s.db.blobs)
    ensures var (w, o) := Passed(s, s.publishers[who].request); EndsAsService(s, who, n, w, o)
  {
    var r := s.publishers[who].request;
    var (w, o) := Passed(s, r);
    var s' := AdvanceOne(s, who);
    ReadyResult(s, who);
    if BlobRefused(s.db, r.tenant, r.hash, r.text) {
      EndedAsService(s', who, n - 1, w, o);
    } else {
      FromCommitted(s', who, n - 1, w, o);
    }
    OneStepFirst(s, who, n, s', w, o);
  }

  lemma FromHashClear(s: System, who: nat, n: nat)
    requires n >= 3 && UpToDate(s, who) && NumberedAt(s.db, s.publishers[who].request.id)
    requires var r := s.publishers[who].request;
      && s.db.capsules[r.id].status == Active && !HashPublished(s.db, r.tenant, r.id, r.hash)
      && s.publishers[who].phase == HashClear(s.db.capsules[r.id].latestVersion)
    ensures var (w, o) := Passed(s, s.publishers[who].request); EndsAsService(s, who, n, w, o)
  {
    var r := s.publishers[who].request;
    var (w, o) := Passed(s, r);
    var s' := Moved(s, who, Ready(s.db.capsules[r.id].latestVersion, (r.tenant, r.hash) !in s.db.blobs));
    assert AdvanceOne(s, who) == s';
    FromReady(s', who, n - 1);
    OneStepFirst(s, who, n, s', w, o);
  }

  lemma FromRead(s: System, who: nat, n: nat)
    requires n >= 4 && UpToDate(s, who) && NumberedAt(s.db, s.publishers[who].request.id)
    requires var r := s.publishers[who].request;
      s.db.capsules[r.id].status == Active && s.publishers[who].phase == Read(s.db.capsules[r.id].latestVersion)
    ensures var (w, o) := Passed(s, s.publishers[who].request); EndsAsService(s, who, n, w, o)
  {
    var r := s.publishers[who].request;
    var (w, o) := Passed(s, r);
    if HashPublished(s.db, r.tenant, r.id, r.hash) {
      var s' := Moved(s, who, Refused);
      assert AdvanceOne(s, who) == s';
      EndedAsService(s', who, n - 1, w, o);
      OneStepFirst(s, who, n, s', w, o);
    } else {
      var s' := Moved(s, who, HashClear(s.db.capsules[r.id].latestVersion));
      assert AdvanceOne(s, who) == s';
      FromHashClear(s', who, n - 1);
      OneStepFirst(s, who, n, s', w, o);
    }
  }

  lemma FromKeyUnknown(s: System, who: nat, n: nat)
    requires n >= 5 && UpToDate(s, who) && NumberedAt(s.db, s.publishers[who].request.id)
    requires var c := s.db.capsules[s.publishers[who].request.id]; s.publishers[who].phase == KeyUnknown(c.latestVersion, c.status)
    ensures var (w, o) := Passed(s, s.publishers[who].request); EndsAsService(s, who, n, w, o)
  {
    var r := s.publishers[who].request;
    var (w, o) := Passed(s, r);
    if s.db.capsules[r.id].status == Deleted {
      var s' := Moved(s, who, Refused);
      assert AdvanceOne(s, who) == s';
      EndedAsService(s', who, n - 1, w, o);
      OneStepFirst(s, who, n, s', w, o);
    } else {
      var s' := Moved(s, who, Read(s.db.capsules[r.id].latestVersion));
      assert AdvanceOne(s, who) == s';
      FromRead(s', who, n - 1);
      OneStepFirst(s, who, n, s', w, o);
    }
  }

  lemma FromKeyKnown(s: System, who: nat, n: nat)
    requires n >= 1 && who in s.publishers
    requires var r := s.publishers[who].request; r.key in s.results && s.publishers[who].phase == KeyKnown(s.results[r.key].version)
    ensures var (w, o) := Passed(s, s.publishers[who].request); EndsAsService(s, who, n, w, o)
  {
    var r := s.publishers[who].request;
    var (w, o) := Passed(s, r);
    var s' := AdvanceOne(s, who);
    assert s' == Moved(s, who, if FindVersion(s.db, r.tenant, r.id, s.results[r.key].version).None? then Refused else Replayed(s.results[r.key].version));
    EndedAsService(s', who, n - 1, w, o);
    OneStepFirst(s, who, n, s', w, o);
  }

  lemma FromStored(s: System, who: nat, n: nat)
    requires n >= 6 && who in s.publishers && NumberedAt(s.db, s.publishers[who].request.id)
    requires var r := s.publishers[who].request;
      && FindCapsule(s.db, r.tenant, r.id).Some?
      && s.publishers[who].phase == Stored(s.db.capsules[r.id].latestVersion, s.db.capsules[r.id].status)
    ensures var (w, o) := Passed(s, s.publishers[who].request); EndsAsService(s, who, n, w, o)
  {
    var r := s.publishers[who].request;
    var (w, o) := Passed(s, r);
    if r.key in s.results {
      var s' := Moved(s, who, KeyKnown(s.results[r.key].version));
      assert AdvanceOne(s, who) == s';
      FromKeyKnown(s', who, n - 1);
      OneStepFirst(s, who, n, s', w, o);
    } else {
      var s' := Moved(s, who, KeyUnknown(s.db.capsules[r.id].latestVersion, s.db.capsules[r.id].status));
      assert AdvanceOne(s, who) == s';
      FromKeyUnknown(s', who, n - 1);
      OneStepFirst(s, who, n, s', w, o);
    }
  }

  /** The service's answer from its write to the write-once store on. */
  function StoredAndPassed(s: System, r: NewVersion): (World, Outcome<Receipt>) {
    var (files, stored) := WormStore.Store(s.files, r.tenant, r.hash, r.text);
    if !stored then (WorldOf(s), Err(StorageFailure)) else Passed(s.(files := files), r)
  }

  lemma FromChecked(s: System, who: nat, n: nat)
    requires n >= 7 && who in s.publishers && NumberedAt(s.db, s.publishers[who].request.id)
    requires var r := s.publishers[who].request;
      && FindCapsule(s.db, r.tenant, r.id).Some?
      && s.publishers[who].phase == Checked(s.db.capsules[r.id].latestVersion, s.db.capsules[r.id].status)
    ensures var (w, o) := StoredAndPassed(s, s.publishers[who].request); EndsAsService(s, who, n, w, o)
  {
    var r := s.publishers[who].request;
    var (w, o) := StoredAndPassed(s, r);
    var (files, stored) := WormStore.Store(s.files, r.tenant, r.hash, r.text);
    if stored {
      var s' := Moved(s, who, Stored(s.db.capsules[r.id].latestVersion, s.db.capsules[r.id].status)).(files := files);
      assert AdvanceOne(s, who) == s';
      FromStored(s', who, n - 1);
      OneStepFirst(s, who, n, s', w, o);
    } else {
      var s' := Moved(s, who, Refused);
      assert AdvanceOne(s, who) == s';
      EndedAsService(s', who, n - 1, w, o);
      OneStepFirst(s, who, n, s', w, o);
    }
  }

  /** The service's answer to a request whose caller and text are in order. */
  function Served(s: System, r: NewVersion): (World, Outcome<Receipt>) {
    var c := FindCapsule(s.db, r.tenant, r.id);
    if c.None? then (WorldOf(s), Err(NotFound))
    else if c.value.latestVersion >= s.limit then (WorldOf(s), Err(Conflict))
    else StoredAndPassed(s, r)
  }

  lemma FromArrived(s: System, who: nat, n: nat)
    requires n >= 8 && who in s.publishers && NumberedAt(s.db, s.publishers[who].request.id) && s.publishers[who].phase.Arrived?
    ensures var (w, o) := Served(s, s.publishers[who].request); EndsAsService(s, who, n, w, o)
  {
    var r := s.publishers[who].request;
    var (w, o) := Served(s, r);
    var c := FindCapsule(s.db, r.tenant, r.id);
    if c.None? || c.value.latestVersion >= s.limit {
      var s' := Moved(s, who, Refused);
      assert AdvanceOne(s, who) == s';
      EndedAsService(s', who, n - 1, w, o);
      OneStepFirst(s, who, n, s', w, o);
    } else {
      var s' := Moved(s, who, Checked(c.value.latestVersion, c.value.status));
      assert AdvanceOne(s, who) == s';
      FromChecked(s', who, n - 1);
      OneStepFirst(s, who, n, s', w, o);
    }
  }

  lemma ServedIsPublish(s: System, cfg: Config, ctx: Context, q: PublishRequest)
    requires cfg.maxVersions == s.limit && PublishVersions in ctx.permissions && Admit(cfg, q.text).Ok?
    ensures Served(s, NewVersionOf(ctx, q, Admit(cfg, q.text).value)) == Publish(cfg, WorldOf(s), ctx, q)
  {
  }

  /**
   * A publisher left alone, from its arrival on, ends with the registry and the answer that the
   * service's publish gives: the same tables, idempotency results, files and version number.
   */
  lemma AloneAsTheService(s: System, who: nat, cfg: Config, ctx: Context, q: PublishRequest)
    requires Initial(s) && who in s.publishers && cfg.maxVersions == s.limit
    requires PublishVersions in ctx.permissions && Admit(cfg, q.text).Ok?
    requires s.publishers[who].request == NewVersionOf(ctx, q, Admit(cfg, q.text).value)
    ensures var (w, o) := Publish(cfg, WorldOf(s), ctx, q); EndsAsService(s, who, 8, w, o)
  {
    CapsuleFacts(s.db, q.id);
    FromArrived(s, who, 8);
    ServedIsPublish(s, cfg, ctx, q);
  }
}
