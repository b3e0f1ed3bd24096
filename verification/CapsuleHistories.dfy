/**
 * One capsule under all interleavings. Whatever happens to other capsules, incompatible take-overs
 * included, the rows of a capsule whose id no create takes stay in order.
 */
module CapsuleHistories {
  import opened Wrappers
  import opened RegistryModels
  import opened CapsuleRepository
  import opened Publishing
  import WormStore

  predicate Succeeded(p: Phase) {
    p.Committed? || p.Recorded?
  }

  /** The ledger of one capsule: while that is live its entries are versions, and their hashes are distinct. */
  ghost predicate LedgerFits(db: Db, ledger: map<(string, nat), (nat, string)>, id: string) {
    && (forall n: nat :: (id, n) in ledger && id in db.capsules ==> (id, n) in db.versions && db.versions[(id, n)].hash == ledger[(id, n)].1)
    && (forall m: nat, n: nat :: (id, m) in ledger && (id, n) in ledger && m != n ==> ledger[(id, m)].1 != ledger[(id, n)].1)
  }

  /** Every publisher of the capsule that succeeded is in the ledger. */
  ghost predicate SuccessesInLedger(s: System, id: string) {
    forall who :: who in s.publishers && s.publishers[who].request.id == id && Succeeded(s.publishers[who].phase) ==>
      var k := (id, s.publishers[who].phase.number);
      k in s.ledger && s.ledger[k] == (who, s.publishers[who].request.hash)
  }

  ghost predicate HashesAt(db: Db, id: string) {
    forall m: nat, n: nat :: (id, m) in db.versions && (id, n) in db.versions && m != n
      ==> db.versions[(id, m)].hash != db.versions[(id, n)].hash
  }

  /** Its versions are exactly 1 to the latest, of its tenant, with distinct contents. */
  ghost predicate RowsInOrder(db: Db, id: string) {
    NumberedAt(db, id) && TenantAt(db, id) && HashesAt(db, id)
  }

  /** What the publishers of the capsule have read still holds. */
  ghost predicate PublishersInformed(s: System, id: string) {
    forall who :: who in s.publishers && s.publishers[who].request.id == id && InFlight(s.publishers[who].phase) ==>
      StillTrue(s.db, s.publishers[who].request, s.publishers[who].phase)
  }

  ghost predicate InOrderAt(s: System, id: string) {
    RowsInOrder(s.db, id) && PublishersInformed(s, id) && LedgerFits(s.db, s.ledger, id) && SuccessesInLedger(s, id)
  }

  lemma InitialInOrder(s: System, id: string)
    requires Initial(s)
    ensures InOrderAt(s, id)
  {
  }

  /** The capsule's rows are the same but for its status and etag, or all gone; blobs are only added. */
  ghost predicate Untouched(db: Db, db': Db, id: string) {
    && (forall k :: k in db.blobs ==> k in db'.blobs)
    && (if id in db'.capsules
        then id in db.capsules && db'.capsules[id].tenant == db.capsules[id].tenant && db'.capsules[id].latestVersion == db.capsules[id].latestVersion
             && forall n: nat :: ((id, n) in db'.versions <==> (id, n) in db.versions)
                                 && ((id, n) in db.versions ==> db'.versions[(id, n)] == db.versions[(id, n)])
        else forall n: nat :: (id, n) !in db'.versions)
  }

  /** A change of the tables that leaves the capsule alone. */
  lemma UntouchedKeeps(s: System, db': Db, files': WormStore.Files, id: string)
    requires InOrderAt(s, id) && Untouched(s.db, db', id)
    ensures InOrderAt(s.(db := db', files := files'), id)
    ensures Later(s.db, db', id)
  {
    forall who | who in s.publishers && s.publishers[who].request.id == id && InFlight(s.publishers[who].phase)
      ensures StillTrue(db', s.publishers[who].request, s.publishers[who].phase)
    {
      LaterStillTrue(s.db, db', s.publishers[who].request, s.publishers[who].phase);
    }
  }

  /** A step other than a commit leaves tables and ledger alone and makes no publisher succeed. */
  ghost predicate NoSuccess(s: System, s': System, who: nat)
    requires who in s.publishers
  {
    && s'.db == s.db && s'.ledger == s.ledger && who in s'.publishers
    && s'.publishers == s.publishers[who := Publisher(s.publishers[who].request, s'.publishers[who].phase)]
    && (Succeeded(s'.publishers[who].phase) ==>
          Succeeded(s.publishers[who].phase) && s'.publishers[who].phase.number == s.publishers[who].phase.number)
  }

  lemma LookingIsNoSuccess(s: System, who: nat)
    requires who in s.publishers && !Over(s.publishers[who].phase) && !s.publishers[who].phase.Ready?
    ensures NoSuccess(s, AdvanceOne(s, who), who)
  {
    var phase := AdvanceOne(s, who).publishers[who].phase;
    match s.publishers[who].phase
    case Arrived => assert !Succeeded(phase);
    case Checked(_, _) => assert !Succeeded(phase);
    case Stored(_, _) => assert !Succeeded(phase);
    case KeyUnknown(_, _) => assert !Succeeded(phase);
    case Read(_) => assert !Succeeded(phase);
    case HashClear(_) => assert !Succeeded(phase);
  }

  lemma EndingIsNoSuccess(s: System, who: nat)
    requires who in s.publishers && Over(s.publishers[who].phase)
    ensures NoSuccess(s, AdvanceOne(s, who), who)
  {
  }

  lemma NoCommit(s: System, who: nat)
    requires who in s.publishers && !s.publishers[who].phase.Ready?
    ensures NoSuccess(s, AdvanceOne(s, who), who)
  {
    if Over(s.publishers[who].phase) {
      EndingIsNoSuccess(s, who);
    } else {
      LookingIsNoSuccess(s, who);
    }
  }

  /** A step of a publisher of another capsule. */
  ghost predicate Elsewhere(s: System, s': System, who: nat, id: string)
    requires who in s.publishers
  {
    && Untouched(s.db, s'.db, id) && who in s'.publishers
    && s'.publishers == s.publishers[who := Publisher(s.publishers[who].request, s'.publishers[who].phase)]
    && forall n: nat :: ((id, n) in s'.ledger <==> (id, n) in s.ledger) && ((id, n) in s.ledger ==> s'.ledger[(id, n)] == s.ledger[(id, n)])
  }

  lemma CommitElsewhere(s: System, who: nat, id: string)
    requires who in s.publishers && s.publishers[who].request.id != id && s.publishers[who].phase.Ready? && NumberedAt(s.db, id)
    ensures Elsewhere(s, AdvanceOne(s, who), who, id)
  {
    var (r, p) := (s.publishers[who].request, s.publishers[who].phase);
    PublishRowsApply(s.db, r, p.latest + 1, p.newBlob);
  }

  lemma ElsewhereKeeps(s: System, s': System, who: nat, id: string)
    requires InOrderAt(s, id) && who in s.publishers && s.publishers[who].request.id != id && Elsewhere(s, s', who, id)
    ensures InOrderAt(s', id) && Later(s.db, s'.db, id)
  {
    UntouchedKeeps(s, s'.db, s'.files, id);
  }

  lemma AdvanceElsewhere(s: System, who: nat, id: string)
    requires InOrderAt(s, id) && who in s.publishers && s.publishers[who].request.id != id
    ensures InOrderAt(AdvanceOne(s, who), id) && Later(s.db, AdvanceOne(s, who).db, id)
  {
    if s.publishers[who].phase.Ready? {
      CommitElsewhere(s, who, id);
    } else {
      NoCommit(s, who);
    }
    ElsewhereKeeps(s, AdvanceOne(s, who), who, id);
  }

  lemma StoringInforms(s: System, who: nat)
    requires who in s.publishers && s.publishers[who].phase.Checked?
    requires StillTrue(s.db, s.publishers[who].request, s.publishers[who].phase)
    ensures who in AdvanceOne(s, who).publishers && Informed(s, AdvanceOne(s, who), who)
  {
  }

  /** What a publisher learns by its next step is true. */
  lemma LookingInforms(s: System, who: nat)
    requires who in s.publishers && !s.publishers[who].phase.Ready? && InOrderAt(s, s.publishers[who].request.id)
    ensures who in AdvanceOne(s, who).publishers && Informed(s, AdvanceOne(s, who), who)
  {
    if s.publishers[who].phase.Checked? {
      StoringInforms(s, who);
    } else {
      LookInforms(s, who);
    }
  }

  lemma LookKeepsOrder(s: System, s': System, who: nat, id: string)
    requires InOrderAt(s, id) && who in s.publishers && s.publishers[who].request.id == id && NoSuccess(s, s', who)
    requires Informed(s, s', who)
    ensures InOrderAt(s', id)
  {
  }

  lemma NewEntryFits(db: Db, ledger: map<(string, nat), (nat, string)>, r: NewVersion, who: nat)
    requires NumberedAt(db, r.id) && CanCommit(db, r) && LedgerFits(db, ledger, r.id)
    ensures var k := (r.id, db.capsules[r.id].latestVersion + 1);
      k !in ledger && LedgerFits(Published(db, r), ledger[k := (who, r.hash)], r.id)
  {
    forall n: nat | (r.id, n) in ledger
      ensures (r.id, n) in db.versions && ledger[(r.id, n)].1 != r.hash
    {
      assert (r.id, n).0 == r.id;
    }
  }

  lemma CommitKeepsRows(db: Db, r: NewVersion)
    requires RowsInOrder(db, r.id) && CanCommit(db, r)
    ensures RowsInOrder(Published(db, r), r.id)
  {
    assert forall n: nat :: (r.id, n) in db.versions ==> (r.id, n).0 == r.id;
  }

  lemma CommitKeepsInformed(s: System, who: nat)
    requires who in s.publishers && CanCommit(s.db, s.publishers[who].request)
    requires var id := s.publishers[who].request.id; NumberedAt(s.db, id) && PublishersInformed(s, id)
    ensures PublishersInformed(AfterCommit(s, who), s.publishers[who].request.id)
  {
    var r := s.publishers[who].request;
    PublishedIsLater(s.db, r, r.id);
    forall other | other in s.publishers && other != who && s.publishers[other].request.id == r.id && InFlight(s.publishers[other].phase)
      ensures StillTrue(Published(s.db, r), s.publishers[other].request, s.publishers[other].phase)
    {
      LaterStillTrue(s.db, Published(s.db, r), s.publishers[other].request, s.publishers[other].phase);
    }
  }

  lemma CommitKeepsSuccesses(s: System, who: nat)
    requires who in s.publishers && CanCommit(s.db, s.publishers[who].request)
    requires var id := s.publishers[who].request.id; NumberedAt(s.db, id) && LedgerFits(s.db, s.ledger, id) && SuccessesInLedger(s, id)
    ensures var (s', id) := (AfterCommit(s, who), s.publishers[who].request.id);
      LedgerFits(s'.db, s'.ledger, id) && SuccessesInLedger(s', id)
  {
    NewEntryFits(s.db, s.ledger, s.publishers[who].request, who);
  }

  lemma CommitHere(s: System, who: nat)
    requires who in s.publishers && InOrderAt(s, s.publishers[who].request.id) && s.publishers[who].phase.Ready?
    ensures var (s', id) := (AdvanceOne(s, who), s.publishers[who].request.id); InOrderAt(s', id) && Later(s.db, s'.db, id)
  {
    var r := s.publishers[who].request;
    var success := CommitStep(s, who);
    if success {
      CommitKeepsRows(s.db, r);
      CommitKeepsInformed(s, who);
      CommitKeepsSuccesses(s, who);
      PublishedIsLater(s.db, r, r.id);
    } else {
      LaterItself(s.db, r.id);
    }
  }

  lemma AdvanceKeepsOrder(s: System, who: nat, id: string)
    requires InOrderAt(s, id)
    ensures InOrderAt(AdvanceOne(s, who), id) && Later(s.db, AdvanceOne(s, who).db, id)
  {
    if who !in s.publishers {
      LaterItself(s.db, id);
    } else if s.publishers[who].request.id != id {
      AdvanceElsewhere(s, who, id);
    } else if s.publishers[who].phase.Ready? {
      CommitHere(s, who);
    } else {
      NoCommit(s, who);
      LookingInforms(s, who);
      LookKeepsOrder(s, AdvanceOne(s, who), who, id);
      LaterItself(s.db, id);
    }
  }

  lemma CreateRowsEffect(db: Db, c: NewCapsule)
    ensures var o := ApplyAll(db, CreateRows(db, c)); o.Some? ==> o.value == Created(db, c)
  {
    if c.Id() in db.capsules || (c.Id(), 1) !in db.versions {
      CreateCommits(db, c);
    } else {
      CreateNumberTaken(db, c);
    }
  }

  /** A create that goes through changes rows of its own id and blobs only, whatever state the tables are in. */
  lemma CreateEffect(s: System, c: NewCapsule)
    ensures var s' := Step(s, CreateNew(c));
      && s' == s.(db := s'.db, files := s'.files)
      && (s'.db == s.db || s'.db == Created(s.db, c))
  {
    CreateRowsEffect(s.db, c);
  }

  lemma CreateElsewhere(s: System, c: NewCapsule, id: string)
    requires InOrderAt(s, id) && c.Id() != id
    ensures var s' := Step(s, CreateNew(c)); InOrderAt(s', id) && Later(s.db, s'.db, id)
  {
    var s' := Step(s, CreateNew(c));
    CreateEffect(s, c);
    assert Untouched(s.db, s'.db, id);
    UntouchedKeeps(s, s'.db, s'.files, id);
    assert s' == s.(db := s'.db, files := s'.files);
  }

  lemma StepKeepsOrder(s: System, a: Action, id: string)
    requires InOrderAt(s, id) && (a.CreateNew? ==> a.request.Id() != id)
    ensures InOrderAt(Step(s, a), id) && Later(s.db, Step(s, a).db, id)
  {
    match a
    case Advance(who) => AdvanceKeepsOrder(s, who, id);
    case ChangeStatus(changed, status, actor, etag) =>
      StatusStep(s, changed, status, actor, etag);
      UntouchedKeeps(s, Step(s, a).db, s.files, id);
    case CreateNew(c) => CreateElsewhere(s, c, id);
    case Delete(gone, actor) =>
      DeleteStep(s, gone, actor);
      UntouchedKeeps(s, Step(s, a).db, s.files, id);
  }

  ghost predicate NeverCreated(schedule: seq<Action>, id: string) {
    forall k :: 0 <= k < |schedule| && schedule[k].CreateNew? ==> schedule[k].request.Id() != id
  }

  lemma LaterTransitive(a: Db, b: Db, c: Db, id: string)
    requires Later(a, b, id) && Later(b, c, id)
    ensures Later(a, c, id)
  {
  }

  lemma {:induction false} RunKeepsOrder(s: System, schedule: seq<Action>, id: string)
    requires InOrderAt(s, id) && NeverCreated(schedule, id)
    ensures InOrderAt(Run(s, schedule), id) && Later(s.db, Run(s, schedule).db, id)
  {
    if schedule == [] {
      LaterItself(s.db, id);
    } else {
      var init := schedule[..|schedule| - 1];
      RunKeepsOrder(s, init, id);
      StepKeepsOrder(Run(s, init), schedule[|schedule| - 1], id);
      LaterTransitive(s.db, Run(s, init).db, Run(s, schedule).db, id);
    }
  }

  /**
   * In every interleaving at all, a capsule whose id no create takes keeps its versions numbered 1
   * to the latest, of its tenant and with distinct contents, even while ids of other capsules are
   * taken from publishers in flight.
   */
  lemma EveryCapsuleStaysInOrder(s: System, schedule: seq<Action>, id: string)
    requires Initial(s) && NeverCreated(schedule, id)
    ensures RowsInOrder(Run(s, schedule).db, id)
  {
    InitialInOrder(s, id);
    RunKeepsOrder(s, schedule, id);
  }

  /**
   * Of all publishers of the same content to the same capsule, retries of one request included, at
   * most one ever makes a version, as long as no new capsule takes the id: not even if the capsule
   * is deleted on the way, and whatever happens to other capsules.
   */
  lemma AtMostOnePublisherSucceeds(s: System, schedule: seq<Action>, a: nat, b: nat)
    requires Initial(s) && a != b
    requires var end := Run(s, schedule); a in end.publishers && b in end.publishers
    requires var end := Run(s, schedule);
      && end.publishers[a].request.id == end.publishers[b].request.id
      && end.publishers[a].request.hash == end.publishers[b].request.hash
      && NeverCreated(schedule, end.publishers[a].request.id)
    ensures var end := Run(s, schedule);
      !(Succeeded(end.publishers[a].phase) && Succeeded(end.publishers[b].phase))
  {
    var id := Run(s, schedule).publishers[a].request.id;
    InitialInOrder(s, id);
    RunKeepsOrder(s, schedule, id);
  }

  lemma CommitKeepsRequests(s: System, who: nat)
    requires who in s.publishers && s.publishers[who].phase.Ready?
    ensures var s' := AdvanceOne(s, who);
      who in s'.publishers && s'.publishers == s.publishers[who := Publisher(s.publishers[who].request, s'.publishers[who].phase)]
  {
  }

  lemma StepKeepsRequests(s: System, a: Action, who: nat)
    requires who in s.publishers
    ensures who in Step(s, a).publishers && Step(s, a).publishers[who].request == s.publishers[who].request
  {
    if a.Advance? && a.who in s.publishers {
      if s.publishers[a.who].phase.Ready? {
        CommitKeepsRequests(s, a.who);
      } else {
        NoCommit(s, a.who);
      }
    }
  }

  lemma {:induction false} RunKeepsRequests(s: System, schedule: seq<Action>, who: nat)
    requires who in s.publishers
    ensures who in Run(s, schedule).publishers && Run(s, schedule).publishers[who].request == s.publishers[who].request
  {
    if schedule != [] {
      RunKeepsRequests(s, schedule[..|schedule| - 1], who);
      StepKeepsRequests(Run(s, schedule[..|schedule| - 1]), schedule[|schedule| - 1], who);
    }
  }
}
