/** When the tables stay consistent over a whole interleaving, and what that asks of the commits in it. */
module CommitOrder {
  import opened RegistryModels
  import opened CapsuleRepository
  import opened Publishing
  import opened CapsuleHistories
  import opened TakenIds

  predicate BlobKnown(db: Db, b: Publisher) {
    b.phase.Ready? && !b.phase.newBlob ==> (b.request.tenant, b.request.hash) in db.blobs
  }

  /** A publisher that found its blob finds it again. */
  ghost predicate BlobsKnown(s: System) {
    forall who :: who in s.publishers ==> BlobKnown(s.db, s.publishers[who])
  }

  /** No action removes or changes a blob. */
  ghost predicate BlobsKept(db: Db, db': Db) {
    forall k :: k in db.blobs ==> k in db'.blobs && db'.blobs[k] == db.blobs[k]
  }

  lemma CommitKeepsBlobs(s: System, who: nat)
    requires who in s.publishers && s.publishers[who].phase.Ready?
    ensures var s' := AdvanceOne(s, who);
      && BlobsKept(s.db, s'.db) && who in s'.publishers && Over(s'.publishers[who].phase)
      && s'.publishers == s.publishers[who := Publisher(s.publishers[who].request, s'.publishers[who].phase)]
  {
    var (r, p) := (s.publishers[who].request, s.publishers[who].phase);
    PublishRowsApply(s.db, r, p.latest + 1, p.newBlob);
  }

  lemma StepKeepsBlobs(s: System, a: Action)
    ensures BlobsKept(s.db, Step(s, a).db)
  {
    match a
    case Advance(who) =>
      if who in s.publishers {
        if s.publishers[who].phase.Ready? {
          CommitKeepsBlobs(s, who);
        } else {
          NoCommit(s, who);
        }
      }
    case ChangeStatus(id, status, actor, etag) => StatusStep(s, id, status, actor, etag);
    case CreateNew(c) => CreateEffect(s, c);
    case Delete(id, actor) => DeleteStep(s, id, actor);
  }

  lemma LookIsNotReady(s: System, who: nat)
    requires who in s.publishers && !s.publishers[who].phase.Ready? && !s.publishers[who].phase.HashClear?
    ensures who in AdvanceOne(s, who).publishers && !AdvanceOne(s, who).publishers[who].phase.Ready?
  {
  }

  lemma LookKnowsBlob(s: System, who: nat)
    requires who in s.publishers && !s.publishers[who].phase.Ready?
    ensures who in AdvanceOne(s, who).publishers && BlobKnown(s.db, AdvanceOne(s, who).publishers[who])
  {
    NoCommit(s, who);
    var (r, p) := (s.publishers[who].request, s.publishers[who].phase);
    if p.HashClear? {
      assert AdvanceOne(s, who) == Moved(s, who, Ready(p.latest, (r.tenant, r.hash) !in s.db.blobs));
    } else {
      LookIsNotReady(s, who);
    }
  }

  lemma OnlyAdvancesMove(s: System, a: Action)
    requires a.Advance? ==> a.who !in s.publishers
    ensures Step(s, a).publishers == s.publishers
  {
  }

  lemma StepKeepsKnown(s: System, a: Action)
    requires BlobsKnown(s)
    ensures BlobsKnown(Step(s, a))
  {
    StepKeepsBlobs(s, a);
    if a.Advance? && a.who in s.publishers {
      if s.publishers[a.who].phase.Ready? {
        CommitKeepsBlobs(s, a.who);
      } else {
        NoCommit(s, a.who);
        LookKnowsBlob(s, a.who);
      }
    } else {
      OnlyAdvancesMove(s, a);
    }
  }

  /** The tables after a publisher's rows were committed or refused. */
  function Attempted(db: Db, r: NewVersion, p: Phase): Db
    requires p.Ready?
  {
    var o := ApplyAll(db, PublishRows(r, p.latest + 1, p.newBlob));
    if o.Some? then o.value else db
  }

  /** Whether a publisher's rows can go in. */
  predicate GoIn(db: Db, r: NewVersion, p: Phase)
    requires p.Ready?
  {
    ApplyAll(db, PublishRows(r, p.latest + 1, p.newBlob)).Some?
  }

  /** If the rows go in, what the publisher has read still holds. */
  ghost predicate RowsHold(db: Db, r: NewVersion, p: Phase)
    requires p.Ready?
  {
    GoIn(db, r, p) ==> r.id in db.capsules && ReadStillHolds(db, r, p.latest)
  }

  /** If the action is a commit that goes through, what its publisher has read still holds. */
  ghost predicate CommitHolds(s: System, a: Action) {
    a.Advance? && a.who in s.publishers && s.publishers[a.who].phase.Ready? ==>
      RowsHold(s.db, s.publishers[a.who].request, s.publishers[a.who].phase)
  }

  lemma AttemptedTables(db: Db, r: NewVersion, p: Phase)
    requires p.Ready? && (!p.newBlob ==> (r.tenant, r.hash) in db.blobs)
    ensures GoIn(db, r, p) ==> r.id in db.capsules && (r.id, p.latest + 1) !in db.versions && !BlobRefused(db, r.tenant, r.hash, r.text)
    ensures Attempted(db, r, p) == if GoIn(db, r, p) then Appended(db, r, p.latest + 1) else db
  {
    PublishRowsApply(db, r, p.latest + 1, p.newBlob);
  }

  lemma AppliedIff(db: Db, r: NewVersion, p: Phase)
    requires Consistent(db) && p.Ready? && (!p.newBlob ==> (r.tenant, r.hash) in db.blobs)
    ensures Consistent(Attempted(db, r, p)) <==> RowsHold(db, r, p)
  {
    AttemptedTables(db, r, p);
    if GoIn(db, r, p) {
      CommitConsistentIff(db, r, p.latest);
    }
  }

  lemma CommitTables(s: System, who: nat)
    requires who in s.publishers && s.publishers[who].phase.Ready?
    ensures AdvanceOne(s, who).db == Attempted(s.db, s.publishers[who].request, s.publishers[who].phase)
  {
  }

  lemma CommitStepIff(s: System, who: nat)
    requires Consistent(s.db) && who in s.publishers && s.publishers[who].phase.Ready? && BlobKnown(s.db, s.publishers[who])
    ensures Consistent(AdvanceOne(s, who).db) <==> CommitHolds(s, Advance(who))
  {
    AppliedIff(s.db, s.publishers[who].request, s.publishers[who].phase);
    CommitTables(s, who);
  }

  lemma OtherStepsConsistent(s: System, a: Action)
    requires Consistent(s.db) && (a.Advance? && a.who in s.publishers ==> !s.publishers[a.who].phase.Ready?)
    ensures Consistent(Step(s, a).db)
  {
    match a
    case Advance(who) => if who in s.publishers { NoCommit(s, who); }
    case ChangeStatus(id, status, actor, etag) =>
      StatusStep(s, id, status, actor, etag);
      if id in s.db.capsules { StatusSetIsConsistent(s.db, id, status, actor, etag); }
    case CreateNew(c) =>
      assert VersionsNumbered(s.db);
      CreateStep(s, c);
      if GoesThrough(s, c) { CreatedIsConsistent(s.db, c); }
    case Delete(id, actor) =>
      DeleteStep(s, id, actor);
      DeleteKeepsConsistent(s.db, id);
  }

  /** One action keeps consistent tables consistent exactly when it is not a commit whose publisher has read what no longer holds. */
  lemma StepConsistentIff(s: System, a: Action)
    requires Consistent(s.db) && BlobsKnown(s)
    ensures Consistent(Step(s, a).db) <==> CommitHolds(s, a)
  {
    if a.Advance? && a.who in s.publishers && s.publishers[a.who].phase.Ready? {
      assert BlobKnown(s.db, s.publishers[a.who]);
      CommitStepIff(s, a.who);
    } else {
      OtherStepsConsistent(s, a);
    }
  }

  ghost predicate AlwaysConsistent(s: System, schedule: seq<Action>) {
    forall k :: 0 <= k <= |schedule| ==> Consistent(Run(s, schedule[..k]).db)
  }

  ghost predicate AllCommitsHold(s: System, schedule: seq<Action>) {
    forall k :: 0 <= k < |schedule| ==> CommitHolds(Run(s, schedule[..k]), schedule[k])
  }

  lemma {:induction false} RunKeepsKnown(s: System, schedule: seq<Action>)
    requires BlobsKnown(s)
    ensures BlobsKnown(Run(s, schedule))
  {
    if schedule != [] {
      RunKeepsKnown(s, schedule[..|schedule| - 1]);
      StepKeepsKnown(Run(s, schedule[..|schedule| - 1]), schedule[|schedule| - 1]);
    }
  }

  lemma RunPrefix(s: System, schedule: seq<Action>, k: nat)
    requires k < |schedule|
    ensures Run(s, schedule[..k + 1]) == Step(Run(s, schedule[..k]), schedule[k])
  {
    assert schedule[..k + 1][..k] == schedule[..k];
  }

  lemma {:induction false} PrefixConsistent(s: System, schedule: seq<Action>, k: nat)
    requires Consistent(s.db) && BlobsKnown(s) && AllCommitsHold(s, schedule) && k <= |schedule|
    ensures Consistent(Run(s, schedule[..k]).db)
  {
    if k == 0 {
      assert schedule[..0] == [];
    } else {
      PrefixConsistent(s, schedule, k - 1);
      RunKeepsKnown(s, schedule[..k - 1]);
      RunPrefix(s, schedule, k - 1);
      assert CommitHolds(Run(s, schedule[..k - 1]), schedule[k - 1]);
      StepConsistentIff(Run(s, schedule[..k - 1]), schedule[k - 1]);
    }
  }

  /**
   * In any interleaving, take-overs of ids in flight included, the tables are consistent all the
   * way exactly when every commit that goes through finds what its publisher had read: the
   * capsule is the tenant's, at the version read, and without the content.
   */
  lemma ConsistentIff(s: System, schedule: seq<Action>)
    requires Initial(s)
    ensures AlwaysConsistent(s, schedule) <==> AllCommitsHold(s, schedule)
  {
    assert BlobsKnown(s);
    if AlwaysConsistent(s, schedule) {
      forall k | 0 <= k < |schedule|
        ensures CommitHolds(Run(s, schedule[..k]), schedule[k])
      {
        RunKeepsKnown(s, schedule[..k]);
        RunPrefix(s, schedule, k);
        assert Consistent(Run(s, schedule[..k + 1]).db);
        StepConsistentIff(Run(s, schedule[..k]), schedule[k]);
      }
    }
    if AllCommitsHold(s, schedule) {
      forall k | 0 <= k <= |schedule|
        ensures Consistent(Run(s, schedule[..k]).db)
      {
        PrefixConsistent(s, schedule, k);
      }
    }
  }
}
