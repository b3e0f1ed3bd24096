/** What becomes of the tables when a create takes the id of a deleted capsule that a publisher in flight still holds. */
module TakenIds {
  import opened Wrappers
  import opened RegistryModels
  import opened CapsuleRepository
  import opened AuditTrail
  import opened CapsuleRegistry
  import opened RegistryContent
  import opened Publishing
  import UniversalNewlines
  import WormStore

  /** The capsule is still the tenant's, at the version that was read, and without the content. */
  ghost predicate ReadStillHolds(db: Db, r: NewVersion, latest: nat)
    requires r.id in db.capsules
  {
    && db.capsules[r.id].tenant == r.tenant && latest == db.capsules[r.id].latestVersion
    && (forall n: nat :: (r.id, n) in db.versions ==> db.versions[(r.id, n)].hash != r.hash)
  }

  lemma TenantMatters(db: Db, r: NewVersion, next: nat)
    requires VersionsBacked(db) && r.id in db.capsules && !BlobRefused(db, r.tenant, r.hash, r.text)
    ensures VersionsBacked(Appended(db, r, next)) <==> db.capsules[r.id].tenant == r.tenant
  {
    var db' := Appended(db, r, next);
    assert db'.versions[(r.id, next)].tenant == r.tenant && db'.capsules[r.id].tenant == db.capsules[r.id].tenant;
  }

  lemma NumberMatters(db: Db, r: NewVersion, latest: nat)
    requires VersionsNumbered(db) && r.id in db.capsules && (r.id, latest + 1) !in db.versions
    ensures VersionsNumbered(Appended(db, r, latest + 1)) <==> latest == db.capsules[r.id].latestVersion
  {
    var db' := Appended(db, r, latest + 1);
    var known := db.capsules[r.id].latestVersion;
    assert known <= latest;
    if known < latest {
      assert (r.id, known + 1) !in db'.versions;
    }
  }

  lemma ContentMatters(db: Db, r: NewVersion, next: nat)
    requires HashesDistinct(db) && r.id in db.capsules && (r.id, next) !in db.versions
    ensures HashesDistinct(Appended(db, r, next)) <==> forall n: nat :: (r.id, n) in db.versions ==> db.versions[(r.id, n)].hash != r.hash
  {
    var db' := Appended(db, r, next);
    if n: nat :| (r.id, n) in db.versions && db.versions[(r.id, n)].hash == r.hash {
      assert db'.versions[(r.id, n)].hash == db'.versions[(r.id, next)].hash;
    }
  }

  lemma OthersUnharmed(db: Db, r: NewVersion, next: nat)
    requires Consistent(db) && r.id in db.capsules
    ensures NamesUnique(Appended(db, r, next)) && forall a :: a in Appended(db, r, next).audit ==> a.capsuleId in Appended(db, r, next).capsules
  {
  }

  /** A commit that goes through leaves the tables consistent exactly when what the publisher had read still holds. */
  lemma CommitConsistentIff(db: Db, r: NewVersion, latest: nat)
    requires Consistent(db) && r.id in db.capsules && (r.id, latest + 1) !in db.versions && !BlobRefused(db, r.tenant, r.hash, r.text)
    ensures Consistent(Appended(db, r, latest + 1)) <==> ReadStillHolds(db, r, latest)
  {
    TenantMatters(db, r, latest + 1);
    NumberMatters(db, r, latest);
    ContentMatters(db, r, latest + 1);
    OthersUnharmed(db, r, latest + 1);
  }

  /** From its hash check on, the publisher is refused before it makes a version: it finds its content, or its blob is refused. */
  predicate RefusedLater(db: Db, r: NewVersion, p: Phase)
    requires InFlight(p)
  {
    || (!HashLooked(p) && HashPublished(db, r.tenant, r.id, r.hash))
    || (if p.Ready? then p.newBlob && ((r.tenant, r.hash) in db.blobs || r.text == "") else BlobRefused(db, r.tenant, r.hash, r.text))
  }

  /** The publisher, going on alone, is refused or replayed: by the write-once store, its key, its second lookup, or later. */
  predicate GivesUp(s: System, r: NewVersion, p: Phase)
    requires InFlight(p)
  {
    || (p.Checked? && !WormStore.Store(s.files, r.tenant, r.hash, r.text).1)
    || ((p.Checked? || p.Stored?) && r.key in s.results)
    || (!LookedTwice(p) && (FindCapsule(s.db, r.tenant, r.id).None? || p.status == Deleted))
    || RefusedLater(s.db, r, p)
  }

  /** The tables after a publisher in flight has gone on alone. */
  function AloneDb(s: System, r: NewVersion, p: Phase): Db
    requires InFlight(p) && r.id in s.db.capsules
  {
    if GivesUp(s, r, p) then s.db else Appended(s.db, r, p.latest + 1)
  }

  /** The publisher's number is free, and the blob it found is there. */
  predicate CanGoOn(db: Db, r: NewVersion, p: Phase)
    requires InFlight(p)
  {
    r.id in db.capsules && (r.id, p.latest + 1) !in db.versions && (p.Ready? && !p.newBlob ==> (r.tenant, r.hash) in db.blobs)
  }

  /** How many steps a publisher in flight is away from its commit. */
  function StepsLeft(p: Phase): nat {
    match p
    case Checked(_, _) => 6
    case Stored(_, _) => 5
    case KeyUnknown(_, _) => 4
    case Read(_) => 3
    case HashClear(_) => 2
    case Ready(_, _) => 1
    case _ => 0
  }

  /** One step on: the publisher is over and the tables are what they will be, or it is one step nearer and nothing else is decided. */
  ghost predicate Nearer(s: System, s': System, who: nat)
    requires who in s.publishers && InFlight(s.publishers[who].phase) && s.publishers[who].request.id in s.db.capsules
  {
    && who in s'.publishers && s'.publishers[who].request == s.publishers[who].request
    && var (r, p, p') := (s.publishers[who].request, s.publishers[who].phase, s'.publishers[who].phase);
       if InFlight(p') then
         s'.db == s.db && CanGoOn(s'.db, r, p') && p'.latest == p.latest && StepsLeft(p') + 1 == StepsLeft(p)
         && (GivesUp(s', r, p') <==> GivesUp(s, r, p))
       else
         Over(p') && s'.db == AloneDb(s, r, p)
  }

  lemma OverStays(s: System, who: nat)
    requires who in s.publishers && Over(s.publishers[who].phase)
    ensures var s' := AdvanceOne(s, who); s'.db == s.db && who in s'.publishers && Over(s'.publishers[who].phase)
  {
  }

  lemma OverGoesOn(s: System, who: nat, n: nat) returns (s': System)
    requires who in s.publishers && Over(s.publishers[who].phase) && n > 0
    ensures s'.db == s.db && who in s'.publishers && Over(s'.publishers[who].phase)
    ensures Run(s, GoOn(who, n)) == Run(s', GoOn(who, n - 1))
  {
    s' := AdvanceOne(s, who);
    OverStays(s, who);
    GoOnStep(s, who, n);
  }

  lemma {:induction false} OverStaysOver(s: System, who: nat, n: nat)
    requires who in s.publishers && Over(s.publishers[who].phase)
    ensures Run(s, GoOn(who, n)).db == s.db
    decreases n
  {
    if n == 0 {
      GoOnNot(s, who);
    } else {
      var s' := OverGoesOn(s, who, n);
      OverStaysOver(s', who, n - 1);
    }
  }

  lemma StoreNearer(s: System, who: nat)
    requires who in s.publishers && s.publishers[who].phase.Checked? && CanGoOn(s.db, s.publishers[who].request, s.publishers[who].phase)
    ensures Nearer(s, AdvanceOne(s, who), who)
  {
    var (r, p) := (s.publishers[who].request, s.publishers[who].phase);
    var (files, stored) := WormStore.Store(s.files, r.tenant, r.hash, r.text);
    assert AdvanceOne(s, who) == Moved(s, who, if stored then Stored(p.latest, p.status) else Refused).(files := files);
  }

  lemma KeyNearer(s: System, who: nat)
    requires who in s.publishers && s.publishers[who].phase.Stored? && CanGoOn(s.db, s.publishers[who].request, s.publishers[who].phase)
    ensures Nearer(s, AdvanceOne(s, who), who)
  {
  }

  lemma LookupNearer(s: System, who: nat)
    requires who in s.publishers && s.publishers[who].phase.KeyUnknown? && CanGoOn(s.db, s.publishers[who].request, s.publishers[who].phase)
    ensures Nearer(s, AdvanceOne(s, who), who)
  {
  }

  lemma HashNearer(s: System, who: nat)
    requires who in s.publishers && s.publishers[who].phase.Read? && CanGoOn(s.db, s.publishers[who].request, s.publishers[who].phase)
    ensures Nearer(s, AdvanceOne(s, who), who)
  {
  }

  lemma BlobNearer(s: System, who: nat)
    requires who in s.publishers && s.publishers[who].phase.HashClear? && CanGoOn(s.db, s.publishers[who].request, s.publishers[who].phase)
    ensures Nearer(s, AdvanceOne(s, who), who)
  {
    var (r, p) := (s.publishers[who].request, s.publishers[who].phase);
    assert AdvanceOne(s, who) == Moved(s, who, Ready(p.latest, (r.tenant, r.hash) !in s.db.blobs));
  }

  lemma CommitNearer(s: System, who: nat)
    requires who in s.publishers && s.publishers[who].phase.Ready? && CanGoOn(s.db, s.publishers[who].request, s.publishers[who].phase)
    ensures Nearer(s, AdvanceOne(s, who), who)
  {
    var (r, p) := (s.publishers[who].request, s.publishers[who].phase);
    PublishRowsApply(s.db, r, p.latest + 1, p.newBlob);
  }

  lemma OneStepNearer(s: System, who: nat)
    requires who in s.publishers && InFlight(s.publishers[who].phase) && CanGoOn(s.db, s.publishers[who].request, s.publishers[who].phase)
    ensures Nearer(s, AdvanceOne(s, who), who)
  {
    match s.publishers[who].phase
    case Checked(_, _) => StoreNearer(s, who);
    case Stored(_, _) => KeyNearer(s, who);
    case KeyUnknown(_, _) => LookupNearer(s, who);
    case Read(_) => HashNearer(s, who);
    case HashClear(_) => BlobNearer(s, who);
    case Ready(_, _) => CommitNearer(s, who);
  }

  /** The publisher is in flight, its number is free, and the blob it found is there. */
  predicate GoesOn(s: System, who: nat) {
    who in s.publishers && InFlight(s.publishers[who].phase) && CanGoOn(s.db, s.publishers[who].request, s.publishers[who].phase)
  }

  function EndOf(s: System, who: nat): Db
    requires GoesOn(s, who)
  {
    AloneDb(s, s.publishers[who].request, s.publishers[who].phase)
  }

  function Left(s: System, who: nat): nat
    requires GoesOn(s, who)
  {
    StepsLeft(s.publishers[who].phase)
  }

  lemma SomeLeft(s: System, who: nat)
    requires GoesOn(s, who)
    ensures Left(s, who) > 0
  {
  }

  lemma NearerEnd(s: System, s': System, who: nat)
    requires GoesOn(s, who) && Nearer(s, s', who)
    ensures GoesOn(s', who) ==> EndOf(s', who) == EndOf(s, who) && Left(s', who) + 1 == Left(s, who)
    ensures !GoesOn(s', who) ==> who in s'.publishers && Over(s'.publishers[who].phase) && s'.db == EndOf(s, who)
  {
  }

  lemma GetsNearer(s: System, who: nat, n: nat) returns (s': System)
    requires GoesOn(s, who) && n > 0
    ensures Run(s, GoOn(who, n)) == Run(s', GoOn(who, n - 1))
    ensures GoesOn(s', who) ==> EndOf(s', who) == EndOf(s, who) && Left(s', who) + 1 == Left(s, who)
    ensures !GoesOn(s', who) ==> who in s'.publishers && Over(s'.publishers[who].phase) && s'.db == EndOf(s, who)
  {
    s' := AdvanceOne(s, who);
    OneStepNearer(s, who);
    NearerEnd(s, s', who);
    GoOnStep(s, who, n);
  }

  lemma {:induction false} EndsAs(s: System, who: nat, n: nat, end: Db)
    requires GoesOn(s, who) && n >= Left(s, who) && end == EndOf(s, who)
    ensures Run(s, GoOn(who, n)).db == end
    decreases n
  {
    SomeLeft(s, who);
    var s' := GetsNearer(s, who, n);
    if GoesOn(s', who) {
      EndsAs(s', who, n - 1, end);
    } else {
      OverStaysOver(s', who, n - 1);
    }
  }

  /** A publisher in flight that goes on alone gives up or has its version appended. */
  lemma AloneEnds(s: System, who: nat, n: nat)
    requires GoesOn(s, who) && n >= Left(s, who)
    ensures Run(s, GoOn(who, n)).db == EndOf(s, who)
  {
    EndsAs(s, who, n, EndOf(s, who));
  }

  function Taken(s: System, c: NewCapsule): System {
    s.(db := Created(s.db, c), files := FilesAfter(s, c))
  }

  /** A create takes an id, and a publisher that holds it goes on alone to its end. */
  function TakeAndGoOn(c: NewCapsule, who: nat): seq<Action> {
    [CreateNew(c)] + GoOn(who, 6)
  }

  lemma TakenRun(s: System, who: nat, c: NewCapsule)
    requires VersionsNumbered(s.db) && GoesThrough(s, c) && who in s.publishers
    requires InFlight(s.publishers[who].phase) && CanGoOn(Created(s.db, c), s.publishers[who].request, s.publishers[who].phase)
    ensures Run(s, TakeAndGoOn(c, who)).db == AloneDb(Taken(s, c), s.publishers[who].request, s.publishers[who].phase)
  {
    RunAppend(s, [CreateNew(c)], GoOn(who, 6));
    RunOne(s, CreateNew(c));
    CreateStep(s, c);
    AloneEnds(Taken(s, c), who, 6);
  }

  lemma OnlyFirst(db: Db, c: NewCapsule, n: nat)
    requires VersionsNumbered(db) && c.Id() !in db.capsules
    ensures (c.Id(), n) in Created(db, c).versions <==> n == 1
  {
  }

  lemma TakenCanGoOn(db: Db, c: NewCapsule, r: NewVersion, p: Phase)
    requires VersionsNumbered(db) && c.Id() !in db.capsules && r.id == c.Id() && InFlight(p) && StillTrue(db, r, p)
    ensures CanGoOn(Created(db, c), r, p)
  {
    OnlyFirst(db, c, p.latest + 1);
  }

  lemma GoingOnIff(s: System, r: NewVersion, p: Phase)
    requires Consistent(s.db) && InFlight(p) && CanGoOn(s.db, r, p)
    ensures Consistent(AloneDb(s, r, p)) <==> ReadStillHolds(s.db, r, p.latest) || GivesUp(s, r, p)
  {
    if !GivesUp(s, r, p) {
      CommitConsistentIff(s.db, r, p.latest);
    }
  }

  lemma CompatibleIff(s: System, c: NewCapsule, r: NewVersion, p: Phase)
    requires VersionsNumbered(s.db) && c.Id() !in s.db.capsules && r.id == c.Id() && InFlight(p)
    requires !GivesUp(Taken(s, c), r, p)
    ensures ReadStillHolds(Created(s.db, c), r, p.latest) <==> Compatible(c, r, p)
  {
    var db' := Created(s.db, c);
    forall n: nat
      ensures (r.id, n) in db'.versions <==> n == 1
    {
      OnlyFirst(s.db, c, n);
    }
    assert db'.versions[(r.id, 1)].hash == c.hash && db'.versions[(r.id, 1)].tenant == c.tenant;
    assert (r.id, 1).0 == r.id;
  }

  lemma TakenTablesIff(s: System, c: NewCapsule, r: NewVersion, p: Phase)
    requires Consistent(s.db) && !CreateRefused(s.db, c) && r.id == c.Id() && InFlight(p) && StillTrue(s.db, r, p)
    ensures CanGoOn(Created(s.db, c), r, p)
    ensures Consistent(AloneDb(Taken(s, c), r, p)) <==> Compatible(c, r, p) || GivesUp(Taken(s, c), r, p)
  {
    CreatedIsConsistent(s.db, c);
    TakenCanGoOn(s.db, c, r, p);
    GoingOnIff(Taken(s, c), r, p);
    if !GivesUp(Taken(s, c), r, p) {
      CompatibleIff(s, c, r, p);
    }
  }

  /**
   * When a create takes the id that a publisher in flight holds, and the publisher goes on alone,
   * the tables stay consistent exactly when the create is compatible with what the publisher has
   * loaded and read, or the publisher is refused for another reason.
   */
  lemma TakenIdIff(s: System, who: nat, c: NewCapsule)
    requires Invariant(s) && GoesThrough(s, c) && who in s.publishers
    requires InFlight(s.publishers[who].phase) && s.publishers[who].request.id == c.Id()
    ensures var (r, p) := (s.publishers[who].request, s.publishers[who].phase);
      Consistent(Run(s, TakeAndGoOn(c, who)).db) <==> Compatible(c, r, p) || GivesUp(Taken(s, c), r, p)
  {
    var (r, p) := (s.publishers[who].request, s.publishers[who].phase);
    CommitFacts(s, who);
    TakenTablesIff(s, c, r, p);
    TakenRun(s, who, c);
  }

  /** An active capsule, and a publisher of new content that has just arrived. */
  ghost predicate AboutToPublish(s: System, who: nat) {
    && who in s.publishers && s.publishers[who].phase.Arrived?
    && var r := s.publishers[who].request;
       && r.id in s.db.capsules && s.db.capsules[r.id].latestVersion < s.limit
       && WormStore.Store(s.files, r.tenant, r.hash, r.text).1 && r.text != "" && r.key !in s.results
       && s.db.capsules[r.id].tenant == r.tenant && s.db.capsules[r.id].status == Active
       && !HashPublished(s.db, r.tenant, r.id, r.hash)
  }

  /** The same system with the publisher past its hash check. */
  function PastHashCheck(s: System, who: nat): System
    requires who in s.publishers && s.publishers[who].request.id in s.db.capsules
  {
    var r := s.publishers[who].request;
    Moved(s, who, HashClear(s.db.capsules[r.id].latestVersion)).(files := WormStore.Store(s.files, r.tenant, r.hash, r.text).0)
  }

  lemma ToHashClear(s: System, who: nat)
    requires AboutToPublish(s, who)
    ensures Run(s, GoOn(who, 5)) == PastHashCheck(s, who)
  {
    var r := s.publishers[who].request;
    var latest := s.db.capsules[r.id].latestVersion;
    var s1 := Moved(s, who, Checked(latest, Active));
    var s2 := Moved(s, who, Stored(latest, Active)).(files := WormStore.Store(s.files, r.tenant, r.hash, r.text).0);
    var s3, s4 := Moved(s2, who, KeyUnknown(latest, Active)), Moved(s2, who, Read(latest));
    assert AdvanceOne(s, who) == s1;
    assert AdvanceOne(s1, who) == s2;
    assert AdvanceOne(s2, who) == s3;
    assert AdvanceOne(s3, who) == s4;
    assert AdvanceOne(s4, who) == PastHashCheck(s, who);
    GoOnStep(s, who, 5);
    GoOnStep(s1, who, 4);
    GoOnStep(s2, who, 3);
    GoOnStep(s3, who, 2);
    GoOnStep(s4, who, 1);
    GoOnNot(PastHashCheck(s, who), who);
  }

  function UntilDeletion(who: nat, id: string, actor: string): seq<Action> {
    GoOn(who, 5) + [Delete(id, actor)]
  }

  /** The publisher stores, finds its key unknown, reads and finds its content new; the capsule is deleted and its id taken; the publisher goes on. */
  function TakeOver(who: nat, actor: string, c: NewCapsule): seq<Action> {
    UntilDeletion(who, c.Id(), actor) + TakeAndGoOn(c, who)
  }

  function AfterDeletion(s: System, who: nat): System
    requires who in s.publishers && s.publishers[who].request.id in s.db.capsules
  {
    PastHashCheck(s, who).(db := WithoutCapsule(s.db, s.publishers[who].request.id))
  }

  lemma ToDeletion(s: System, who: nat, actor: string)
    requires AboutToPublish(s, who)
    ensures Run(s, UntilDeletion(who, s.publishers[who].request.id, actor)) == AfterDeletion(s, who)
  {
    var id := s.publishers[who].request.id;
    ToHashClear(s, who);
    RunAppend(s, GoOn(who, 5), [Delete(id, actor)]);
    RunOne(PastHashCheck(s, who), Delete(id, actor));
    DeleteStep(PastHashCheck(s, who), id, actor);
  }

  lemma FreshGoesOn(s: System, c: NewCapsule, r: NewVersion, latest: nat)
    requires VersionsNumbered(s.db) && c.Id() !in s.db.capsules && r.id == c.Id() && r.text != "" && latest >= 1
    ensures CanGoOn(Created(s.db, c), r, HashClear(latest))
    ensures AloneDb(Taken(s, c), r, HashClear(latest)) == Appended(Created(s.db, c), r, latest + 1)
  {
    OnlyFirst(s.db, c, latest + 1);
  }

  lemma TakenGoesOn(gone: System, who: nat, c: NewCapsule, latest: nat)
    requires VersionsNumbered(gone.db) && GoesThrough(gone, c) && who in gone.publishers && gone.publishers[who].phase == HashClear(latest)
    requires var r := gone.publishers[who].request; r.id == c.Id() && r.text != "" && latest >= 1
    ensures Run(gone, TakeAndGoOn(c, who)).db == Appended(Created(gone.db, c), gone.publishers[who].request, latest + 1)
  {
    FreshGoesOn(gone, c, gone.publishers[who].request, latest);
    TakenRun(gone, who, c);
  }

  lemma OneVersionTables(db: Db, r: NewVersion, latest: nat)
    requires Consistent(db) && r.id in db.capsules && db.capsules[r.id].latestVersion == 1 && latest >= 1 && r.text != ""
    ensures var end := Appended(db, r, latest + 1);
      && (VersionsBacked(end) <==> db.capsules[r.id].tenant == r.tenant)
      && (VersionsNumbered(end) <==> latest == 1)
      && (r.id, 1) in db.versions
      && (HashesDistinct(end) <==> db.versions[(r.id, 1)].hash != r.hash)
  {
    assert forall n: nat :: (r.id, n) in db.versions <==> n == 1;
    TenantMatters(db, r, latest + 1);
    NumberMatters(db, r, latest);
    ContentMatters(db, r, latest + 1);
  }

  lemma TakenTables(gone: Db, r: NewVersion, c: NewCapsule, latest: nat, end: Db)
    requires Consistent(gone) && !CreateRefused(gone, c) && r.id == c.Id() && latest >= 1 && r.text != ""
    requires end == Appended(Created(gone, c), r, latest + 1)
    ensures VersionsBacked(end) <==> c.tenant == r.tenant
    ensures VersionsNumbered(end) <==> latest == 1
    ensures HashesDistinct(end) <==> c.hash != r.hash
  {
    CreatedIsConsistent(gone, c);
    OneVersionTables(Created(gone, c), r, latest);
  }

  /** The publisher is past its hash check, and its capsule is gone. */
  ghost predicate Orphaned(gone: System, who: nat, r: NewVersion, latest: nat) {
    Consistent(gone.db) && who in gone.publishers && gone.publishers[who] == Publisher(r, HashClear(latest)) && latest >= 1
  }

  lemma AfterDeletionIsOrphaned(s: System, who: nat)
    requires Consistent(s.db) && AboutToPublish(s, who)
    ensures var r := s.publishers[who].request; Orphaned(AfterDeletion(s, who), who, r, s.db.capsules[r.id].latestVersion)
  {
    DeleteKeepsConsistent(s.db, s.publishers[who].request.id);
  }

  lemma OrphanTables(gone: System, who: nat, r: NewVersion, latest: nat, c: NewCapsule, end: Db)
    requires Orphaned(gone, who, r, latest) && GoesThrough(gone, c) && r.id == c.Id() && r.text != ""
    requires end == Run(gone, TakeAndGoOn(c, who)).db
    ensures VersionsBacked(end) <==> c.tenant == r.tenant
    ensures VersionsNumbered(end) <==> latest == 1
    ensures HashesDistinct(end) <==> c.hash != r.hash
  {
    TakenGoesOn(gone, who, c, latest);
    TakenTables(gone.db, r, c, latest, end);
  }

  lemma TakeOverRun(s: System, who: nat, actor: string, c: NewCapsule)
    requires AboutToPublish(s, who) && s.publishers[who].request.id == c.Id()
    ensures Run(s, TakeOver(who, actor, c)) == Run(AfterDeletion(s, who), TakeAndGoOn(c, who))
  {
    ToDeletion(s, who, actor);
    RunAppend(s, UntilDeletion(who, c.Id(), actor), TakeAndGoOn(c, who));
  }

  /**
   * The exact condition, conjunct by conjunct: after a take-over versions agree with their
   * capsule's tenant exactly when the new capsule has the publisher's tenant, are numbered
   * exactly when the publisher had read version 1, and have distinct contents exactly when the
   * new capsule has other content.
   */
  lemma TakeOverIff(s: System, who: nat, actor: string, c: NewCapsule)
    requires Consistent(s.db) && AboutToPublish(s, who) && s.publishers[who].request.id == c.Id() && GoesThrough(AfterDeletion(s, who), c)
    ensures var (r, end) := (s.publishers[who].request, Run(s, TakeOver(who, actor, c)).db);
      && (VersionsBacked(end) <==> c.tenant == r.tenant)
      && (VersionsNumbered(end) <==> s.db.capsules[r.id].latestVersion == 1)
      && (HashesDistinct(end) <==> c.hash != r.hash)
  {
    AfterDeletionIsOrphaned(s, who);
    TakeOverRun(s, who, actor, c);
    OrphanTables(AfterDeletion(s, who), who, s.publishers[who].request, s.db.capsules[c.Id()].latestVersion, c,
                 Run(s, TakeOver(who, actor, c)).db);
  }

  const FIRST := NewCapsule(Some("c"), "", "e1", "t", "name", "u", Private, "old", "h1", "u", "k1")
  const SECOND := NewVersion("c", "e2", "t", "older", "h2", "u", "k2")
  const LATE := NewVersion("c", "e3", "t", "new", "h3", "u", "k3")

  /** A capsule with one version, or with two, and a publisher. */
  const ONE_VERSION := System(
    Created(EMPTY_DB, FIRST), map[],
    map[WormStore.FilePath("t", "h1") := "old"], 10, map[0 := Publisher(LATE, Arrived)], map[])
  const TWO_VERSIONS := System(
    Published(Created(EMPTY_DB, FIRST), SECOND), map[],
    map[WormStore.FilePath("t", "h1") := "old", WormStore.FilePath("t", "h2") := "older"], 10, map[0 := Publisher(LATE, Arrived)], map[])

  /** A capsule under the same id, for some tenant and with some content. */
  function Taker(tenant: string, text: string, hash: string): NewCapsule {
    NewCapsule(Some("c"), "", "e4", tenant, "name", "u", Private, text, hash, "u", "k4")
  }

  lemma OneVersionTablesFit()
    ensures Consistent(ONE_VERSION.db) && Faithful(ONE_VERSION.db)
  {
    CreatedIsConsistent(EMPTY_DB, FIRST);
    CreatedIsFaithful(EMPTY_DB, FIRST);
  }

  lemma OneVersionIsInitial()
    ensures Initial(ONE_VERSION)
  {
    OneVersionTablesFit();
    assert ContentFits(WorldOf(ONE_VERSION));
  }

  lemma SecondCanCommit()
    ensures CanCommit(ONE_VERSION.db, SECOND)
  {
    assert forall k :: k in ONE_VERSION.db.versions ==> ONE_VERSION.db.versions[k].hash == "h1";
  }

  lemma TwoVersionsTablesFit()
    ensures Consistent(TWO_VERSIONS.db) && Faithful(TWO_VERSIONS.db)
  {
    OneVersionTablesFit();
    SecondCanCommit();
    CommitKeepsTables(ONE_VERSION.db, SECOND);
  }

  lemma TwoVersionsContentFits()
    ensures ContentFits(WorldOf(TWO_VERSIONS))
  {
    WormStore.DistinctFiles("t", "h1", "t", "h2");
    var files := TWO_VERSIONS.files;
    assert ContentFits(World(Store(ONE_VERSION.db, map[]), files));
    NewBlobFits(World(Store(ONE_VERSION.db, map[]), files), "t", "h2", "older", Store(TWO_VERSIONS.db, map[]));
  }

  lemma TwoVersionsIsInitial()
    ensures Initial(TWO_VERSIONS)
  {
    TwoVersionsTablesFit();
    TwoVersionsContentFits();
  }

  lemma NoFileYet(tenant: string, hash: string)
    requires hash == "h3" || hash == "h4"
    ensures WormStore.FilePath(tenant, hash) !in ONE_VERSION.files && WormStore.FilePath(tenant, hash) !in TWO_VERSIONS.files
  {
    WormStore.DistinctFiles(tenant, hash, "t", "h1");
    WormStore.DistinctFiles(tenant, hash, "t", "h2");
  }

  lemma PublisherPrepared(s: System)
    requires s == ONE_VERSION || s == TWO_VERSIONS
    ensures AboutToPublish(s, 0)
  {
    NoFileYet("t", "h3");
    assert forall k :: k in s.db.versions ==> s.db.versions[k].hash == "h1" || s.db.versions[k].hash == "h2";
  }

  lemma TextAccepted(files: WormStore.Files, c: NewCapsule)
    requires files == ONE_VERSION.files || files == TWO_VERSIONS.files
    requires (c.tenant, c.hash, c.text) == ("t", "h3", "new") || c.hash == "h4"
    ensures WormStore.Store(WormStore.Store(files, "t", "h3", "new").0, c.tenant, c.hash, c.text).1
  {
    NoFileYet(c.tenant, c.hash);
    WormStore.DistinctFiles(c.tenant, c.hash, "t", "h3");
    UniversalNewlines.ReadTextKeepsPlainText("new");
  }

  /** In both systems the publisher can start, and the create goes through. */
  lemma Prepared(s: System, c: NewCapsule)
    requires s == ONE_VERSION || s == TWO_VERSIONS
    requires c.Id() == "c" && c.text != "" && ((c.tenant, c.hash, c.text) == ("t", "h3", "new") || c.hash == "h4")
    ensures AboutToPublish(s, 0) && GoesThrough(AfterDeletion(s, 0), c)
  {
    PublisherPrepared(s);
    TextAccepted(s.files, c);
    assert AfterDeletion(s, 0).db.capsules.Keys == {};
  }

  /** The new capsule has the publisher's content: one capsule has the same content twice. */
  lemma SameContentBreaks()
    ensures Initial(ONE_VERSION) && !HashesDistinct(Run(ONE_VERSION, TakeOver(0, "u", Taker("t", "new", "h3"))).db)
  {
    OneVersionIsInitial();
    Prepared(ONE_VERSION, Taker("t", "new", "h3"));
    TakeOverIff(ONE_VERSION, 0, "u", Taker("t", "new", "h3"));
  }

  /** The new capsule is another tenant's: a version of the publisher's tenant ends up in it. */
  lemma OtherTenantBreaks()
    ensures Initial(ONE_VERSION) && !VersionsBacked(Run(ONE_VERSION, TakeOver(0, "u", Taker("v", "other", "h4"))).db)
  {
    OneVersionIsInitial();
    Prepared(ONE_VERSION, Taker("v", "other", "h4"));
    TakeOverIff(ONE_VERSION, 0, "u", Taker("v", "other", "h4"));
  }

  /** The publisher had read version 2: the new capsule gets a version 3 and no version 2. */
  lemma LaterVersionBreaks()
    ensures Initial(TWO_VERSIONS) && !VersionsNumbered(Run(TWO_VERSIONS, TakeOver(0, "u", Taker("t", "other", "h4"))).db)
  {
    TwoVersionsIsInitial();
    Prepared(TWO_VERSIONS, Taker("t", "other", "h4"));
    TakeOverIff(TWO_VERSIONS, 0, "u", Taker("t", "other", "h4"));
  }

  /** The publisher of two versions has loaded its capsule, and the capsule is deleted. */
  function LoadedAndGone(): System {
    Moved(TWO_VERSIONS, 0, Checked(2, Active)).(db := WithoutCapsule(TWO_VERSIONS.db, "c"))
  }

  lemma ToLoadedAndGone()
    ensures Run(TWO_VERSIONS, [Advance(0), Delete("c", "u")]) == LoadedAndGone()
  {
    var loaded := Moved(TWO_VERSIONS, 0, Checked(2, Active));
    assert [Advance(0)] + [Delete("c", "u")] == [Advance(0), Delete("c", "u")];
    assert AdvanceOne(TWO_VERSIONS, 0) == loaded;
    RunAppend(TWO_VERSIONS, [Advance(0)], [Delete("c", "u")]);
    RunOne(TWO_VERSIONS, Advance(0));
    RunOne(loaded, Delete("c", "u"));
    DeleteStep(loaded, "c", "u");
  }

  lemma LoadedAndGoneInOrder()
    ensures Invariant(LoadedAndGone())
  {
    TwoVersionsIsInitial();
    ToLoadedAndGone();
    var schedule := [Advance(0), Delete("c", "u")];
    assert AllAllowed(TWO_VERSIONS, schedule);
    RunKeepsInvariant(TWO_VERSIONS, schedule);
  }

  lemma OtherTextsAccepted()
    ensures GoesThrough(LoadedAndGone(), Taker("t", "other", "h4"))
    ensures WormStore.Store(FilesAfter(LoadedAndGone(), Taker("t", "other", "h4")), "t", "h3", "new").1
  {
    NoFileYet("t", "h3");
    NoFileYet("t", "h4");
    WormStore.DistinctFiles("t", "h3", "t", "h4");
    assert LoadedAndGone().db.capsules.Keys == {};
  }

  lemma OtherContentNew()
    ensures var db := Created(LoadedAndGone().db, Taker("t", "other", "h4"));
      FindCapsule(db, "t", "c").Some? && !RefusedLater(db, LATE, Checked(2, Active))
  {
    assert forall k :: k in LoadedAndGone().db.versions ==> k.0 != "c";
  }

  lemma LoadedGoesOn()
    ensures GoesThrough(LoadedAndGone(), Taker("t", "other", "h4"))
    ensures !GivesUp(Taken(LoadedAndGone(), Taker("t", "other", "h4")), LATE, Checked(2, Active))
  {
    OtherTextsAccepted();
    OtherContentNew();
  }

  /** The id is taken between the publisher's two lookups, and it had loaded version 2: the tables are inconsistent although the second lookup found the row. */
  lemma BetweenLookupsBreaks()
    ensures Initial(TWO_VERSIONS)
    ensures !Consistent(Run(TWO_VERSIONS, [Advance(0), Delete("c", "u")] + TakeAndGoOn(Taker("t", "other", "h4"), 0)).db)
  {
    TwoVersionsIsInitial();
    ToLoadedAndGone();
    LoadedAndGoneInOrder();
    LoadedGoesOn();
    RunAppend(TWO_VERSIONS, [Advance(0), Delete("c", "u")], TakeAndGoOn(Taker("t", "other", "h4"), 0));
    TakenIdIff(LoadedAndGone(), 0, Taker("t", "other", "h4"));
  }
}
