/** Concurrent publishers that share an idempotency key: the key is only recorded after the commit. */
module SharedKeys {
  import opened RegistryModels
  import opened CapsuleRepository
  import opened Publishing
  import opened CapsuleHistories
  import opened VersionLimit
  import opened TakenIds
  import WormStore

  lemma ReadyCommits(s: System, who: nat)
    requires VersionsNumbered(s.db) && who in s.publishers && s.publishers[who].request.id in s.db.capsules
    requires var r := s.publishers[who].request;
      r.text != "" && s.publishers[who].phase == Ready(s.db.capsules[r.id].latestVersion, (r.tenant, r.hash) !in s.db.blobs)
    ensures AdvanceOne(s, who) == AfterCommit(s, who)
  {
    var r := s.publishers[who].request;
    NextIsFree(s.db, r.id);
    PublishCommits(s.db, r);
  }

  /** The system after a publisher has gone all the way to its commit without interruption. */
  function AfterPublish(s: System, who: nat): System
    requires who in s.publishers && s.publishers[who].request.id in s.db.capsules
  {
    var r := s.publishers[who].request;
    AfterCommit(s, who).(files := WormStore.Store(s.files, r.tenant, r.hash, r.text).0)
  }

  lemma CommitForgetsPhase(s: System, who: nat, phase: Phase)
    requires who in s.publishers && s.publishers[who].request.id in s.db.capsules
    ensures AfterCommit(Moved(s, who, phase), who) == AfterCommit(s, who)
  {
  }

  /** The same system with the publisher past its look for the blob. */
  function PastBlobLook(s: System, who: nat): System
    requires who in s.publishers && s.publishers[who].request.id in s.db.capsules
  {
    var r := s.publishers[who].request;
    Moved(s, who, Ready(s.db.capsules[r.id].latestVersion, (r.tenant, r.hash) !in s.db.blobs))
  }

  lemma BlobLook(s: System, who: nat)
    requires who in s.publishers && s.publishers[who].request.id in s.db.capsules
    requires s.publishers[who].phase == HashClear(s.db.capsules[s.publishers[who].request.id].latestVersion)
    ensures AdvanceOne(s, who) == PastBlobLook(s, who)
  {
  }

  lemma BlobLookCommits(s: System, who: nat)
    requires VersionsNumbered(s.db) && who in s.publishers && s.publishers[who].request.id in s.db.capsules && s.publishers[who].request.text != ""
    ensures AdvanceOne(PastBlobLook(s, who), who) == AfterCommit(s, who)
  {
    var r := s.publishers[who].request;
    ReadyCommits(PastBlobLook(s, who), who);
    CommitForgetsPhase(s, who, Ready(s.db.capsules[r.id].latestVersion, (r.tenant, r.hash) !in s.db.blobs));
  }

  lemma HashClearCommits(s: System, who: nat)
    requires VersionsNumbered(s.db) && who in s.publishers && s.publishers[who].request.id in s.db.capsules && s.publishers[who].request.text != ""
    requires s.publishers[who].phase == HashClear(s.db.capsules[s.publishers[who].request.id].latestVersion)
    ensures Run(s, GoOn(who, 2)) == AfterCommit(s, who)
  {
    BlobLook(s, who);
    BlobLookCommits(s, who);
    TwoSteps(s, who, PastBlobLook(s, who));
  }

  lemma SameCommit(s: System, who: nat)
    requires who in s.publishers && s.publishers[who].request.id in s.db.capsules
    ensures var past := PastHashCheck(s, who);
      && past.db == s.db && who in past.publishers && past.publishers[who].request == s.publishers[who].request
      && past.publishers[who].phase == HashClear(s.db.capsules[s.publishers[who].request.id].latestVersion)
      && AfterCommit(past, who) == AfterPublish(s, who)
  {
    assert PastHashCheck(s, who).db == s.db;
  }

  lemma PastHashCheckCommits(s: System, who: nat)
    requires VersionsNumbered(s.db) && who in s.publishers && s.publishers[who].request.id in s.db.capsules && s.publishers[who].request.text != ""
    ensures Run(PastHashCheck(s, who), GoOn(who, 2)) == AfterPublish(s, who)
  {
    SameCommit(s, who);
    HashClearCommits(PastHashCheck(s, who), who);
  }

  /** A publisher that has what it takes, left alone, makes a version. */
  lemma PublishesAlone(s: System, who: nat)
    requires VersionsNumbered(s.db) && AboutToPublish(s, who)
    ensures Run(s, GoOn(who, 7)) == AfterPublish(s, who)
  {
    ToHashClear(s, who);
    PastHashCheckCommits(s, who);
    GoOnSplit(who, 5, 2);
    RunAppend(s, GoOn(who, 5), GoOn(who, 2));
  }

  /** The write-once store takes both texts, one after the other. */
  predicate StoresBoth(files: WormStore.Files, first: NewVersion, second: NewVersion) {
    var (files', stored) := WormStore.Store(files, first.tenant, first.hash, first.text);
    stored && WormStore.Store(files', second.tenant, second.hash, second.text).1
  }

  /** Different capsules, or different contents and room for two versions. */
  predicate RoomForBoth(s: System, first: NewVersion, second: NewVersion)
    requires first.id in s.db.capsules
  {
    first.id != second.id || (first.hash != second.hash && s.db.capsules[first.id].latestVersion + 2 <= s.limit)
  }

  lemma StillNew(db: Db, first: NewVersion, second: NewVersion)
    requires first.id in db.capsules && !HashPublished(db, second.tenant, second.id, second.hash) && (first.id, first.hash) != (second.id, second.hash)
    ensures !HashPublished(Published(db, first), second.tenant, second.id, second.hash)
  {
  }

  lemma StillAboutToPublish(s: System, a: nat, b: nat)
    requires AboutToPublish(s, a) && AboutToPublish(s, b) && a != b
    requires StoresBoth(s.files, s.publishers[a].request, s.publishers[b].request)
    requires RoomForBoth(s, s.publishers[a].request, s.publishers[b].request)
    ensures AboutToPublish(AfterPublish(s, a), b)
  {
    StillNew(s.db, s.publishers[a].request, s.publishers[b].request);
  }

  ghost predicate BothSucceed(s: System, schedule: seq<Action>, a: nat, b: nat) {
    var end := Run(s, schedule);
    && a in end.publishers && Succeeded(end.publishers[a].phase)
    && b in end.publishers && Succeeded(end.publishers[b].phase)
  }

  predicate NoCreates(schedule: seq<Action>) {
    forall k :: 0 <= k < |schedule| ==> !schedule[k].CreateNew?
  }

  /** Some interleaving without creates has both make a version. */
  ghost predicate CanBothSucceed(s: System, a: nat, b: nat) {
    exists schedule :: NoCreates(schedule) && BothSucceed(s, schedule, a, b)
  }

  lemma InitialFacts(s: System, who: nat)
    requires Initial(s) && who in s.publishers
    ensures VersionsNumbered(s.db) && s.publishers[who].phase.Arrived?
  {
  }

  lemma {:induction false} OnlyAdvances(who: nat, n: nat)
    ensures NoCreates(GoOn(who, n))
  {
    if n > 0 {
      OnlyAdvances(who, n - 1);
    }
  }

  lemma PublishedNumbered(db: Db, r: NewVersion)
    requires VersionsNumbered(db) && r.id in db.capsules
    ensures VersionsNumbered(Published(db, r))
  {
  }

  lemma ThenTheOther(s: System, mid: System, a: nat, b: nat)
    requires a != b && a in mid.publishers && Succeeded(mid.publishers[a].phase) && Run(s, GoOn(a, 7)) == mid
    requires VersionsNumbered(mid.db) && AboutToPublish(mid, b)
    ensures CanBothSucceed(s, a, b)
  {
    PublishesAlone(mid, b);
    RunAppend(s, GoOn(a, 7), GoOn(b, 7));
    OnlyAdvances(a, 7);
    OnlyAdvances(b, 7);
    assert NoCreates(GoOn(a, 7) + GoOn(b, 7)) && BothSucceed(s, GoOn(a, 7) + GoOn(b, 7), a, b);
  }

  /** One publisher goes to its commit, and then, before the first has recorded the key, the other. */
  lemma OneAfterTheOther(s: System, a: nat, b: nat)
    requires VersionsNumbered(s.db) && AboutToPublish(s, a) && AboutToPublish(s, b) && a != b
    requires StoresBoth(s.files, s.publishers[a].request, s.publishers[b].request)
    requires RoomForBoth(s, s.publishers[a].request, s.publishers[b].request)
    ensures CanBothSucceed(s, a, b)
  {
    StillAboutToPublish(s, a, b);
    PublishedNumbered(s.db, s.publishers[a].request);
    PublishesAlone(s, a);
    ThenTheOther(s, AfterPublish(s, a), a, b);
  }

  lemma NoRoomNever(s: System, a: nat, b: nat)
    requires Initial(s) && a in s.publishers && b in s.publishers && a != b && s.publishers[a].request.id in s.db.capsules
    requires !RoomForBoth(s, s.publishers[a].request, s.publishers[b].request)
    ensures !CanBothSucceed(s, a, b)
  {
    forall schedule | NoCreates(schedule)
      ensures !BothSucceed(s, schedule, a, b)
    {
      RunKeepsRequests(s, schedule, a);
      RunKeepsRequests(s, schedule, b);
      if BothSucceed(s, schedule, a, b) {
        TwoNeedRoom(s, schedule, a, b);
        AtMostOnePublisherSucceeds(s, schedule, a, b);
      }
    }
  }

  /**
   * Two publishers that could each publish under one unused key can both make a version, in some
   * interleaving, exactly when they publish to different capsules, or different contents to one
   * that has room for two more versions: what keeps a retry from making a second version at the
   * same time is its content, not its key.
   */
  lemma SharedKeyIff(s: System, a: nat, b: nat)
    requires Initial(s) && AboutToPublish(s, a) && AboutToPublish(s, b) && a != b
    requires s.publishers[a].request.key == s.publishers[b].request.key
    requires StoresBoth(s.files, s.publishers[a].request, s.publishers[b].request)
    ensures CanBothSucceed(s, a, b) <==> RoomForBoth(s, s.publishers[a].request, s.publishers[b].request)
  {
    InitialFacts(s, a);
    if RoomForBoth(s, s.publishers[a].request, s.publishers[b].request) {
      OneAfterTheOther(s, a, b);
    } else {
      NoRoomNever(s, a, b);
    }
  }

  /** Another publisher with the key of the first and other content; and the same with room for one version only. */
  const SAME_KEY := NewVersion("c", "e5", "t", "newest", "h4", "u", "k3")
  const TWO_PUBLISHERS := ONE_VERSION.(publishers := map[0 := Publisher(LATE, Arrived), 1 := Publisher(SAME_KEY, Arrived)])
  const ONE_TO_GO := TWO_PUBLISHERS.(limit := 2)

  lemma TwoPublishersNew()
    ensures !HashPublished(ONE_VERSION.db, "t", "c", "h3") && !HashPublished(ONE_VERSION.db, "t", "c", "h4")
  {
    assert forall k :: k in ONE_VERSION.db.versions ==> ONE_VERSION.db.versions[k].hash == "h1";
  }

  lemma TwoPublishersStore()
    ensures StoresBoth(ONE_VERSION.files, LATE, SAME_KEY)
    ensures WormStore.Store(ONE_VERSION.files, "t", "h4", "newest").1
  {
    NoFileYet("t", "h3");
    NoFileYet("t", "h4");
    WormStore.DistinctFiles("t", "h4", "t", "h3");
  }

  lemma TwoPublishersReady(s: System)
    requires s == TWO_PUBLISHERS || s == ONE_TO_GO
    ensures AboutToPublish(s, 0) && AboutToPublish(s, 1) && StoresBoth(s.files, LATE, SAME_KEY)
  {
    TwoPublishersNew();
    TwoPublishersStore();
  }

  lemma TwoPublishersInitial()
    ensures Initial(TWO_PUBLISHERS)
  {
    OneVersionIsInitial();
  }

  lemma OneToGoInitial()
    ensures Initial(ONE_TO_GO)
  {
    OneVersionIsInitial();
  }

  /** One capsule, two publishers, one key: both can make a version, unless there is room for one only. */
  lemma SharedKeyExample()
    ensures Initial(TWO_PUBLISHERS) && LATE.key == SAME_KEY.key && CanBothSucceed(TWO_PUBLISHERS, 0, 1)
    ensures Initial(ONE_TO_GO) && !CanBothSucceed(ONE_TO_GO, 0, 1)
  {
    TwoPublishersInitial();
    TwoPublishersReady(TWO_PUBLISHERS);
    SharedKeyIff(TWO_PUBLISHERS, 0, 1);
    OneToGoInitial();
    TwoPublishersReady(ONE_TO_GO);
    SharedKeyIff(ONE_TO_GO, 0, 1);
  }
}
