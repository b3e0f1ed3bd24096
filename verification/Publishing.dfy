/**
 * Concurrent publishing. A publisher loads the capsule and checks the version limit, stores its
 * text in the write-once store, looks up its key, looks the capsule up again, looks for its content
 * hash, looks for its blob, commits, and records its key; between any two of these steps other
 * publishers and status updates, creates and deletions may act. The unique key on capsule and
 * version number is what keeps the result in order.
 */
module Publishing {
  import opened Wrappers
  import opened RegistryModels
  import opened CapsuleRepository
  import opened CapsuleRegistry
  import opened RegistryContent
  import opened AuditTrail
  import WormStore

  /**
   * Where a publisher stands, with the latest version and the status it has loaded. Service and
   * repository look the capsule up in one session: the second lookup finds out whether the row is
   * still there, and hands back the object of the first one as it was loaded.
   */
  datatype Phase =
    | Arrived
    | Checked(latest: nat, status: Status)
    | Stored(latest: nat, status: Status)
    | KeyKnown(number: nat)
    | KeyUnknown(latest: nat, status: Status)
    | Read(latest: nat)
    | HashClear(latest: nat)
    | Ready(latest: nat, newBlob: bool)
    | Committed(number: nat)
    | Recorded(number: nat)
    | Replayed(number: nat)
    | Refused

  datatype Publisher = Publisher(request: NewVersion, phase: Phase)

  /** `limit` is the service's version limit; `ledger` holds every version ever committed here by a publisher, with its committer and hash. */
  datatype System = System(
    db: Db,
    results: map<string, Remembered>,
    files: WormStore.Files,
    limit: int,
    publishers: map<nat, Publisher>,
    ledger: map<(string, nat), (nat, string)>)

  datatype Action =
    | Advance(who: nat)
    | ChangeStatus(id: string, status: Status, actor: string, etag: string)
    | CreateNew(request: NewCapsule)
    | Delete(id: string, actor: string)

  function WorldOf(s: System): World {
    World(Store(s.db, s.results), s.files)
  }

  function Moved(s: System, who: nat, phase: Phase): System
    requires who in s.publishers
  {
    s.(publishers := s.publishers[who := s.publishers[who].(phase := phase)])
  }

  /** One step of one publisher. */
  function AdvanceOne(s: System, who: nat): System {
    if who !in s.publishers then s
    else
      var r := s.publishers[who].request;
      match s.publishers[who].phase
      case Arrived =>
        var c := FindCapsule(s.db, r.tenant, r.id);
        Moved(s, who, if c.None? || c.value.latestVersion >= s.limit then Refused else Checked(c.value.latestVersion, c.value.status))
      case Checked(latest, status) =>
        var (files, stored) := WormStore.Store(s.files, r.tenant, r.hash, r.text);
        Moved(s, who, if stored then Stored(latest, status) else Refused).(files := files)
      case Stored(latest, status) =>
        Moved(s, who, if r.key in s.results then KeyKnown(s.results[r.key].version) else KeyUnknown(latest, status))
      case KeyKnown(number) =>
        Moved(s, who, if FindVersion(s.db, r.tenant, r.id, number).None? then Refused else Replayed(number))
      case KeyUnknown(latest, status) =>
        Moved(s, who, if FindCapsule(s.db, r.tenant, r.id).None? || status == Deleted then Refused else Read(latest))
      case Read(latest) =>
        Moved(s, who, if HashPublished(s.db, r.tenant, r.id, r.hash) then Refused else HashClear(latest))
      case HashClear(latest) =>
        Moved(s, who, Ready(latest, (r.tenant, r.hash) !in s.db.blobs))
      case Ready(latest, newBlob) =>
        var committed := ApplyAll(s.db, PublishRows(r, latest + 1, newBlob));
        if committed.None? then Moved(s, who, Refused)
        else
          Moved(s, who, Committed(latest + 1))
            .(db := committed.value, ledger := s.ledger[(r.id, latest + 1) := (who, r.hash)])
      case Committed(number) =>
        Moved(s, who, Recorded(number)).(results := s.results[r.key := Remembered(r.id, number)])
      case Recorded(_) => s
      case Replayed(_) => s
      case Refused => s
  }

  /** One action. A create stores its text and then commits or not, in one step; it may take an id that a deleted capsule had. */
  function Step(s: System, a: Action): System {
    match a
    case Advance(who) => AdvanceOne(s, who)
    case ChangeStatus(id, status, actor, etag) =>
      var o := ApplyAll(s.db, StatusRows(id, status, actor, etag));
      if o.None? then s else s.(db := o.value)
    case CreateNew(c) =>
      var (files, stored) := WormStore.Store(s.files, c.tenant, c.hash, c.text);
      var o := ApplyAll(s.db, CreateRows(s.db, c));
      if !stored || o.None? then s.(files := files) else s.(db := o.value, files := files)
    case Delete(id, actor) =>
      var o := ApplyAll(s.db, DeleteRows(id, actor));
      if o.None? then s else s.(db := o.value)
  }

  function Run(s: System, schedule: seq<Action>): System {
    if schedule == [] then s
    else Step(Run(s, schedule[..|schedule| - 1]), schedule[|schedule| - 1])
  }

  ghost predicate TablesFit(s: System) {
    Consistent(s.db) && Faithful(s.db) && ContentFits(WorldOf(s))
  }

  /** Any number of publishers has just arrived at a consistent registry. */
  ghost predicate Initial(s: System) {
    TablesFit(s) && s.ledger == map[] && forall who :: who in s.publishers ==> s.publishers[who].phase.Arrived?
  }

  predicate HashLooked(p: Phase) {
    p.HashClear? || p.Ready?
  }

  /** Past the second lookup, and past the look for the content hash. */
  predicate LookedTwice(p: Phase) {
    p.Read? || HashLooked(p)
  }

  predicate PastStore(p: Phase) {
    p.Stored? || p.KeyUnknown? || LookedTwice(p)
  }

  /** Between loading the capsule and committing. */
  predicate InFlight(p: Phase) {
    p.Checked? || PastStore(p)
  }

  /** Not on the way to a commit, or not any more. */
  predicate Over(p: Phase) {
    !p.Arrived? && !InFlight(p)
  }

  /** What a publisher in flight still knows about the capsule, if that is still there; before its second lookup, if that is still its tenant's. */
  ghost predicate StillTrue(db: Db, r: NewVersion, p: Phase)
    requires InFlight(p)
  {
    && p.latest >= 1
    && (p.Ready? && !p.newBlob ==> (r.tenant, r.hash) in db.blobs)
    && (r.id in db.capsules ==>
          && (LookedTwice(p) ==> db.capsules[r.id].tenant == r.tenant)
          && (db.capsules[r.id].tenant == r.tenant ==> p.latest <= db.capsules[r.id].latestVersion)
          && (HashLooked(p) ==> forall n: nat :: n <= p.latest && (r.id, n) in db.versions ==> db.versions[(r.id, n)].hash != r.hash))
  }

  ghost predicate PublisherFits(db: Db, files: WormStore.Files, b: Publisher) {
    && (PastStore(b.phase) ==> HasFile(files, b.request.tenant, b.request.hash, b.request.text))
    && (InFlight(b.phase) ==> StillTrue(db, b.request, b.phase))
  }

  ghost predicate PublishersFit(s: System) {
    forall who :: who in s.publishers ==> PublisherFits(s.db, s.files, s.publishers[who])
  }

  /** The tables are in order, match the write-once files, and what the publishers in flight have read still holds. */
  ghost predicate Invariant(s: System) {
    TablesFit(s) && PublishersFit(s)
  }

  /** The capsule is still there with the latest version the publisher read, and its blob, if it brings one, is still missing and not empty. */
  predicate LockHolds(db: Db, r: NewVersion, p: Phase)
    requires p.Ready?
  {
    && r.id in db.capsules && db.capsules[r.id].latestVersion == p.latest
    && (p.newBlob ==> (r.tenant, r.hash) !in db.blobs && r.text != "")
  }

  /** The optimistic lock: a publisher's commit goes through exactly when nothing it read about versions has changed. The capsule's status is not looked at again. */
  lemma CommitSucceedsIff(db: Db, r: NewVersion, p: Phase)
    requires NumberedAt(db, r.id) && p.Ready? && StillTrue(db, r, p)
    ensures ApplyAll(db, PublishRows(r, p.latest + 1, p.newBlob)).Some? <==> LockHolds(db, r, p)
  {
    PublishRowsApply(db, r, p.latest + 1, p.newBlob);
  }

  /** Content that no version up to the latest has is content the capsule does not have. */
  lemma NewToCapsule(db: Db, r: NewVersion)
    requires NumberedAt(db, r.id) && r.id in db.capsules
    requires forall n: nat :: n <= db.capsules[r.id].latestVersion && (r.id, n) in db.versions ==> db.versions[(r.id, n)].hash != r.hash
    ensures forall k :: k in db.versions && k.0 == r.id ==> db.versions[k].hash != r.hash
  {
    forall k | k in db.versions && k.0 == r.id
      ensures db.versions[k].hash != r.hash
    {
      assert k == (r.id, k.1);
    }
  }

  /** A commit that goes through does exactly what publishing in one atomic step would have done. */
  lemma CommitIsAtomicPublish(db: Db, r: NewVersion, p: Phase)
    requires NumberedAt(db, r.id) && p.Ready? && StillTrue(db, r, p) && LockHolds(db, r, p)
    ensures !BlobRefused(db, r.tenant, r.hash, r.text)
    ensures ApplyAll(db, PublishRows(r, p.latest + 1, p.newBlob)) == Some(Published(db, r))
  {
    PublishCommits(db, r);
  }

  /** And its content is new to the capsule: nothing was committed since the publisher looked. */
  lemma CommitIsNewContent(db: Db, r: NewVersion, p: Phase)
    requires NumberedAt(db, r.id) && p.Ready? && StillTrue(db, r, p)
    requires r.id in db.capsules && db.capsules[r.id].latestVersion == p.latest
    ensures forall k :: k in db.versions && k.0 == r.id ==> db.versions[k].hash != r.hash
  {
    NewToCapsule(db, r);
  }

  /** A publisher's knowledge survives whatever change the tables go through meanwhile. */
  ghost predicate Later(db: Db, db': Db, id: string) {
    && (id in db'.capsules ==> id in db.capsules)
    && (forall k :: k in db.blobs ==> k in db'.blobs)
    && (id in db'.capsules ==>
          && db'.capsules[id].tenant == db.capsules[id].tenant
          && db.capsules[id].latestVersion <= db'.capsules[id].latestVersion
          && (forall n: nat :: (id, n) in db.versions ==> (id, n) in db'.versions && db'.versions[(id, n)] == db.versions[(id, n)])
          && (forall n: nat :: (id, n) in db'.versions && (id, n) !in db.versions ==> n > db.capsules[id].latestVersion))
  }

  lemma LaterStillTrue(db: Db, db': Db, r: NewVersion, p: Phase)
    requires InFlight(p) && StillTrue(db, r, p) && Later(db, db', r.id)
    ensures StillTrue(db', r, p)
  {
    if r.id in db'.capsules && HashLooked(p) {
      forall n: nat | n <= p.latest && (r.id, n) in db'.versions
        ensures db'.versions[(r.id, n)].hash != r.hash
      {
        assert (r.id, n) in db.versions;
      }
    }
  }

  lemma PublishedIsLater(db: Db, r: NewVersion, id: string)
    requires r.id in db.capsules && (r.id, db.capsules[r.id].latestVersion + 1) !in db.versions
    ensures Later(db, Published(db, r), id)
  {
  }

  lemma StatusSetIsLater(db: Db, id0: string, status: Status, actor: string, etag: string, id: string)
    requires id0 in db.capsules
    ensures Later(db, StatusSet(db, id0, status, actor, etag), id)
  {
  }

  lemma CreatedIsLater(db: Db, r: NewCapsule, id: string)
    requires id != r.Id()
    ensures Later(db, Created(db, r), id)
  {
  }

  lemma RemovalIsLater(db: Db, gone: string, id: string)
    ensures Later(db, WithoutCapsule(db, gone), id)
  {
  }

  lemma PublisherKeeps(db: Db, files: WormStore.Files, db': Db, files': WormStore.Files, b: Publisher)
    requires PublisherFits(db, files, b) && WormStore.FilesKept(files, files')
    requires InFlight(b.phase) ==> Later(db, db', b.request.id)
    ensures PublisherFits(db', files', b)
  {
    if PastStore(b.phase) {
      assert WormStore.KeptAt(files, files', b.request.tenant, b.request.hash);
    }
    if InFlight(b.phase) {
      LaterStillTrue(db, db', b.request, b.phase);
    }
  }

  /** A change that was not made by a publisher. */
  lemma EnvironmentKeeps(s: System, db': Db, files': WormStore.Files)
    requires Invariant(s) && TablesFit(s.(db := db', files := files')) && WormStore.FilesKept(s.files, files')
    requires forall who :: who in s.publishers && InFlight(s.publishers[who].phase) ==> Later(s.db, db', s.publishers[who].request.id)
    ensures Invariant(s.(db := db', files := files'))
  {
    forall who | who in s.publishers
      ensures PublisherFits(db', files', s.publishers[who])
    {
      PublisherKeeps(s.db, s.files, db', files', s.publishers[who]);
    }
  }

  lemma StatusKeeps(s: System, id: string, status: Status, actor: string, etag: string)
    requires Invariant(s) && id in s.db.capsules
    ensures Invariant(s.(db := StatusSet(s.db, id, status, actor, etag)))
  {
    var db' := StatusSet(s.db, id, status, actor, etag);
    StatusSetIsConsistent(s.db, id, status, actor, etag);
    StatusSetIsFaithful(s.db, id, status, actor, etag);
    FilesStillFit(WorldOf(s), Store(db', s.results), s.files);
    forall i: string
      ensures Later(s.db, db', i)
    {
      StatusSetIsLater(s.db, id, status, actor, etag, i);
    }
    EnvironmentKeeps(s, db', s.files);
  }

  lemma DeletionKeeps(s: System, id: string)
    requires Invariant(s)
    ensures Invariant(s.(db := WithoutCapsule(s.db, id)))
  {
    var db' := WithoutCapsule(s.db, id);
    DeleteKeepsConsistent(s.db, id);
    RemovalIsFaithful(s.db, id);
    FilesStillFit(WorldOf(s), Store(db', s.results), s.files);
    forall i: string
      ensures Later(s.db, db', i)
    {
      RemovalIsLater(s.db, id, i);
    }
    EnvironmentKeeps(s, db', s.files);
  }

  /** A create that is not refused by the write-once store or by a constraint. */
  predicate GoesThrough(s: System, c: NewCapsule) {
    !CreateRefused(s.db, c) && WormStore.Store(s.files, c.tenant, c.hash, c.text).1
  }

  function FilesAfter(s: System, c: NewCapsule): WormStore.Files {
    WormStore.Store(s.files, c.tenant, c.hash, c.text).0
  }

  /**
   * What a create that takes the publisher's capsule id must be like for the publisher's knowledge
   * to stay true. Before its second lookup the publisher will notice a change of tenant itself.
   */
  predicate Compatible(c: NewCapsule, r: NewVersion, p: Phase)
    requires InFlight(p)
  {
    if LookedTwice(p) then c.tenant == r.tenant && p.latest == 1 && (HashLooked(p) ==> c.hash != r.hash)
    else c.tenant == r.tenant ==> p.latest == 1
  }

  lemma StillTrueAfterCreateIff(db: Db, c: NewCapsule, r: NewVersion, p: Phase)
    requires VersionsNumbered(db) && c.Id() !in db.capsules && InFlight(p) && StillTrue(db, r, p) && r.id == c.Id()
    ensures StillTrue(Created(db, c), r, p) <==> Compatible(c, r, p)
  {
    var db' := Created(db, c);
    assert db'.versions[(r.id, 1)].hash == c.hash;
    assert forall n: nat :: (r.id, n) in db'.versions ==> n == 1;
  }

  /** Every publisher in flight on the id that the create takes can live with it. */
  ghost predicate Harmless(s: System, c: NewCapsule) {
    forall who :: who in s.publishers && InFlight(s.publishers[who].phase) && s.publishers[who].request.id == c.Id()
      ==> Compatible(c, s.publishers[who].request, s.publishers[who].phase)
  }

  lemma CreatedTablesFit(s: System, c: NewCapsule)
    requires TablesFit(s) && GoesThrough(s, c)
    ensures TablesFit(s.(db := Created(s.db, c), files := FilesAfter(s, c)))
  {
    CreatedIsConsistent(s.db, c);
    CreatedIsFaithful(s.db, c);
    StoringFits(WorldOf(s), c.tenant, c.hash, c.text, Created(s.db, c));
  }

  lemma CreateFitsIff(s: System, c: NewCapsule, who: nat)
    requires Invariant(s) && GoesThrough(s, c) && who in s.publishers
    ensures var b := s.publishers[who];
      PublisherFits(Created(s.db, c), FilesAfter(s, c), b) <==>
      (InFlight(b.phase) && b.request.id == c.Id() ==> Compatible(c, b.request, b.phase))
  {
    var b := s.publishers[who];
    WormStore.StoreKeeps(s.files, c.tenant, c.hash, c.text);
    if PastStore(b.phase) {
      assert WormStore.KeptAt(s.files, FilesAfter(s, c), b.request.tenant, b.request.hash);
    }
    if InFlight(b.phase) {
      if b.request.id == c.Id() {
        StillTrueAfterCreateIff(s.db, c, b.request, b.phase);
      } else {
        CreatedIsLater(s.db, c, b.request.id);
        LaterStillTrue(s.db, Created(s.db, c), b.request, b.phase);
      }
    }
  }

  /** A create that goes through leaves everything in order exactly when it is harmless to the publishers in flight on its id. */
  lemma CreateKeepsIff(s: System, c: NewCapsule)
    requires Invariant(s) && GoesThrough(s, c)
    ensures Invariant(s.(db := Created(s.db, c), files := FilesAfter(s, c))) <==> Harmless(s, c)
  {
    CreatedTablesFit(s, c);
    forall who | who in s.publishers
      ensures var b := s.publishers[who];
        PublisherFits(Created(s.db, c), FilesAfter(s, c), b) <==>
        (InFlight(b.phase) && b.request.id == c.Id() ==> Compatible(c, b.request, b.phase))
    {
      CreateFitsIff(s, c, who);
    }
  }

  /** A publisher's step that changes neither tables nor files. */
  lemma MoveKeeps(s: System, who: nat, phase: Phase, results': map<string, Remembered>)
    requires Invariant(s) && who in s.publishers
    requires PublisherFits(s.db, s.files, s.publishers[who].(phase := phase))
    ensures Invariant(Moved(s, who, phase).(results := results'))
  {
    FilesStillFit(WorldOf(s), Store(s.db, results'), s.files);
  }

  lemma LaterItself(db: Db, id: string)
    ensures Later(db, db, id)
  {
  }

  /** The second step: the text goes to the write-once store. */
  lemma StoreStepKeeps(s: System, who: nat)
    requires Invariant(s) && who in s.publishers && s.publishers[who].phase.Checked?
    ensures Invariant(AdvanceOne(s, who))
  {
    var (r, p) := (s.publishers[who].request, s.publishers[who].phase);
    var (files, stored) := WormStore.Store(s.files, r.tenant, r.hash, r.text);
    var s' := Moved(s, who, if stored then Stored(p.latest, p.status) else Refused).(files := files);
    WormStore.StoreKeeps(s.files, r.tenant, r.hash, r.text);
    FilesStillFit(WorldOf(s), Store(s.db, s.results), files);
    forall other | other in s.publishers
      ensures PublisherFits(s.db, files, s'.publishers[other])
    {
      assert PublisherFits(s.db, s.files, s.publishers[other]);
      if other != who {
        LaterItself(s.db, s.publishers[other].request.id);
        PublisherKeeps(s.db, s.files, s.db, files, s.publishers[other]);
      }
    }
  }

  /** Every version of the capsule has its tenant. */
  ghost predicate TenantAt(db: Db, id: string) {
    forall n: nat :: (id, n) in db.versions && id in db.capsules ==> db.versions[(id, n)].tenant == db.capsules[id].tenant
  }

  lemma NotPublished(db: Db, r: NewVersion)
    requires TenantAt(db, r.id) && r.id in db.capsules && db.capsules[r.id].tenant == r.tenant
    requires !HashPublished(db, r.tenant, r.id, r.hash)
    ensures forall n: nat :: (r.id, n) in db.versions ==> db.versions[(r.id, n)].hash != r.hash
  {
    forall n: nat | (r.id, n) in db.versions
      ensures db.versions[(r.id, n)].hash != r.hash
    {
      assert (r.id, n).0 == r.id && db.versions[(r.id, n)].tenant == r.tenant;
    }
  }

  /** What a publisher loads of the capsule is true when it loads it. */
  lemma LoadingFits(db: Db, r: NewVersion)
    requires NumberedAt(db, r.id)
    ensures var c := FindCapsule(db, r.tenant, r.id);
      c.Some? ==> StillTrue(db, r, Checked(c.value.latestVersion, c.value.status))
  {
  }

  /** The second lookup makes sure that the row is still there and the tenant's. */
  lemma SecondLookupFits(db: Db, r: NewVersion, latest: nat, status: Status)
    requires StillTrue(db, r, KeyUnknown(latest, status)) && FindCapsule(db, r.tenant, r.id).Some?
    ensures StillTrue(db, r, Read(latest))
  {
  }

  lemma HashLookupFits(db: Db, r: NewVersion, latest: nat)
    requires TenantAt(db, r.id) && StillTrue(db, r, Read(latest))
    requires !HashPublished(db, r.tenant, r.id, r.hash)
    ensures StillTrue(db, r, HashClear(latest))
  {
    if r.id in db.capsules {
      NotPublished(db, r);
    }
  }

  /** Nothing but the publisher's phase and the idempotency results. */
  ghost predicate OnlyMoves(s: System, s': System, who: nat)
    requires who in s.publishers
  {
    who in s'.publishers && s' == Moved(s, who, s'.publishers[who].phase).(results := s'.results)
  }

  /** What the publisher knows after the step is true. */
  ghost predicate Informed(s: System, s': System, who: nat)
    requires who in s.publishers && who in s'.publishers
  {
    InFlight(s'.publishers[who].phase) ==> StillTrue(s.db, s.publishers[who].request, s'.publishers[who].phase)
  }

  lemma CheckInforms(s: System, who: nat)
    requires who in s.publishers && s.publishers[who].phase.Arrived? && NumberedAt(s.db, s.publishers[who].request.id)
    ensures var s' := AdvanceOne(s, who);
      OnlyMoves(s, s', who) && Informed(s, s', who) && !PastStore(s'.publishers[who].phase)
  {
    LoadingFits(s.db, s.publishers[who].request);
  }

  lemma KeyInforms(s: System, who: nat)
    requires who in s.publishers && s.publishers[who].phase.Stored?
    requires StillTrue(s.db, s.publishers[who].request, s.publishers[who].phase)
    ensures var s' := AdvanceOne(s, who); OnlyMoves(s, s', who) && Informed(s, s', who)
  {
  }

  lemma SecondLookupInforms(s: System, who: nat)
    requires who in s.publishers && s.publishers[who].phase.KeyUnknown?
    requires StillTrue(s.db, s.publishers[who].request, s.publishers[who].phase)
    ensures var s' := AdvanceOne(s, who); OnlyMoves(s, s', who) && Informed(s, s', who)
  {
    var (r, p) := (s.publishers[who].request, s.publishers[who].phase);
    if FindCapsule(s.db, r.tenant, r.id).Some? {
      SecondLookupFits(s.db, r, p.latest, p.status);
    }
  }

  lemma HashInforms(s: System, who: nat)
    requires who in s.publishers && s.publishers[who].phase.Read? && TenantAt(s.db, s.publishers[who].request.id)
    requires StillTrue(s.db, s.publishers[who].request, s.publishers[who].phase)
    ensures var s' := AdvanceOne(s, who); OnlyMoves(s, s', who) && Informed(s, s', who)
  {
    var (r, p) := (s.publishers[who].request, s.publishers[who].phase);
    if !HashPublished(s.db, r.tenant, r.id, r.hash) {
      HashLookupFits(s.db, r, p.latest);
    }
  }

  lemma BlobInforms(s: System, who: nat)
    requires who in s.publishers && s.publishers[who].phase.HashClear?
    requires StillTrue(s.db, s.publishers[who].request, s.publishers[who].phase)
    ensures var s' := AdvanceOne(s, who); OnlyMoves(s, s', who) && Informed(s, s', who)
  {
  }

  lemma EndInforms(s: System, who: nat)
    requires who in s.publishers && Over(s.publishers[who].phase)
    ensures var s' := AdvanceOne(s, who); OnlyMoves(s, s', who) && Over(s'.publishers[who].phase)
  {
  }

  /** Any step but storing and committing. */
  lemma LookInforms(s: System, who: nat)
    requires who in s.publishers && !s.publishers[who].phase.Checked? && !s.publishers[who].phase.Ready?
    requires NumberedAt(s.db, s.publishers[who].request.id) && TenantAt(s.db, s.publishers[who].request.id)
    requires InFlight(s.publishers[who].phase) ==> StillTrue(s.db, s.publishers[who].request, s.publishers[who].phase)
    ensures var s' := AdvanceOne(s, who);
      && OnlyMoves(s, s', who) && Informed(s, s', who)
      && (PastStore(s'.publishers[who].phase) ==> PastStore(s.publishers[who].phase))
  {
    match s.publishers[who].phase
    case Arrived => CheckInforms(s, who);
    case Stored(_, _) => KeyInforms(s, who);
    case KeyUnknown(_, _) => SecondLookupInforms(s, who);
    case Read(_) => HashInforms(s, who);
    case HashClear(_) => BlobInforms(s, who);
    case _ => EndInforms(s, who);
  }

  lemma CapsuleFacts(db: Db, id: string)
    requires Consistent(db)
    ensures NumberedAt(db, id) && TenantAt(db, id)
  {
  }

  lemma CommitFacts(s: System, who: nat)
    requires Invariant(s) && who in s.publishers
    ensures VersionsNumbered(s.db) && TablesFit(s) && PublisherFits(s.db, s.files, s.publishers[who])
  {
  }

  lemma LookKeeps(s: System, who: nat)
    requires Invariant(s) && who in s.publishers && !s.publishers[who].phase.Checked? && !s.publishers[who].phase.Ready?
    ensures Invariant(AdvanceOne(s, who))
  {
    var s' := AdvanceOne(s, who);
    CommitFacts(s, who);
    CapsuleFacts(s.db, s.publishers[who].request.id);
    LookInforms(s, who);
    MoveKeeps(s, who, s'.publishers[who].phase, s'.results);
  }

  /** The system after `who` has committed its request as the next version. */
  function AfterCommit(s: System, who: nat): System
    requires who in s.publishers && s.publishers[who].request.id in s.db.capsules
  {
    var r := s.publishers[who].request;
    var number := s.db.capsules[r.id].latestVersion + 1;
    Moved(s, who, Committed(number)).(db := Published(s.db, r), ledger := s.ledger[(r.id, number) := (who, r.hash)])
  }

  /** The capsule is there, is the tenant's, and does not have the content. */
  ghost predicate CanCommit(db: Db, r: NewVersion) {
    && r.id in db.capsules && db.capsules[r.id].tenant == r.tenant && !BlobRefused(db, r.tenant, r.hash, r.text)
    && (forall k :: k in db.versions && k.0 == r.id ==> db.versions[k].hash != r.hash)
  }

  /** A commit step either changes nothing but the publisher's fate, or is the atomic publish of content that is new to the capsule. */
  lemma CommitStep(s: System, who: nat) returns (success: bool)
    requires who in s.publishers && NumberedAt(s.db, s.publishers[who].request.id) && s.publishers[who].phase.Ready?
    requires StillTrue(s.db, s.publishers[who].request, s.publishers[who].phase)
    ensures !success ==> AdvanceOne(s, who) == Moved(s, who, Refused)
    ensures success ==> CanCommit(s.db, s.publishers[who].request) && AdvanceOne(s, who) == AfterCommit(s, who)
  {
    var (r, p) := (s.publishers[who].request, s.publishers[who].phase);
    success := LockHolds(s.db, r, p);
    CommitSucceedsIff(s.db, r, p);
    if success {
      CommitIsAtomicPublish(s.db, r, p);
      CommitIsNewContent(s.db, r, p);
    }
  }

  lemma CommitKeepsTables(db: Db, r: NewVersion)
    requires Consistent(db) && Faithful(db) && CanCommit(db, r)
    ensures Consistent(Published(db, r)) && Faithful(Published(db, r))
  {
    assert !HashPublished(db, r.tenant, r.id, r.hash);
    PublishedIsConsistent(db, r);
    PublishedIsFaithful(db, r);
  }

  lemma CommitKeepsPublisher(db: Db, files: WormStore.Files, r: NewVersion, b: Publisher)
    requires VersionsNumbered(db) && r.id in db.capsules && PublisherFits(db, files, b)
    ensures PublisherFits(Published(db, r), files, b)
  {
    NextIsFree(db, r.id);
    PublishedIsLater(db, r, b.request.id);
    PublisherKeeps(db, files, Published(db, r), files, b);
  }

  lemma AfterCommitTables(s: System, who: nat)
    requires TablesFit(s) && who in s.publishers
    requires var r := s.publishers[who].request; CanCommit(s.db, r) && HasFile(s.files, r.tenant, r.hash, r.text)
    ensures TablesFit(AfterCommit(s, who))
  {
    var r := s.publishers[who].request;
    CommitKeepsTables(s.db, r);
    NewBlobFits(WorldOf(s), r.tenant, r.hash, r.text, Store(Published(s.db, r), s.results));
  }

  lemma AfterCommitPublisher(s: System, who: nat, other: nat)
    requires VersionsNumbered(s.db) && who in s.publishers && s.publishers[who].request.id in s.db.capsules
    requires other in s.publishers && PublisherFits(s.db, s.files, s.publishers[other])
    ensures var s' := AfterCommit(s, who); other in s'.publishers && PublisherFits(s'.db, s'.files, s'.publishers[other])
  {
    if other != who {
      CommitKeepsPublisher(s.db, s.files, s.publishers[who].request, s.publishers[other]);
    }
  }

  lemma AfterCommitPublishers(s: System, who: nat)
    requires VersionsNumbered(s.db) && PublishersFit(s) && who in s.publishers && s.publishers[who].request.id in s.db.capsules
    ensures PublishersFit(AfterCommit(s, who))
  {
    assert AfterCommit(s, who).publishers.Keys == s.publishers.Keys;
    forall other | other in s.publishers
      ensures var s' := AfterCommit(s, who); other in s'.publishers && PublisherFits(s'.db, s'.files, s'.publishers[other])
    {
      AfterCommitPublisher(s, who, other);
    }
  }

  lemma AfterCommitKeeps(s: System, who: nat)
    requires Invariant(s) && who in s.publishers && s.publishers[who].phase.Ready? && CanCommit(s.db, s.publishers[who].request)
    ensures Invariant(AfterCommit(s, who))
  {
    CommitFacts(s, who);
    AfterCommitTables(s, who);
    AfterCommitPublishers(s, who);
  }

  lemma CommitStepKeeps(s: System, who: nat)
    requires Invariant(s) && who in s.publishers && s.publishers[who].phase.Ready?
    ensures Invariant(AdvanceOne(s, who))
  {
    CommitFacts(s, who);
    var success := CommitStep(s, who);
    if success {
      AfterCommitKeeps(s, who);
    } else {
      MoveKeeps(s, who, Refused, s.results);
      assert Moved(s, who, Refused).(results := s.results) == Moved(s, who, Refused);
    }
  }

  lemma AdvanceKeeps(s: System, who: nat)
    requires Invariant(s)
    ensures Invariant(AdvanceOne(s, who))
  {
    if who in s.publishers {
      match s.publishers[who].phase
      case Checked(_, _) => StoreStepKeeps(s, who);
      case Ready(_, _) => CommitStepKeeps(s, who);
      case _ => LookKeeps(s, who);
    }
  }

  lemma StatusStep(s: System, id: string, status: Status, actor: string, etag: string)
    ensures Step(s, ChangeStatus(id, status, actor, etag)) ==
            if id in s.db.capsules then s.(db := StatusSet(s.db, id, status, actor, etag)) else s
  {
    if id in s.db.capsules {
      StatusCommits(s.db, id, status, actor, etag);
    } else {
      assert Apply(s.db, StatusRows(id, status, actor, etag)[0]).None?;
    }
  }

  lemma CreateStep(s: System, c: NewCapsule)
    requires VersionsNumbered(s.db)
    ensures Step(s, CreateNew(c)) ==
            if GoesThrough(s, c) then s.(db := Created(s.db, c), files := FilesAfter(s, c)) else s.(files := FilesAfter(s, c))
  {
    VersionsOfNobody(s.db, c.Id());
    CreateCommits(s.db, c);
  }

  lemma DeleteStep(s: System, id: string, actor: string)
    ensures Step(s, Delete(id, actor)) ==
            if id in s.db.capsules then s.(db := WithoutCapsule(s.db, id)) else s
  {
    if id in s.db.capsules {
      DeleteCommits(s.db, id, actor);
    } else {
      assert Apply(s.db, DeleteRows(id, actor)[0]).None?;
    }
  }

  lemma RefusedCreateKeeps(s: System, c: NewCapsule)
    requires Invariant(s)
    ensures Invariant(s.(files := FilesAfter(s, c)))
  {
    WormStore.StoreKeeps(s.files, c.tenant, c.hash, c.text);
    FilesStillFit(WorldOf(s), Store(s.db, s.results), FilesAfter(s, c));
    forall i: string
      ensures Later(s.db, s.db, i)
    {
      LaterItself(s.db, i);
    }
    EnvironmentKeeps(s, s.db, FilesAfter(s, c));
    assert s.(db := s.db, files := FilesAfter(s, c)) == s.(files := FilesAfter(s, c));
  }

  /** If the action is a create that goes through, it is harmless. */
  ghost predicate Allowed(s: System, a: Action) {
    a.CreateNew? && GoesThrough(s, a.request) ==> Harmless(s, a.request)
  }

  /** One action keeps everything in order exactly when it is not a create that is incompatible with a publisher in flight on its id. */
  lemma StepKeepsIff(s: System, a: Action)
    requires Invariant(s)
    ensures Invariant(Step(s, a)) <==> Allowed(s, a)
  {
    match a
    case Advance(who) => AdvanceKeeps(s, who);
    case ChangeStatus(id, status, actor, etag) =>
      StatusStep(s, id, status, actor, etag);
      if id in s.db.capsules { StatusKeeps(s, id, status, actor, etag); }
    case CreateNew(c) =>
      assert VersionsNumbered(s.db);
      CreateStep(s, c);
      if GoesThrough(s, c) { CreateKeepsIff(s, c); } else { RefusedCreateKeeps(s, c); }
    case Delete(id, actor) =>
      DeleteStep(s, id, actor);
      if id in s.db.capsules { DeletionKeeps(s, id); }
  }

  /** At every point of the schedule, what comes next is allowed. */
  ghost predicate AllAllowed(s: System, schedule: seq<Action>) {
    forall k :: 0 <= k < |schedule| ==> Allowed(Run(s, schedule[..k]), schedule[k])
  }

  lemma AllowedInit(s: System, schedule: seq<Action>)
    requires schedule != []
    ensures var init := schedule[..|schedule| - 1];
      AllAllowed(s, schedule) <==> AllAllowed(s, init) && Allowed(Run(s, init), schedule[|schedule| - 1])
  {
    var init := schedule[..|schedule| - 1];
    assert forall k :: 0 <= k <= |init| ==> init[..k] == schedule[..k];
    assert schedule[..|init|] == init;
    if AllAllowed(s, schedule) {
      forall k | 0 <= k < |init|
        ensures Allowed(Run(s, init[..k]), init[k])
      {
        assert Allowed(Run(s, schedule[..k]), schedule[k]);
      }
      assert Allowed(Run(s, schedule[..|init|]), schedule[|init|]);
    }
    if AllAllowed(s, init) && Allowed(Run(s, init), schedule[|schedule| - 1]) {
      forall k | 0 <= k < |schedule|
        ensures Allowed(Run(s, schedule[..k]), schedule[k])
      {
        if k < |init| {
          assert Allowed(Run(s, init[..k]), init[k]);
        }
      }
    }
  }

  lemma {:induction false} RunKeepsInvariant(s: System, schedule: seq<Action>)
    requires Initial(s) && AllAllowed(s, schedule)
    ensures Invariant(Run(s, schedule))
  {
    if schedule != [] {
      AllowedInit(s, schedule);
      RunKeepsInvariant(s, schedule[..|schedule| - 1]);
      StepKeepsIff(Run(s, schedule[..|schedule| - 1]), schedule[|schedule| - 1]);
    }
  }

  /** Everything is in order after every prefix of the schedule. */
  ghost predicate AlwaysInOrder(s: System, schedule: seq<Action>) {
    forall k :: 0 <= k <= |schedule| ==> Invariant(Run(s, schedule[..k]))
  }

  /**
   * An interleaving is in order all the way exactly when no create in it that goes through takes
   * the id of a publisher in flight which it is incompatible with.
   */
  lemma InOrderIff(s: System, schedule: seq<Action>)
    requires Initial(s)
    ensures AlwaysInOrder(s, schedule) <==> AllAllowed(s, schedule)
  {
    if AlwaysInOrder(s, schedule) {
      forall k | 0 <= k < |schedule|
        ensures Allowed(Run(s, schedule[..k]), schedule[k])
      {
        assert schedule[..k + 1][..k] == schedule[..k];
        assert Invariant(Run(s, schedule[..k])) && Invariant(Run(s, schedule[..k + 1]));
        StepKeepsIff(Run(s, schedule[..k]), schedule[k]);
      }
    }
    if AllAllowed(s, schedule) {
      forall k | 0 <= k <= |schedule|
        ensures Invariant(Run(s, schedule[..k]))
      {
        assert AllAllowed(s, schedule[..k]) by {
          forall j | 0 <= j < k
            ensures Allowed(Run(s, schedule[..k][..j]), schedule[..k][j])
          {
            assert schedule[..k][..j] == schedule[..j];
          }
        }
        RunKeepsInvariant(s, schedule[..k]);
      }
    }
  }

  ghost predicate Held(s: System, id: string) {
    exists who :: who in s.publishers && InFlight(s.publishers[who].phase) && s.publishers[who].request.id == id
  }

  /** No create takes an id while a publisher in flight holds it; ids of deleted capsules may be taken otherwise. */
  ghost predicate NoHeldIdTaken(s: System, schedule: seq<Action>) {
    forall k :: 0 <= k < |schedule| && schedule[k].CreateNew? ==> !Held(Run(s, schedule[..k]), schedule[k].request.Id())
  }

  /**
   * Every interleaving of any number of publishers with status updates, creates and deletions
   * keeps the registry consistent, provided no create takes an id that a publisher in flight
   * holds: each capsule's versions are exactly 1 to its latest version, with pairwise distinct
   * content hashes, each with its blob, its audit entries reproduce it, and blobs match the files.
   */
  lemma EveryInterleavingIsConsistent(s: System, schedule: seq<Action>)
    requires Initial(s) && NoHeldIdTaken(s, schedule)
    ensures var end := Run(s, schedule);
      Consistent(end.db) && Faithful(end.db) && ContentFits(WorldOf(end))
  {
    forall k | 0 <= k < |schedule|
      ensures Allowed(Run(s, schedule[..k]), schedule[k])
    {
      if schedule[k].CreateNew? {
        assert !Held(Run(s, schedule[..k]), schedule[k].request.Id());
      }
    }
    RunKeepsInvariant(s, schedule);
  }

  lemma {:induction false} RunAppend(s: System, first: seq<Action>, second: seq<Action>)
    ensures Run(s, first + second) == Run(Run(s, first), second)
  {
    if second == [] {
      assert first + second == first;
    } else {
      assert (first + second)[..|first + second| - 1] == first + second[..|second| - 1];
      RunAppend(s, first, second[..|second| - 1]);
    }
  }

  lemma RunOne(s: System, a: Action)
    ensures Run(s, [a]) == Step(s, a)
  {
    assert [a][..0] == [];
    assert Run(s, []) == s;
  }

  /** Steps of one publisher without interruption. */
  function GoOn(who: nat, n: nat): seq<Action> {
    if n == 0 then [] else [Advance(who)] + GoOn(who, n - 1)
  }

  lemma GoOnStep(s: System, who: nat, n: nat)
    requires n > 0
    ensures Run(s, GoOn(who, n)) == Run(AdvanceOne(s, who), GoOn(who, n - 1))
  {
    RunAppend(s, [Advance(who)], GoOn(who, n - 1));
    RunOne(s, Advance(who));
  }

  lemma GoOnNot(s: System, who: nat)
    ensures Run(s, GoOn(who, 0)) == s
  {
  }

  lemma {:induction false} GoOnSplit(who: nat, m: nat, n: nat)
    ensures GoOn(who, m + n) == GoOn(who, m) + GoOn(who, n)
  {
    if m > 0 {
      GoOnSplit(who, m - 1, n);
    }
  }

  lemma TwoSteps(s: System, who: nat, s1: System)
    requires s1 == AdvanceOne(s, who)
    ensures Run(s, GoOn(who, 2)) == AdvanceOne(s1, who)
  {
    GoOnStep(s, who, 2);
    GoOnStep(s1, who, 1);
    GoOnNot(AdvanceOne(s1, who), who);
  }
}
