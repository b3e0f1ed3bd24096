/** Whole runs of registry operations, each atomic, and the invariant every one of them keeps. */
module RegistryRuns {
  import opened Wrappers
  import opened RegistryModels
  import opened CapsuleRepository
  import opened CapsuleRegistry
  import opened RegistryContent
  import opened AuditTrail
  import WormStore

  datatype Op =
    | CreateOp(ctx: Context, create: CreateRequest)
    | PublishOp(ctx: Context, publish: PublishRequest)
    | StatusOp(ctx: Context, id: string, status: Status, expected: string, freshEtag: string)
    | RemoveOp(ctx: Context, id: string)

  datatype Reply = Receipted(receipt: Outcome<Receipt>) | Updated(capsule: Outcome<Capsule>) | Removed(done: Outcome<()>)

  function Step(cfg: Config, w: World, op: Op): (World, Reply) {
    match op
    case CreateOp(ctx, q) => var (w', o) := Create(cfg, w, ctx, q); (w', Receipted(o))
    case PublishOp(ctx, q) => var (w', o) := Publish(cfg, w, ctx, q); (w', Receipted(o))
    case StatusOp(ctx, id, status, expected, freshEtag) =>
      var (w', o) := SetStatus(w, ctx, id, status, expected, freshEtag); (w', Updated(o))
    case RemoveOp(ctx, id) => var (w', o) := Remove(w, ctx, id); (w', Removed(o))
  }

  function Run(cfg: Config, w: World, ops: seq<Op>): World {
    if ops == [] then w
    else Step(cfg, Run(cfg, w, ops[..|ops| - 1]), ops[|ops| - 1]).0
  }

  /** The operation made a new version (and possibly its capsule); replays do not count. */
  predicate Makes(cfg: Config, w: World, op: Op) {
    var r := Step(cfg, w, op).1;
    r.Receipted? && r.receipt.Ok? && r.receipt.value.created
  }

  function TextOf(op: Op): string
    requires op.CreateOp? || op.PublishOp?
  {
    if op.CreateOp? then op.create.text else op.publish.text
  }

  function KeyOf(op: Op): string
    requires op.CreateOp? || op.PublishOp?
  {
    if op.CreateOp? then op.create.key else op.publish.key
  }

  ghost predicate WithinLimit(cfg: Config, db: Db) {
    forall id :: id in db.capsules ==> db.capsules[id].latestVersion <= if cfg.maxVersions > 1 then cfg.maxVersions else 1
  }

  ghost predicate Sound(cfg: Config, w: World) {
    Consistent(w.store.db) && Faithful(w.store.db) && ContentFits(w) && WithinLimit(cfg, w.store.db)
  }

  lemma EmptyIsSound(cfg: Config)
    ensures Sound(cfg, EMPTY_WORLD)
  {
  }

  /** The tables before and after one operation differ by nothing or by exactly one of the four transitions. */
  datatype Change = Nothing | Creation(r: NewCapsule) | Publication(p: NewVersion) | StatusChange(id: string, status: Status, actor: string, etag: string) | Removal(gone: string)

  ghost predicate Possible(cfg: Config, db: Db, c: Change) {
    match c
    case Nothing => true
    case Creation(r) => !CreateRefused(db, r)
    case Publication(p) =>
      && p.id in db.capsules && db.capsules[p.id].tenant == p.tenant && db.capsules[p.id].latestVersion < cfg.maxVersions
      && !HashPublished(db, p.tenant, p.id, p.hash) && !BlobRefused(db, p.tenant, p.hash, p.text)
    case StatusChange(id, _, _, _) => id in db.capsules
    case Removal(gone) => gone in db.capsules
  }

  function Changed(db: Db, c: Change): Db
    requires c.Publication? ==> c.p.id in db.capsules
    requires c.StatusChange? ==> c.id in db.capsules
  {
    match c
    case Nothing => db
    case Creation(r) => Created(db, r)
    case Publication(p) => Published(db, p)
    case StatusChange(id, status, actor, etag) => StatusSet(db, id, status, actor, etag)
    case Removal(gone) => WithoutCapsule(db, gone)
  }

  /** Which of the four transitions an operation comes down to. */
  function ChangeOf(cfg: Config, w: World, op: Op): Change {
    match op
    case CreateOp(ctx, q) =>
      if Makes(cfg, w, op) then Creation(NewCapsuleOf(ctx, q, Admit(cfg, q.text).value)) else Nothing
    case PublishOp(ctx, q) =>
      if Makes(cfg, w, op) then Publication(NewVersionOf(ctx, q, Admit(cfg, q.text).value)) else Nothing
    case StatusOp(ctx, id, status, expected, freshEtag) =>
      if Step(cfg, w, op).1.capsule.Ok? then StatusChange(id, status, ctx.user, freshEtag) else Nothing
    case RemoveOp(ctx, id) =>
      if Step(cfg, w, op).1.done.Ok? then Removal(id) else Nothing
  }

  lemma CreateIsChange(cfg: Config, w: World, op: Op)
    requires op.CreateOp?
    ensures Possible(cfg, w.store.db, ChangeOf(cfg, w, op))
    ensures Step(cfg, w, op).0.store.db == Changed(w.store.db, ChangeOf(cfg, w, op))
  {
  }

  lemma PublishIsChange(cfg: Config, w: World, op: Op)
    requires op.PublishOp?
    ensures Possible(cfg, w.store.db, ChangeOf(cfg, w, op))
    ensures Step(cfg, w, op).0.store.db == Changed(w.store.db, ChangeOf(cfg, w, op))
  {
  }

  lemma StepIsChange(cfg: Config, w: World, op: Op)
    ensures Possible(cfg, w.store.db, ChangeOf(cfg, w, op))
    ensures Step(cfg, w, op).0.store.db == Changed(w.store.db, ChangeOf(cfg, w, op))
  {
    if op.CreateOp? {
      CreateIsChange(cfg, w, op);
    } else if op.PublishOp? {
      PublishIsChange(cfg, w, op);
    }
  }

  lemma ChangeKeepsConsistent(cfg: Config, db: Db, c: Change)
    requires Consistent(db) && Possible(cfg, db, c)
    ensures Consistent(Changed(db, c))
  {
    match c
    case Nothing =>
    case Creation(r) => CreatedIsConsistent(db, r);
    case Publication(p) => PublishedIsConsistent(db, p);
    case StatusChange(id, status, actor, etag) => StatusSetIsConsistent(db, id, status, actor, etag);
    case Removal(gone) => DeleteKeepsConsistent(db, gone);
  }

  lemma AuditsKnown(db: Db, id: string)
    requires Consistent(db) && id !in db.capsules
    ensures forall a :: a in db.audit ==> a.capsuleId != id
  {
  }

  lemma ChangeKeepsFaithful(cfg: Config, db: Db, c: Change)
    requires Consistent(db) && Faithful(db) && Possible(cfg, db, c)
    ensures Faithful(Changed(db, c))
  {
    match c
    case Nothing =>
    case Creation(r) =>
      AuditsKnown(db, r.Id());
      CreatedIsFaithful(db, r);
    case Publication(p) => PublishedIsFaithful(db, p);
    case StatusChange(id, status, actor, etag) => StatusSetIsFaithful(db, id, status, actor, etag);
    case Removal(gone) => RemovalIsFaithful(db, gone);
  }

  lemma ChangeKeepsLimit(cfg: Config, db: Db, c: Change)
    requires WithinLimit(cfg, db) && Possible(cfg, db, c)
    ensures WithinLimit(cfg, Changed(db, c))
  {
  }

  lemma StepKeepsContent(cfg: Config, w: World, op: Op)
    requires ContentFits(w)
    ensures ContentFits(Step(cfg, w, op).0)
  {
    StepIsChange(cfg, w, op);
    var w' := Step(cfg, w, op).0;
    if op.CreateOp? || op.PublishOp? {
      var hash := Admit(cfg, TextOf(op));
      if hash.Ok? {
        StoringFits(w, op.ctx.tenant, hash.value, TextOf(op), w'.store.db);
      }
    }
    if w'.files == w.files && w'.store.db.blobs == w.store.db.blobs {
      forall t, h | (t, h) in w'.store.db.blobs
        ensures BlobFits(w', t, h)
      {
        assert BlobFits(w, t, h);
      }
    }
  }

  lemma StepKeepsSound(cfg: Config, w: World, op: Op)
    requires Sound(cfg, w)
    ensures Sound(cfg, Step(cfg, w, op).0)
  {
    StepIsChange(cfg, w, op);
    var db, c := w.store.db, ChangeOf(cfg, w, op);
    ChangeKeepsConsistent(cfg, db, c);
    ChangeKeepsFaithful(cfg, db, c);
    ChangeKeepsLimit(cfg, db, c);
    StepKeepsContent(cfg, w, op);
  }

  /**
   * Every run keeps it all: versions are 1 to latest with distinct hashes and a blob each, names
   * are unique, the audit reproduces every live capsule, blobs match the write-once files, and no
   * capsule exceeds the version limit.
   */
  lemma {:induction false} RunKeepsSound(cfg: Config, w: World, ops: seq<Op>)
    requires Sound(cfg, w)
    ensures Sound(cfg, Run(cfg, w, ops))
  {
    if ops != [] {
      RunKeepsSound(cfg, w, ops[..|ops| - 1]);
      StepKeepsSound(cfg, Run(cfg, w, ops[..|ops| - 1]), ops[|ops| - 1]);
    }
  }

  /** After any run from the empty registry, each live capsule's audit entries alone give its status, its latest version and every version's hash. */
  lemma AuditReproducesEveryCapsule(cfg: Config, ops: seq<Op>, id: string)
    requires id in Run(cfg, EMPTY_WORLD, ops).store.db.capsules
    ensures var db := Run(cfg, EMPTY_WORLD, ops).store.db;
      var entries := EntriesOf(db.audit, id);
      && Replay(entries) == Some(ImageOf(db, id))
      && (forall n: nat :: Makings(entries, n) == if 1 <= n <= db.capsules[id].latestVersion then 1 else 0)
      && Publishings(entries) == db.capsules[id].latestVersion - 1
  {
    EmptyIsSound(cfg);
    RunKeepsSound(cfg, EMPTY_WORLD, ops);
  }

  /** The capsule is there after every step of the run. */
  ghost predicate Survives(cfg: Config, w: World, ops: seq<Op>, id: string) {
    forall k :: 0 <= k <= |ops| ==> id in Run(cfg, w, ops[..k]).store.db.capsules
  }

  lemma SurvivesInit(cfg: Config, w: World, ops: seq<Op>, id: string)
    requires Survives(cfg, w, ops, id) && ops != []
    ensures Survives(cfg, w, ops[..|ops| - 1], id)
    ensures id in Run(cfg, w, ops).store.db.capsules && id in Run(cfg, w, ops[..|ops| - 1]).store.db.capsules
  {
    var init := ops[..|ops| - 1];
    assert forall k :: 0 <= k <= |init| ==> init[..k] == ops[..k];
    assert ops[..|ops|] == ops;
  }

  /** What no operation changes about a capsule that is there before and after it. */
  ghost predicate Kept(db: Db, db': Db, id: string)
    requires id in db.capsules && id in db'.capsules
  {
    var c, c' := db.capsules[id], db'.capsules[id];
    && c'.tenant == c.tenant && c'.name == c.name && c'.owner == c.owner && c'.visibility == c.visibility
    && c'.latestVersion >= c.latestVersion
    && (forall n: nat :: (id, n) in db.versions ==>
          (id, n) in db'.versions && db'.versions[(id, n)] == db.versions[(id, n)])
  }

  /** Blobs, files and idempotency results are only ever added. */
  ghost predicate Grown(w: World, w': World) {
    && (forall k :: k in w.store.db.blobs ==> k in w'.store.db.blobs && w'.store.db.blobs[k] == w.store.db.blobs[k])
    && WormStore.FilesKept(w.files, w'.files)
    && (forall k :: k in w.store.results ==> k in w'.store.results && w'.store.results[k] == w.store.results[k])
  }

  lemma ResultsGrow(cfg: Config, w: World, op: Op)
    ensures forall k :: k in w.store.results ==>
              k in Step(cfg, w, op).0.store.results && Step(cfg, w, op).0.store.results[k] == w.store.results[k]
  {
  }

  lemma ChangeGrowsBlobs(db: Db, c: Change)
    requires c.Publication? ==> c.p.id in db.capsules
    requires c.StatusChange? ==> c.id in db.capsules
    ensures forall k :: k in db.blobs ==> k in Changed(db, c).blobs && Changed(db, c).blobs[k] == db.blobs[k]
  {
  }

  lemma FilesGrow(cfg: Config, w: World, op: Op)
    ensures WormStore.FilesKept(w.files, Step(cfg, w, op).0.files)
  {
    if op.CreateOp? || op.PublishOp? {
      var hash := Admit(cfg, TextOf(op));
      if hash.Ok? {
        WormStore.StoreKeeps(w.files, op.ctx.tenant, hash.value, TextOf(op));
      }
    }
  }

  lemma StepGrows(cfg: Config, w: World, op: Op)
    ensures Grown(w, Step(cfg, w, op).0)
  {
    StepIsChange(cfg, w, op);
    ChangeGrowsBlobs(w.store.db, ChangeOf(cfg, w, op));
    ResultsGrow(cfg, w, op);
    FilesGrow(cfg, w, op);
  }

  lemma ChangeKeeps(cfg: Config, db: Db, c: Change, id: string)
    requires VersionsNumbered(db) && Possible(cfg, db, c) && id in db.capsules && id in Changed(db, c).capsules
    ensures Kept(db, Changed(db, c), id)
  {
    if c.Publication? {
      NextIsFree(db, c.p.id);
    }
  }

  lemma {:induction false} RunKeeps(cfg: Config, w: World, ops: seq<Op>, id: string)
    requires Sound(cfg, w) && Survives(cfg, w, ops, id) && id in w.store.db.capsules && id in Run(cfg, w, ops).store.db.capsules
    ensures Kept(w.store.db, Run(cfg, w, ops).store.db, id)
  {
    if ops != [] {
      var mid := Run(cfg, w, ops[..|ops| - 1]);
      SurvivesInit(cfg, w, ops, id);
      RunKeeps(cfg, w, ops[..|ops| - 1], id);
      RunKeepsSound(cfg, w, ops[..|ops| - 1]);
      StepIsChange(cfg, mid, ops[|ops| - 1]);
      ChangeKeeps(cfg, mid.store.db, ChangeOf(cfg, mid, ops[|ops| - 1]), id);
    }
  }

  lemma GrownOn(a: World, b: World, c: World)
    requires Grown(a, b) && Grown(b, c)
    ensures Grown(a, c)
  {
    forall t, h | WormStore.FilePath(t, h) in a.files
      ensures WormStore.KeptAt(a.files, c.files, t, h)
    {
      assert WormStore.KeptAt(a.files, b.files, t, h);
      assert WormStore.KeptAt(b.files, c.files, t, h);
    }
  }

  lemma {:induction false} RunGrows(cfg: Config, w: World, ops: seq<Op>)
    ensures Grown(w, Run(cfg, w, ops))
  {
    if ops != [] {
      RunGrows(cfg, w, ops[..|ops| - 1]);
      StepGrows(cfg, Run(cfg, w, ops[..|ops| - 1]), ops[|ops| - 1]);
      GrownOn(w, Run(cfg, w, ops[..|ops| - 1]), Run(cfg, w, ops));
    }
  }
}
