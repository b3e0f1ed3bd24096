/** What the operations of other tenants can change for a tenant: nothing it can look up or read. */
module TenantIsolation {
  import opened RegistryModels
  import opened CapsuleRepository
  import opened CapsuleRegistry
  import opened RegistryRuns
  import WormStore

  predicate SameBlob(db: Db, db': Db, tenant: string, hash: string) {
    && ((tenant, hash) in db'.blobs <==> (tenant, hash) in db.blobs)
    && ((tenant, hash) in db.blobs ==> db'.blobs[(tenant, hash)] == db.blobs[(tenant, hash)])
  }

  ghost predicate SameTables(db: Db, db': Db, tenant: string) {
    && (forall id :: FindCapsule(db', tenant, id) == FindCapsule(db, tenant, id))
    && (forall id, n: nat :: FindVersion(db', tenant, id, n) == FindVersion(db, tenant, id, n))
    && (forall h :: SameBlob(db, db', tenant, h))
  }

  ghost predicate SameFiles(files: WormStore.Files, files': WormStore.Files, tenant: string) {
    forall h :: WormStore.Retrieve(files', tenant, h) == WormStore.Retrieve(files, tenant, h)
  }

  /** The same capsules, versions, blobs and files for this tenant. */
  ghost predicate SameFor(w: World, w': World, tenant: string) {
    SameTables(w.store.db, w'.store.db, tenant) && SameFiles(w.files, w'.files, tenant)
  }

  lemma StoringIsolates(files: WormStore.Files, owner: string, hash: string, text: string, tenant: string)
    requires owner != tenant
    ensures SameFiles(files, WormStore.Store(files, owner, hash, text).0, tenant)
  {
    forall h
      ensures WormStore.Retrieve(WormStore.Store(files, owner, hash, text).0, tenant, h) == WormStore.Retrieve(files, tenant, h)
    {
      WormStore.WriteOnce(files, owner, hash, text, tenant, h);
    }
  }

  /** Whom a transition of the tables belongs to. */
  ghost predicate BelongsTo(db: Db, c: Change, owner: string) {
    match c
    case Nothing => true
    case Creation(r) => r.tenant == owner
    case Publication(p) => p.tenant == owner
    case StatusChange(id, _, _, _) => id in db.capsules && db.capsules[id].tenant == owner
    case Removal(gone) => gone in db.capsules && db.capsules[gone].tenant == owner
  }

  lemma ChangeIsolates(cfg: Config, db: Db, c: Change, owner: string, tenant: string)
    requires VersionsNumbered(db) && VersionsBacked(db) && Possible(cfg, db, c) && BelongsTo(db, c, owner) && owner != tenant
    ensures SameTables(db, Changed(db, c), tenant)
  {
    match c
    case Nothing =>
    case Creation(r) => VersionsOfNobody(db, r.Id());
    case Publication(p) => NextIsFree(db, p.id);
    case StatusChange(_, _, _, _) =>
    case Removal(gone) =>
      forall id, n: nat
        ensures FindVersion(Changed(db, c), tenant, id, n) == FindVersion(db, tenant, id, n)
      {
        assert (gone, n) in db.versions ==> db.versions[(gone, n)].tenant == owner;
      }
  }

  lemma ChangeBelongs(cfg: Config, w: World, op: Op)
    ensures BelongsTo(w.store.db, ChangeOf(cfg, w, op), op.ctx.tenant)
  {
  }

  lemma FilesIsolate(cfg: Config, w: World, op: Op, tenant: string)
    requires op.ctx.tenant != tenant
    ensures SameFiles(w.files, Step(cfg, w, op).0.files, tenant)
  {
    if op.CreateOp? || op.PublishOp? {
      var hash := Admit(cfg, TextOf(op));
      if hash.Ok? {
        StoringIsolates(w.files, op.ctx.tenant, hash.value, TextOf(op), tenant);
      }
    }
  }

  /** Whatever an operation of one tenant does, another tenant's capsules, versions, blobs and files stay as they are. */
  lemma StepIsolates(cfg: Config, w: World, op: Op, tenant: string)
    requires Sound(cfg, w) && op.ctx.tenant != tenant
    ensures SameFor(w, Step(cfg, w, op).0, tenant)
  {
    StepIsChange(cfg, w, op);
    ChangeBelongs(cfg, w, op);
    ChangeIsolates(cfg, w.store.db, ChangeOf(cfg, w, op), op.ctx.tenant, tenant);
    FilesIsolate(cfg, w, op, tenant);
  }

  ghost predicate OthersOnly(ops: seq<Op>, tenant: string) {
    forall i :: 0 <= i < |ops| ==> ops[i].ctx.tenant != tenant
  }

  lemma SameForOn(a: World, b: World, c: World, tenant: string)
    requires SameFor(a, b, tenant) && SameFor(b, c, tenant)
    ensures SameFor(a, c, tenant)
  {
    forall h
      ensures SameBlob(a.store.db, c.store.db, tenant, h)
    {
      assert SameBlob(a.store.db, b.store.db, tenant, h) && SameBlob(b.store.db, c.store.db, tenant, h);
    }
  }

  lemma {:induction false} RunIsolates(cfg: Config, w: World, ops: seq<Op>, tenant: string)
    requires Sound(cfg, w) && OthersOnly(ops, tenant)
    ensures SameFor(w, Run(cfg, w, ops), tenant)
  {
    if ops != [] {
      var init := ops[..|ops| - 1];
      RunIsolates(cfg, w, init, tenant);
      RunKeepsSound(cfg, w, init);
      StepIsolates(cfg, Run(cfg, w, init), ops[|ops| - 1], tenant);
      SameForOn(w, Run(cfg, w, init), Run(cfg, w, ops), tenant);
    }
  }

  lemma SameReads(w: World, w': World, reader: Context, id: string, n: nat)
    requires SameFor(w, w', reader.tenant)
    ensures ReadVersion(w', reader, id, n) == ReadVersion(w, reader, id, n)
  {
    assert FindCapsule(w'.store.db, reader.tenant, id) == FindCapsule(w.store.db, reader.tenant, id);
    var v := FindVersion(w.store.db, reader.tenant, id, n);
    assert FindVersion(w'.store.db, reader.tenant, id, n) == v;
    if v.Some? {
      assert SameBlob(w.store.db, w'.store.db, reader.tenant, v.value.hash);
    }
  }

  /** No run of other tenants' operations changes what a tenant's users read, whichever version of whichever id they ask for. */
  lemma OthersNeverChangeReads(cfg: Config, w: World, ops: seq<Op>, reader: Context, id: string, n: nat)
    requires Sound(cfg, w) && OthersOnly(ops, reader.tenant)
    ensures ReadVersion(Run(cfg, w, ops), reader, id, n) == ReadVersion(w, reader, id, n)
  {
    RunIsolates(cfg, w, ops, reader.tenant);
    SameReads(w, Run(cfg, w, ops), reader, id, n);
  }
}
