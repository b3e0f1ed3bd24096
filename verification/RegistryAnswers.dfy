/**
 * The answer to every request, error by error, in terms of the rows, blobs and files that are
 * there; and what requests leave in the rows of the capsule they are about.
 */
module RegistryAnswers {
  import opened Wrappers
  import opened RegistryModels
  import opened CapsuleRepository
  import opened CapsuleRegistry
  import opened RegistryRuns
  import opened RegistryReads
  import opened AuditTrail
  import opened UniversalNewlines
  import WormStore

  /** The capsule is the tenant's. */
  predicate Owns(db: Db, tenant: string, id: string) {
    id in db.capsules && db.capsules[id].tenant == tenant
  }

  /** The reader's tenant has the capsule, and it is for everybody there, or the reader's own, or the reader is an admin. */
  predicate MaySee(db: Db, ctx: Context, id: string) {
    && Owns(db, ctx.tenant, id)
    && (db.capsules[id].visibility == Org || db.capsules[id].owner == ctx.user || ctx.admin)
  }

  /** No file is there for the content, or it reads as the text. */
  predicate FileTakes(files: WormStore.Files, tenant: string, hash: string, text: string) {
    var path := WormStore.FilePath(tenant, hash);
    path in files ==> ReadText(files[path]) == text
  }

  lemma {:induction false} SizeAdds(a: string, b: string)
    ensures Utf8Size(a + b) == Utf8Size(a) + Utf8Size(b)
  {
    if a == "" {
      assert a + b == b;
    } else {
      SizeAdds(a[1..], b);
      assert (a + b)[0] == a[0] && (a + b)[1..] == a[1..] + b;
    }
  }

  /** A character takes as many bytes as section 3 of RFC 3629 gives its code point, and a text the sum of its characters. */
  lemma SizeOfText(a: string, c: char)
    ensures Utf8Size(a + [c]) == Utf8Size(a) + Utf8Size([c])
    ensures Utf8Size([c]) == 1 <==> c as int <= 0x7F
    ensures Utf8Size([c]) == 2 <==> 0x80 <= c as int <= 0x7FF
    ensures Utf8Size([c]) == 3 <==> 0x800 <= c as int <= 0xFFFF
    ensures Utf8Size([c]) == 4 <==> 0x10000 <= c as int
  {
    SizeAdds(a, [c]);
    assert [c][1..] == [];
  }

  ghost predicate HasContent(db: Db, tenant: string, id: string, hash: string) {
    exists n: nat :: (id, n) in db.versions && db.versions[(id, n)].tenant == tenant && db.versions[(id, n)].hash == hash
  }

  ghost predicate NameInUse(db: Db, tenant: string, name: string, activeOnly: bool) {
    exists id :: Owns(db, tenant, id) && db.capsules[id].name == name && (activeOnly ==> db.capsules[id].status == Active)
  }

  lemma HasContentIff(db: Db, tenant: string, id: string, hash: string)
    ensures HashPublished(db, tenant, id, hash) <==> HasContent(db, tenant, id, hash)
  {
    if HashPublished(db, tenant, id, hash) {
      var k :| k in db.versions && k.0 == id && db.versions[k].tenant == tenant && db.versions[k].hash == hash;
      assert k == (id, k.1);
    }
    if HasContent(db, tenant, id, hash) {
      var n: nat :| (id, n) in db.versions && db.versions[(id, n)].tenant == tenant && db.versions[(id, n)].hash == hash;
      assert (id, n).0 == id;
    }
  }

  /** Under an unused key a publish succeeds exactly when the capsule is there, active, without the content, and the text is not an empty blob. */
  lemma PublishOutcome(s: Store, r: NewVersion)
    requires r.key !in s.results
    ensures var o := PublishVersionOf(s, r).1;
      && (o == Err(NotFound) <==> !Owns(s.db, r.tenant, r.id))
      && (o == Err(Conflict) <==>
            Owns(s.db, r.tenant, r.id) && (s.db.capsules[r.id].status == Deleted || HasContent(s.db, r.tenant, r.id, r.hash)))
      && (o.Ok? <==>
            && Owns(s.db, r.tenant, r.id) && s.db.capsules[r.id].status == Active && !HasContent(s.db, r.tenant, r.id, r.hash)
            && ((r.tenant, r.hash) in s.db.blobs || r.text != ""))
      && (o.Ok? || o == Err(NotFound) || o == Err(Conflict) || o == Err(IntegrityFailure))
      && (o.Ok? ==> o.value == Receipt(r.id, s.db.capsules[r.id].latestVersion + 1, Some(Version(r.tenant, r.hash, r.actor)), true))
  {
    HasContentIff(s.db, r.tenant, r.id, r.hash);
  }

  /** The rows a create is asked to make are those of the request. */
  lemma CreateOutcomeInRows(s: Store, r: NewCapsule)
    requires r.key !in s.results
    ensures var id := if r.id.Some? then r.id.value else r.freshId;
      var o := CreateCapsule(s, r).1;
      && (o == Err(Conflict) <==> NameInUse(s.db, r.tenant, r.name, true))
      && (o.Ok? <==>
            && id !in s.db.capsules && !NameInUse(s.db, r.tenant, r.name, false)
            && ((r.tenant, r.hash) in s.db.blobs || r.text != ""))
      && (o.Ok? || o == Err(Conflict) || o == Err(IntegrityFailure))
      && (o.Ok? ==> o.value == Receipt(id, 1, Some(Version(r.tenant, r.hash, r.actor)), true))
  {
    CreateOutcome(s, r);
    assert NameTaken(s.db, r.tenant, r.name) <==> NameInUse(s.db, r.tenant, r.name, false);
    assert ActiveNameTaken(s.db, r.tenant, r.name) <==> NameInUse(s.db, r.tenant, r.name, true);
  }

  /** What stops a create or publish before the repository, in this order: permission, size, validation, write-once store. */
  function Stopped(cfg: Config, files: WormStore.Files, tenant: string, text: string): Option<Error> {
    if Utf8Size(text) > cfg.maxSize then Some(TooLarge)
    else if cfg.validate(text) == None then Some(Invalid)
    else if !FileTakes(files, tenant, cfg.validate(text).value, text) then Some(StorageFailure)
    else None
  }

  /** A create under an unused key through the service. */
  lemma CreateAnswers(cfg: Config, w: World, ctx: Context, q: CreateRequest)
    requires q.key !in w.store.results
    ensures var o := Create(cfg, w, ctx, q).1;
      var id := if q.id.Some? then q.id.value else q.freshId;
      && (o == Err(Forbidden) <==> CreateCapsules !in ctx.permissions)
      && (CreateCapsules in ctx.permissions && Stopped(cfg, w.files, ctx.tenant, q.text).Some? ==>
            o == Err(Stopped(cfg, w.files, ctx.tenant, q.text).value))
      && (CreateCapsules in ctx.permissions && Stopped(cfg, w.files, ctx.tenant, q.text).None? ==>
            var hash := cfg.validate(q.text).value;
            && (o == Err(Conflict) <==> NameInUse(w.store.db, ctx.tenant, q.name, true))
            && (o.Ok? <==>
                  && id !in w.store.db.capsules && !NameInUse(w.store.db, ctx.tenant, q.name, false)
                  && ((ctx.tenant, hash) in w.store.db.blobs || q.text != ""))
            && (o.Ok? || o == Err(Conflict) || o == Err(IntegrityFailure))
            && (o.Ok? ==> o.value == Receipt(id, 1, Some(Version(ctx.tenant, hash, ctx.user)), true)))
  {
    if Stopped(cfg, w.files, ctx.tenant, q.text).None? {
      CreateOutcomeInRows(w.store, NewCapsuleOf(ctx, q, cfg.validate(q.text).value));
    }
  }

  /** A publish under an unused key through the service. */
  lemma PublishAnswers(cfg: Config, w: World, ctx: Context, q: PublishRequest)
    requires q.key !in w.store.results
    ensures var (db, o) := (w.store.db, Publish(cfg, w, ctx, q).1);
      && (o == Err(Forbidden) <==> PublishVersions !in ctx.permissions)
      && (PublishVersions in ctx.permissions ==> (o == Err(NotFound) <==> !Owns(db, ctx.tenant, q.id)))
      && (PublishVersions in ctx.permissions && Owns(db, ctx.tenant, q.id) ==>
            if db.capsules[q.id].latestVersion >= cfg.maxVersions then o == Err(Conflict)
            else if Stopped(cfg, w.files, ctx.tenant, q.text).Some? then o == Err(Stopped(cfg, w.files, ctx.tenant, q.text).value)
            else
              var hash := cfg.validate(q.text).value;
              && (o == Err(Conflict) <==> db.capsules[q.id].status == Deleted || HasContent(db, ctx.tenant, q.id, hash))
              && (o.Ok? <==>
                    && db.capsules[q.id].status == Active && !HasContent(db, ctx.tenant, q.id, hash)
                    && ((ctx.tenant, hash) in db.blobs || q.text != ""))
              && (o.Ok? || o == Err(Conflict) || o == Err(IntegrityFailure))
              && (o.Ok? ==> o.value == Receipt(q.id, db.capsules[q.id].latestVersion + 1, Some(Version(ctx.tenant, hash, ctx.user)), true)))
  {
    if Stopped(cfg, w.files, ctx.tenant, q.text).None? {
      PublishOutcome(w.store, NewVersionOf(ctx, q, cfg.validate(q.text).value));
    }
  }

  /** A create under a used key, once it gets past permission, size, validation and store: the latest version of the capsule the key remembers. */
  lemma CreateReplayAnswers(cfg: Config, w: World, ctx: Context, q: CreateRequest)
    requires VersionsNumbered(w.store.db) && VersionsBacked(w.store.db) && q.key in w.store.results
    ensures var (db, o, id) := (w.store.db, Create(cfg, w, ctx, q).1, w.store.results[q.key].capsuleId);
      && (o == Err(Forbidden) <==> CreateCapsules !in ctx.permissions)
      && (CreateCapsules in ctx.permissions ==>
            if Stopped(cfg, w.files, ctx.tenant, q.text).Some? then o == Err(Stopped(cfg, w.files, ctx.tenant, q.text).value)
            else if !Owns(db, ctx.tenant, id) then o == Err(NotFound)
            else
              var latest := db.capsules[id].latestVersion;
              (id, latest) in db.versions && o == Ok(Receipt(id, latest, Some(db.versions[(id, latest)]), false)))
  {
    if Owns(w.store.db, ctx.tenant, w.store.results[q.key].capsuleId) {
      var id := w.store.results[q.key].capsuleId;
      assert (id, w.store.db.capsules[id].latestVersion) in w.store.db.versions;
    }
  }

  /** A publish under a used key, once it gets that far: the version with the number the key remembers, if this capsule has it. */
  lemma PublishReplayAnswers(cfg: Config, w: World, ctx: Context, q: PublishRequest)
    requires q.key in w.store.results
    ensures var (db, o, n) := (w.store.db, Publish(cfg, w, ctx, q).1, w.store.results[q.key].version);
      && (o == Err(Forbidden) <==> PublishVersions !in ctx.permissions)
      && (PublishVersions in ctx.permissions ==>
            if !Owns(db, ctx.tenant, q.id) then o == Err(NotFound)
            else if db.capsules[q.id].latestVersion >= cfg.maxVersions then o == Err(Conflict)
            else if Stopped(cfg, w.files, ctx.tenant, q.text).Some? then o == Err(Stopped(cfg, w.files, ctx.tenant, q.text).value)
            else if (q.id, n) in db.versions && db.versions[(q.id, n)].tenant == ctx.tenant
            then o == Ok(Receipt(q.id, n, Some(db.versions[(q.id, n)]), false))
            else o == Err(NotFound))
  {
  }

  /** A new version is made only of an active capsule of the caller's tenant that is below the limit. */
  lemma PublishesActiveOnly(cfg: Config, w: World, op: Op)
    requires op.PublishOp? && Makes(cfg, w, op)
    ensures var (db, id) := (w.store.db, op.publish.id);
      && PublishVersions in op.ctx.permissions && Owns(db, op.ctx.tenant, id)
      && db.capsules[id].status == Active && db.capsules[id].latestVersion < cfg.maxVersions
  {
    if op.publish.key !in w.store.results {
      PublishAnswers(cfg, w, op.ctx, op.publish);
    }
  }

  /** No operation of the run restores the capsule. */
  ghost predicate NotRestored(cfg: Config, w: World, ops: seq<Op>, id: string) {
    forall k :: 0 <= k < |ops| ==> !(ops[k].StatusOp? && ops[k].id == id && ops[k].status == Active)
  }

  lemma StepLeavesDeleted(cfg: Config, w: World, op: Op, id: string)
    requires id in w.store.db.capsules && w.store.db.capsules[id].status == Deleted && id in Step(cfg, w, op).0.store.db.capsules
    requires !(op.StatusOp? && op.id == id && op.status == Active)
    ensures var (c, c') := (w.store.db.capsules[id], Step(cfg, w, op).0.store.db.capsules[id]);
      c'.status == Deleted && c'.latestVersion == c.latestVersion
  {
    StepIsChange(cfg, w, op);
    if op.PublishOp? && Makes(cfg, w, op) {
      PublishesActiveOnly(cfg, w, op);
    }
  }

  /** From its deletion until it is restored a capsule stays deleted and gets no version. */
  lemma {:induction false} NoVersionWhileDeleted(cfg: Config, w: World, ops: seq<Op>, id: string)
    requires id in w.store.db.capsules && w.store.db.capsules[id].status == Deleted
    requires Survives(cfg, w, ops, id) && NotRestored(cfg, w, ops, id) && id in Run(cfg, w, ops).store.db.capsules
    ensures var (c, c') := (w.store.db.capsules[id], Run(cfg, w, ops).store.db.capsules[id]);
      c'.status == Deleted && c'.latestVersion == c.latestVersion
  {
    if ops != [] {
      SurvivesInit(cfg, w, ops, id);
      NoVersionWhileDeleted(cfg, w, ops[..|ops| - 1], id);
      StepLeavesDeleted(cfg, Run(cfg, w, ops[..|ops| - 1]), ops[|ops| - 1], id);
    }
  }

  /** What a create leaves: the capsule that was asked for, its first version, and the other capsules as they were. */
  lemma CreatedAsAsked(cfg: Config, w: World, op: Op)
    requires op.CreateOp? && Makes(cfg, w, op)
    ensures var (q, db, db') := (op.create, w.store.db, Step(cfg, w, op).0.store.db);
      var id := if q.id.Some? then q.id.value else q.freshId;
      && MadeId(cfg, w, op) == id
      && db'.capsules == db.capsules[id := Capsule(op.ctx.tenant, q.name, q.owner, q.visibility, Active, 1, q.freshEtag)]
      && db'.audit == db.audit + [Audit(id, Some(1), op.ctx.user, CreateEntry, cfg.validate(q.text))]
      && (id, 1) in db'.versions && cfg.validate(q.text) == Some(db'.versions[(id, 1)].hash)
      && db'.versions == db.versions[(id, 1) := Version(op.ctx.tenant, db'.versions[(id, 1)].hash, op.ctx.user)]
  {
  }

  /** What a publish leaves: the next version, the new number and etag on the capsule, one audit entry, and everything else as it was. */
  lemma PublishedAsAsked(cfg: Config, w: World, op: Op)
    requires op.PublishOp? && Makes(cfg, w, op)
    ensures op.publish.id in w.store.db.capsules
    ensures var (q, db, db') := (op.publish, w.store.db, Step(cfg, w, op).0.store.db);
      var next := db.capsules[q.id].latestVersion + 1;
      && db'.capsules == db.capsules[q.id := db.capsules[q.id].(latestVersion := next, etag := q.freshEtag)]
      && db'.audit == db.audit + [Audit(q.id, Some(next), op.ctx.user, PublishEntry, cfg.validate(q.text))]
      && (q.id, next) in db'.versions && cfg.validate(q.text) == Some(db'.versions[(q.id, next)].hash)
      && db'.versions == db.versions[(q.id, next) := Version(op.ctx.tenant, db'.versions[(q.id, next)].hash, op.ctx.user)]
  {
  }

  /** The request gets as far as the write-once store. */
  predicate ReachesStore(cfg: Config, w: World, op: Op)
    requires op.CreateOp? || op.PublishOp?
  {
    && Utf8Size(TextOf(op)) <= cfg.maxSize && cfg.validate(TextOf(op)).Some?
    && (op.CreateOp? ==> CreateCapsules in op.ctx.permissions)
    && (op.PublishOp? ==>
          && PublishVersions in op.ctx.permissions && Owns(w.store.db, op.ctx.tenant, op.publish.id)
          && w.store.db.capsules[op.publish.id].latestVersion < cfg.maxVersions)
  }

  lemma CreateEffects(cfg: Config, w: World, op: Op)
    requires op.CreateOp?
    ensures var (w', key) := (Step(cfg, w, op).0, KeyOf(op));
      && (Makes(cfg, w, op) ==>
            && ReachesStore(cfg, w, op) && key !in w.store.results
            && w'.store.results == w.store.results[key := Remembered(MadeId(cfg, w, op), MadeNumber(cfg, w, op))]
            && w'.store.db.blobs == WithBlob(w.store.db, op.ctx.tenant, cfg.validate(TextOf(op)).value, TextOf(op)))
      && (!Makes(cfg, w, op) ==> w'.store == w.store)
      && w'.files == if ReachesStore(cfg, w, op) then WormStore.Store(w.files, op.ctx.tenant, cfg.validate(TextOf(op)).value, TextOf(op)).0 else w.files
  {
  }

  lemma PublishEffects(cfg: Config, w: World, op: Op)
    requires op.PublishOp?
    ensures var (w', key) := (Step(cfg, w, op).0, KeyOf(op));
      && (Makes(cfg, w, op) ==>
            && ReachesStore(cfg, w, op) && key !in w.store.results
            && w'.store.results == w.store.results[key := Remembered(MadeId(cfg, w, op), MadeNumber(cfg, w, op))]
            && w'.store.db.blobs == WithBlob(w.store.db, op.ctx.tenant, cfg.validate(TextOf(op)).value, TextOf(op)))
      && (!Makes(cfg, w, op) ==> w'.store == w.store)
      && w'.files == if ReachesStore(cfg, w, op) then WormStore.Store(w.files, op.ctx.tenant, cfg.validate(TextOf(op)).value, TextOf(op)).0 else w.files
  {
  }

  /** What a create or publish leaves in idempotency results, blobs and files, whether it makes a version or not. */
  lemma EffectsBesideRows(cfg: Config, w: World, op: Op)
    requires op.CreateOp? || op.PublishOp?
    ensures var (w', key) := (Step(cfg, w, op).0, KeyOf(op));
      && (Makes(cfg, w, op) ==>
            && ReachesStore(cfg, w, op) && key !in w.store.results
            && w'.store.results == w.store.results[key := Remembered(MadeId(cfg, w, op), MadeNumber(cfg, w, op))]
            && var content := (op.ctx.tenant, cfg.validate(TextOf(op)).value);
               w'.store.db.blobs == if content in w.store.db.blobs then w.store.db.blobs else w.store.db.blobs[content := TextOf(op)])
      && (!Makes(cfg, w, op) ==> w'.store == w.store)
      && (!ReachesStore(cfg, w, op) ==> w'.files == w.files)
      && (ReachesStore(cfg, w, op) ==>
            var (t, h) := (op.ctx.tenant, cfg.validate(TextOf(op)).value);
            var path := WormStore.FilePath(t, h);
            w'.files == if path in w.files then w.files else (w.files - {WormStore.TempPath(t, h)})[path := TextOf(op)])
  {
    if op.CreateOp? {
      CreateEffects(cfg, w, op);
    } else {
      PublishEffects(cfg, w, op);
    }
  }

  /** A capsule keeps tenant, name, owner and visibility from its creation on, whatever happens to it while it is live. */
  lemma CreatedForGood(cfg: Config, w: World, op: Op, later: seq<Op>)
    requires Sound(cfg, w) && op.CreateOp? && Makes(cfg, w, op)
    requires Survives(cfg, Step(cfg, w, op).0, later, MadeId(cfg, w, op))
    ensures var (q, end) := (op.create, Run(cfg, Step(cfg, w, op).0, later).store.db);
      var id := if q.id.Some? then q.id.value else q.freshId;
      && id in end.capsules && end.capsules[id].tenant == op.ctx.tenant && end.capsules[id].name == q.name
      && end.capsules[id].owner == q.owner && end.capsules[id].visibility == q.visibility
  {
    var w1, id := Step(cfg, w, op).0, MadeId(cfg, w, op);
    CreatedAsAsked(cfg, w, op);
    StepKeepsSound(cfg, w, op);
    assert later[..0] == [] && later[..|later|] == later;
    assert id in Run(cfg, w1, later[..0]).store.db.capsules && id in Run(cfg, w1, later[..|later|]).store.db.capsules;
    RunKeeps(cfg, w1, later, id);
  }

  lemma AccessibleIff(db: Db, ctx: Context, id: string)
    ensures Accessible(db, ctx, id).Ok? <==> ReadCapsules in ctx.permissions && MaySee(db, ctx, id)
    ensures Accessible(db, ctx, id) == Err(Forbidden) <==> ReadCapsules !in ctx.permissions
    ensures Accessible(db, ctx, id).Err? ==> Accessible(db, ctx, id) == Err(Forbidden) || Accessible(db, ctx, id) == Err(NotFound)
  {
  }

  /** The text that a version of the tenant with this content has: its blob, or without one what text mode reads from its file. */
  function TextOfContent(w: World, tenant: string, hash: string): string {
    var path := WormStore.FilePath(tenant, hash);
    if (tenant, hash) in w.store.db.blobs then w.store.db.blobs[(tenant, hash)]
    else if path in w.files then ReadText(w.files[path])
    else ""
  }

  /** A read, in whatever state the registry is. */
  lemma ReadAnswers(w: World, ctx: Context, id: string, n: nat)
    ensures var (db, o) := (w.store.db, ReadVersion(w, ctx, id, n));
      && (o == Err(Forbidden) <==> ReadCapsules !in ctx.permissions)
      && (o.Ok? || o == Err(Forbidden) || o == Err(NotFound))
      && (o.Ok? <==>
            && ReadCapsules in ctx.permissions && MaySee(db, ctx, id)
            && (id, n) in db.versions && db.versions[(id, n)].tenant == ctx.tenant
            && TextOfContent(w, ctx.tenant, db.versions[(id, n)].hash) != "")
      && (o.Ok? ==> o.value == TextOfContent(w, ctx.tenant, db.versions[(id, n)].hash))
  {
    AccessibleIff(w.store.db, ctx, id);
  }

  /** On a sound registry a read succeeds exactly for the versions that there are of the capsules the reader may see. */
  lemma ReadableIff(cfg: Config, w: World, ctx: Context, id: string, n: nat)
    requires Sound(cfg, w)
    ensures ReadVersion(w, ctx, id, n).Ok? <==>
      ReadCapsules in ctx.permissions && MaySee(w.store.db, ctx, id) && 1 <= n <= w.store.db.capsules[id].latestVersion
  {
    AccessibleIff(w.store.db, ctx, id);
    ReadAnswers(w, ctx, id, n);
    NumberedWithin(w.store.db, id, n);
    if Accessible(w.store.db, ctx, id).Ok? && 1 <= n <= w.store.db.capsules[id].latestVersion {
      ReadsComeFromBlobs(cfg, w, ctx, id, n);
    }
  }

  lemma PrivateReads(cfg: Config, end: World, id: string, reader: Context, n: nat)
    requires Sound(cfg, end) && id in end.store.db.capsules && end.store.db.capsules[id].visibility == Private
    ensures var c := end.store.db.capsules[id];
      ReadVersion(end, reader, id, n).Ok? <==>
      && ReadCapsules in reader.permissions && reader.tenant == c.tenant && (reader.user == c.owner || reader.admin)
      && 1 <= n <= c.latestVersion
  {
    ReadableIff(cfg, end, reader, id, n);
  }

  /** A capsule created private is read by its owner and by admins of its tenant only, whatever happens to it while it is live. */
  lemma PrivateStaysPrivate(cfg: Config, w: World, op: Op, later: seq<Op>, reader: Context, n: nat)
    requires Sound(cfg, w) && op.CreateOp? && Makes(cfg, w, op) && op.create.visibility == Private
    requires Survives(cfg, Step(cfg, w, op).0, later, MadeId(cfg, w, op))
    ensures var (q, end) := (op.create, Run(cfg, Step(cfg, w, op).0, later));
      var id := if q.id.Some? then q.id.value else q.freshId;
      && id in end.store.db.capsules
      && (ReadVersion(end, reader, id, n).Ok? <==>
            && ReadCapsules in reader.permissions && reader.tenant == op.ctx.tenant && (reader.user == q.owner || reader.admin)
            && 1 <= n <= end.store.db.capsules[id].latestVersion)
  {
    var w1 := Step(cfg, w, op).0;
    var id := if op.create.id.Some? then op.create.id.value else op.create.freshId;
    CreatedForGood(cfg, w, op, later);
    StepKeepsSound(cfg, w, op);
    RunKeepsSound(cfg, w1, later);
    PrivateReads(cfg, Run(cfg, w1, later), id, reader, n);
  }

  /** A change of status: who may make it, when the etag is refused, and exactly what it changes. */
  lemma StatusAnswers(w: World, ctx: Context, id: string, status: Status, expected: string, freshEtag: string)
    ensures var (w', o) := SetStatus(w, ctx, id, status, expected, freshEtag);
      var (db, db') := (w.store.db, w'.store.db);
      && (o == Err(Forbidden) <==> UpdateCapsules !in ctx.permissions || ReadCapsules !in ctx.permissions)
      && (o == Err(Conflict) <==>
            {UpdateCapsules, ReadCapsules} <= ctx.permissions && MaySee(db, ctx, id) && db.capsules[id].etag != expected)
      && (o.Ok? <==>
            {UpdateCapsules, ReadCapsules} <= ctx.permissions && MaySee(db, ctx, id) && db.capsules[id].etag == expected)
      && (o.Ok? || o == Err(Forbidden) || o == Err(NotFound) || o == Err(Conflict))
      && (o.Err? ==> w' == w)
      && (o.Ok? ==>
            && o.value == db.capsules[id].(status := status, etag := freshEtag)
            && db'.capsules == db.capsules[id := db.capsules[id].(status := status, etag := freshEtag)]
            && db'.versions == db.versions && db'.blobs == db.blobs
            && db'.audit == db.audit + [Audit(id, None, ctx.user, if status == Deleted then DeleteEntry else RestoreEntry, None)]
            && w'.files == w.files && w'.store.results == w.store.results)
  {
    AccessibleIff(w.store.db, ctx, id);
  }

  lemma {:induction false} OthersInOrder(audit: seq<Audit>, id: string)
    ensures forall other :: other != id ==> EntriesOf(Others(audit, id), other) == EntriesOf(audit, other)
    ensures EntriesOf(Others(audit, id), id) == []
  {
    if audit != [] {
      var init, last := audit[..|audit| - 1], audit[|audit| - 1];
      OthersInOrder(init, id);
      if last.capsuleId != id {
        assert Others(audit, id)[..|Others(audit, id)| - 1] == Others(init, id);
      } else {
        assert Others(audit, id) == Others(init, id);
      }
    }
  }

  /** A hard deletion: who may make it, and that it removes the capsule, its versions and its audit entries and nothing else. */
  lemma RemovalAnswers(w: World, ctx: Context, id: string)
    ensures var (w', o) := Remove(w, ctx, id);
      var (db, db') := (w.store.db, w'.store.db);
      && (o == Err(Forbidden) <==> DeleteCapsules !in ctx.permissions)
      && (o.Ok? <==> DeleteCapsules in ctx.permissions && Owns(db, ctx.tenant, id))
      && (o.Ok? || o == Err(Forbidden) || o == Err(NotFound))
      && (o.Err? ==> w' == w)
      && (o.Ok? ==>
            && (forall i :: i in db'.capsules <==> i in db.capsules && i != id)
            && (forall i :: i in db'.capsules ==> db'.capsules[i] == db.capsules[i])
            && (forall k :: k in db'.versions <==> k in db.versions && k.0 != id)
            && (forall k :: k in db'.versions ==> db'.versions[k] == db.versions[k])
            && EntriesOf(db'.audit, id) == []
            && (forall other :: other != id ==> EntriesOf(db'.audit, other) == EntriesOf(db.audit, other))
            && db'.blobs == db.blobs && w'.files == w.files && w'.store.results == w.store.results)
  {
    OthersInOrder(w.store.db.audit, id);
  }
}
