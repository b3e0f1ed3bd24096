/** What readers get back: which text, from which store, and when it is the very text submitted. */
module RegistryReads {
  import opened Wrappers
  import opened RegistryModels
  import opened CapsuleRepository
  import opened CapsuleRegistry
  import opened RegistryContent
  import opened RegistryRuns
  import opened UniversalNewlines
  import WormStore

  /** Reading any version of an accessible capsule succeeds and gives the blob; the write-once store is never the one that answers. */
  lemma ReadsComeFromBlobs(cfg: Config, w: World, ctx: Context, id: string, n: nat)
    requires Sound(cfg, w) && Accessible(w.store.db, ctx, id).Ok? && 1 <= n <= w.store.db.capsules[id].latestVersion
    ensures (id, n) in w.store.db.versions
    ensures var hash := w.store.db.versions[(id, n)].hash;
      (ctx.tenant, hash) in w.store.db.blobs && ReadVersion(w, ctx, id, n) == Ok(w.store.db.blobs[(ctx.tenant, hash)])
  {
    assert (id, n) in w.store.db.versions;
  }

  /** Blob and write-once store agree on a text exactly when the blob holds no carriage return; otherwise they agree up to line endings. */
  lemma FallbackAgreesIff(cfg: Config, w: World, tenant: string, hash: string)
    requires Sound(cfg, w) && (tenant, hash) in w.store.db.blobs
    ensures var blob := w.store.db.blobs[(tenant, hash)];
      && WormStore.Retrieve(w.files, tenant, hash) == Some(ReadText(blob))
      && (WormStore.Retrieve(w.files, tenant, hash) == Some(blob) <==> '\r' !in blob)
  {
    assert BlobFits(w, tenant, hash);
    ReadBackIsExact(w.store.db.blobs[(tenant, hash)]);
    ReadBackIsExact(w.files[WormStore.FilePath(tenant, hash)]);
  }

  /** The version an operation makes: its capsule, its number and its content hash. */
  function MadeId(cfg: Config, w: World, op: Op): string
    requires Makes(cfg, w, op)
  {
    Step(cfg, w, op).1.receipt.value.id
  }

  function MadeNumber(cfg: Config, w: World, op: Op): nat
    requires Makes(cfg, w, op)
  {
    Step(cfg, w, op).1.receipt.value.number
  }

  lemma MadeByPublish(cfg: Config, w: World, op: Op)
    requires op.PublishOp? && Makes(cfg, w, op)
    ensures Admit(cfg, TextOf(op)).Ok?
    ensures var (db, id) := (w.store.db, MadeId(cfg, w, op));
      && id == op.publish.id && id in db.capsules && db.capsules[id].tenant == op.ctx.tenant
      && MadeNumber(cfg, w, op) == db.capsules[id].latestVersion + 1
      && Step(cfg, w, op).0.store.db == Published(db, NewVersionOf(op.ctx, op.publish, Admit(cfg, TextOf(op)).value))
  {
  }

  lemma MadeByCreate(cfg: Config, w: World, op: Op)
    requires op.CreateOp? && Makes(cfg, w, op)
    ensures Admit(cfg, TextOf(op)).Ok?
    ensures var r := NewCapsuleOf(op.ctx, op.create, Admit(cfg, TextOf(op)).value);
      && MadeId(cfg, w, op) == r.Id() && r.Id() !in w.store.db.capsules
      && MadeNumber(cfg, w, op) == 1
      && Step(cfg, w, op).0.store.db == Created(w.store.db, r)
  {
  }

  /** The record of a version that was just made: new, with the maker's tenant and the content's hash. */
  lemma MadeVersionRecord(cfg: Config, w: World, op: Op)
    requires VersionsNumbered(w.store.db) && Makes(cfg, w, op)
    ensures Admit(cfg, TextOf(op)).Ok?
    ensures var (db, id, n) := (Step(cfg, w, op).0.store.db, MadeId(cfg, w, op), MadeNumber(cfg, w, op));
      && id in db.capsules && db.capsules[id].tenant == op.ctx.tenant
      && (id, n) in db.versions && (id, n) !in w.store.db.versions
      && db.versions[(id, n)] == Version(op.ctx.tenant, Admit(cfg, TextOf(op)).value, op.ctx.user)
  {
    if op.PublishOp? {
      MadeByPublish(cfg, w, op);
      NextIsFree(w.store.db, op.publish.id);
    } else {
      MadeByCreate(cfg, w, op);
      VersionsOfNobody(w.store.db, MadeId(cfg, w, op));
    }
  }

  /** Making a version means its text was admitted and accepted by the write-once store. */
  lemma MadeMeansStored(cfg: Config, w: World, op: Op)
    requires Makes(cfg, w, op)
    ensures Admit(cfg, TextOf(op)).Ok?
    ensures var hash := Admit(cfg, TextOf(op)).value;
      && WormStore.Store(w.files, op.ctx.tenant, hash, TextOf(op)).1
      && Step(cfg, w, op).0.files == WormStore.Store(w.files, op.ctx.tenant, hash, TextOf(op)).0
      && Step(cfg, w, op).0.store.db.blobs == WithBlob(w.store.db, op.ctx.tenant, hash, TextOf(op))
  {
  }

  /** No blob is there yet for this content, or the one that is there holds no carriage return. */
  predicate BlobIsExact(w: World, tenant: string, hash: string) {
    (tenant, hash) in w.store.db.blobs ==> '\r' !in w.store.db.blobs[(tenant, hash)]
  }

  /** The blob of a version that was just made holds the submitted text exactly, unless an earlier blob for the same content holds a carriage return. */
  lemma MadeVersionText(cfg: Config, w: World, op: Op)
    requires ContentFits(w) && Makes(cfg, w, op)
    ensures Admit(cfg, TextOf(op)).Ok?
    ensures var (db, hash) := (Step(cfg, w, op).0.store.db, Admit(cfg, TextOf(op)).value);
      && (op.ctx.tenant, hash) in db.blobs
      && ReadText(db.blobs[(op.ctx.tenant, hash)]) == ReadText(TextOf(op))
      && (db.blobs[(op.ctx.tenant, hash)] == TextOf(op) <==> BlobIsExact(w, op.ctx.tenant, hash))
  {
    MadeMeansStored(cfg, w, op);
    var hash := Admit(cfg, TextOf(op)).value;
    if (op.ctx.tenant, hash) in w.store.db.blobs {
      assert BlobFits(w, op.ctx.tenant, hash);
      ReadBackIsExact(w.store.db.blobs[(op.ctx.tenant, hash)]);
      ReadBackIsExact(w.files[WormStore.FilePath(op.ctx.tenant, hash)]);
      ReadBackIsExact(TextOf(op));
    }
  }

  /** What is read of a version that has stayed is the blob it had. */
  lemma ReadIsKept(cfg: Config, w: World, end: World, reader: Context, id: string, n: nat)
    requires Sound(cfg, w) && Sound(cfg, end) && Grown(w, end) && id in w.store.db.capsules
    requires (id, n) in w.store.db.versions && (id, n) in end.store.db.versions && end.store.db.versions[(id, n)] == w.store.db.versions[(id, n)]
    requires Accessible(end.store.db, reader, id).Ok?
    ensures var v := w.store.db.versions[(id, n)];
      (v.tenant, v.hash) in w.store.db.blobs && ReadVersion(end, reader, id, n) == Ok(w.store.db.blobs[(v.tenant, v.hash)])
  {
    ReadsComeFromBlobs(cfg, end, reader, id, n);
    var v := w.store.db.versions[(id, n)];
    assert end.store.db.versions[(id, n)].tenant == end.store.db.capsules[id].tenant == reader.tenant;
    assert (v.tenant, v.hash) in w.store.db.blobs;
  }

  lemma NumberedWithin(db: Db, id: string, n: nat)
    requires VersionsNumbered(db)
    ensures (id, n) in db.versions ==> id in db.capsules && 1 <= n <= db.capsules[id].latestVersion
  {
  }

  /** While its capsule is live a version keeps its record and its blob. */
  lemma VersionStays(cfg: Config, w: World, later: seq<Op>, id: string, n: nat)
    requires Sound(cfg, w) && Survives(cfg, w, later, id) && (id, n) in w.store.db.versions
    ensures var end := Run(cfg, w, later);
      && Sound(cfg, end) && id in end.store.db.capsules && id in w.store.db.capsules
      && end.store.db.capsules[id].tenant == w.store.db.capsules[id].tenant
      && 1 <= n <= end.store.db.capsules[id].latestVersion
      && (id, n) in end.store.db.versions && end.store.db.versions[(id, n)] == w.store.db.versions[(id, n)]
    ensures Grown(w, Run(cfg, w, later))
  {
    assert later[..0] == [] && later[..|later|] == later;
    RunKeepsSound(cfg, w, later);
    RunKeeps(cfg, w, later, id);
    RunGrows(cfg, w, later);
    NumberedWithin(w.store.db, id, n);
    NumberedWithin(Run(cfg, w, later).store.db, id, n);
  }

  /**
   * Reading back: for as long as the capsule is live, whatever else happens, whoever may read it
   * gets the submitted text up to line endings, and gets it exactly if and only if, when it was
   * submitted, no blob with a carriage return was already stored for the same tenant and hash.
   */
  lemma SubmittedTextReadBack(cfg: Config, w: World, op: Op, later: seq<Op>, reader: Context)
    requires Sound(cfg, w) && Makes(cfg, w, op)
    requires Survives(cfg, Step(cfg, w, op).0, later, MadeId(cfg, w, op))
    requires Accessible(Run(cfg, Step(cfg, w, op).0, later).store.db, reader, MadeId(cfg, w, op)).Ok?
    ensures var end := Run(cfg, Step(cfg, w, op).0, later);
      var read := ReadVersion(end, reader, MadeId(cfg, w, op), MadeNumber(cfg, w, op));
      && read.Ok? && ReadText(read.value) == ReadText(TextOf(op))
      && (read.value == TextOf(op) <==> BlobIsExact(w, op.ctx.tenant, Admit(cfg, TextOf(op)).value))
  {
    var w1, id, n := Step(cfg, w, op).0, MadeId(cfg, w, op), MadeNumber(cfg, w, op);
    MadeVersionRecord(cfg, w, op);
    MadeVersionText(cfg, w, op);
    StepKeepsSound(cfg, w, op);
    VersionStays(cfg, w1, later, id, n);
    ReadIsKept(cfg, w1, Run(cfg, w1, later), reader, id, n);
  }

  /** A reader, a validator that finds one document in every text, and the registry after one create with Windows line endings. */
  const SOMEONE := Context("t", "u", {CreateCapsules, ReadCapsules}, false)
  const ONE_DOCUMENT := Config((text: string) => Some("h"), 100, 10)
  const FIRST := CreateRequest(Some("one"), "", "e1", "n1", "u", Org, "a\r\n", "k1")
  const SECOND := CreateRequest(Some("two"), "", "e2", "n2", "u", Org, "a\n", "k2")

  function AfterFirst(): World {
    World(Store(Db(map["one" := Capsule("t", "n1", "u", Org, Active, 1, "e1")],
                   map[("one", 1) := Version("t", "h", "u")],
                   map[("t", "h") := "a\r\n"],
                   [Audit("one", Some(1), "u", CreateEntry, Some("h"))]),
                map["k1" := Remembered("one", 1)]),
          map[WormStore.FilePath("t", "h") := "a\r\n"])
  }

  lemma FirstCreate()
    ensures Create(ONE_DOCUMENT, EMPTY_WORLD, SOMEONE, FIRST).0 == AfterFirst()
  {
    assert Utf8Size("a\r\n") == 3;
    assert Admit(ONE_DOCUMENT, FIRST.text) == Ok("h");
    var (files, stored) := WormStore.Store(map[], "t", "h", FIRST.text);
    assert stored && files == AfterFirst().files;
    var (store, o) := CreateCapsule(EMPTY_WORLD.store, NewCapsuleOf(SOMEONE, FIRST, "h"));
    assert store == AfterFirst().store;
  }

  lemma SecondCreate()
    ensures var (w, o) := Create(ONE_DOCUMENT, AfterFirst(), SOMEONE, SECOND);
      o.Ok? && o.value.created && ReadVersion(w, SOMEONE, "two", 1) == Ok("a\r\n")
  {
    assert Utf8Size("a\n") == 2;
    assert Admit(ONE_DOCUMENT, SECOND.text) == Ok("h");
    assert ReadText("a\r\n") == "a\n";
    var r := NewCapsuleOf(SOMEONE, SECOND, "h");
    var (store, o) := CreateCapsule(AfterFirst().store, r);
    assert !NameTaken(AfterFirst().store.db, "t", "n2");
    assert store.db == Created(AfterFirst().store.db, r);
  }

  /** Two texts of one document, from the empty registry: the second capsule's reader gets the first one's line endings. */
  lemma ForeignLineEndings()
    ensures var first := Run(ONE_DOCUMENT, EMPTY_WORLD, [CreateOp(SOMEONE, FIRST)]);
      var both := Run(ONE_DOCUMENT, EMPTY_WORLD, [CreateOp(SOMEONE, FIRST), CreateOp(SOMEONE, SECOND)]);
      && Makes(ONE_DOCUMENT, first, CreateOp(SOMEONE, SECOND)) && SECOND.text == "a\n"
      && ReadVersion(both, SOMEONE, "two", 1) == Ok("a\r\n")
  {
    FirstCreate();
    SecondCreate();
    var ops := [CreateOp(SOMEONE, FIRST), CreateOp(SOMEONE, SECOND)];
    assert [CreateOp(SOMEONE, FIRST)][..0] == [] && ops[..1] == [CreateOp(SOMEONE, FIRST)];
    assert Run(ONE_DOCUMENT, EMPTY_WORLD, []) == EMPTY_WORLD;
    assert Run(ONE_DOCUMENT, EMPTY_WORLD, [CreateOp(SOMEONE, FIRST)]) == AfterFirst();
  }
}
