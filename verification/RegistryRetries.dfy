/** Retried requests: what an idempotency key guarantees, and exactly when a retry is answered. */
module RegistryRetries {
  import opened Wrappers
  import opened RegistryModels
  import opened CapsuleRepository
  import opened CapsuleRegistry
  import opened RegistryRuns
  import opened RegistryReads
  import opened UniversalNewlines
  import WormStore

  /** A request under a key already used changes no table: no capsule, no version, no blob, no audit entry, no result. */
  lemma KnownKeyChangesNoTable(cfg: Config, w: World, op: Op)
    requires (op.CreateOp? || op.PublishOp?) && KeyOf(op) in w.store.results
    ensures Step(cfg, w, op).0.store == w.store && !Makes(cfg, w, op)
  {
  }

  /** How many operations of a run made a version under `key`. */
  function MadeUnder(cfg: Config, w: World, ops: seq<Op>, key: string): nat {
    if ops == [] then 0
    else
      var init, last := ops[..|ops| - 1], ops[|ops| - 1];
      MadeUnder(cfg, w, init, key) +
      if (last.CreateOp? || last.PublishOp?) && KeyOf(last) == key && Makes(cfg, Run(cfg, w, init), last) then 1 else 0
  }

  /** Each key makes at most one version over any run, of whatever operations on whatever capsules, deletions included. */
  lemma {:induction false} KeyMakesAtMostOnce(cfg: Config, w: World, ops: seq<Op>, key: string)
    ensures MadeUnder(cfg, w, ops, key) <= 1
    ensures key in w.store.results ==> MadeUnder(cfg, w, ops, key) == 0
    ensures MadeUnder(cfg, w, ops, key) == 1 ==> key in Run(cfg, w, ops).store.results
  {
    if ops != [] {
      var init, last := ops[..|ops| - 1], ops[|ops| - 1];
      KeyMakesAtMostOnce(cfg, w, init, key);
      RunGrows(cfg, w, init);
      StepGrows(cfg, Run(cfg, w, init), last);
      if (last.CreateOp? || last.PublishOp?) && KeyOf(last) == key && key in Run(cfg, w, init).store.results {
        KnownKeyChangesNoTable(cfg, Run(cfg, w, init), last);
      }
    }
  }

  /** The service never meets a replay without a version record. */
  lemma ReplaysNeverCrash(cfg: Config, w: World, op: Op)
    requires Consistent(w.store.db) && (op.CreateOp? || op.PublishOp?)
    ensures Step(cfg, w, op).1.receipt != Err(Crash)
  {
  }

  lemma KeyRemembersMaking(cfg: Config, w: World, op: Op)
    requires Makes(cfg, w, op)
    ensures var results := Step(cfg, w, op).0.store.results;
      KeyOf(op) in results && results[KeyOf(op)] == Remembered(MadeId(cfg, w, op), MadeNumber(cfg, w, op))
  {
  }

  /** After any later run in which the capsule stays live, the key still leads to the version made under it. */
  lemma KeyLeadsToVersion(cfg: Config, w: World, op: Op, later: seq<Op>)
    requires Sound(cfg, w) && Makes(cfg, w, op)
    requires Survives(cfg, Step(cfg, w, op).0, later, MadeId(cfg, w, op))
    ensures Admit(cfg, TextOf(op)).Ok?
    ensures var (end, id, n) := (Run(cfg, Step(cfg, w, op).0, later), MadeId(cfg, w, op), MadeNumber(cfg, w, op));
      && id in end.store.db.capsules && end.store.db.capsules[id].tenant == op.ctx.tenant
      && KeyOf(op) in end.store.results && end.store.results[KeyOf(op)] == Remembered(id, n)
      && FindVersion(end.store.db, op.ctx.tenant, id, n) == Some(Version(op.ctx.tenant, Admit(cfg, TextOf(op)).value, op.ctx.user))
  {
    StepKeepsSound(cfg, w, op);
    MadeVersionRecord(cfg, w, op);
    KeyRemembersMaking(cfg, w, op);
    VersionStays(cfg, Step(cfg, w, op).0, later, MadeId(cfg, w, op), MadeNumber(cfg, w, op));
  }

  /** While the capsule is live, a repeated publish under the key gets the original version record, however many were published since. */
  lemma PublishReplayReturnsOriginal(cfg: Config, w: World, op: Op, later: seq<Op>, again: NewVersion)
    requires Sound(cfg, w) && op.PublishOp? && Makes(cfg, w, op)
    requires Survives(cfg, Step(cfg, w, op).0, later, op.publish.id)
    requires again.key == op.publish.key && again.id == op.publish.id && again.tenant == op.ctx.tenant
    ensures var end := Run(cfg, Step(cfg, w, op).0, later);
      var original := Version(op.ctx.tenant, Admit(cfg, op.publish.text).value, op.ctx.user);
      PublishVersionOf(end.store, again) ==
      (end.store, Ok(Receipt(op.publish.id, MadeNumber(cfg, w, op), Some(original), false)))
  {
    MadeByPublish(cfg, w, op);
    KeyLeadsToVersion(cfg, w, op, later);
  }

  /** How many versions of a capsule a run published. */
  function PublishesOf(cfg: Config, w: World, ops: seq<Op>, id: string): nat {
    if ops == [] then 0
    else
      var init, last := ops[..|ops| - 1], ops[|ops| - 1];
      PublishesOf(cfg, w, init, id) + if last.PublishOp? && last.publish.id == id && Makes(cfg, Run(cfg, w, init), last) then 1 else 0
  }

  lemma StepCountsPublish(cfg: Config, w: World, op: Op, id: string)
    requires id in w.store.db.capsules && id in Step(cfg, w, op).0.store.db.capsules
    ensures Step(cfg, w, op).0.store.db.capsules[id].latestVersion ==
            w.store.db.capsules[id].latestVersion + if op.PublishOp? && op.publish.id == id && Makes(cfg, w, op) then 1 else 0
  {
    StepIsChange(cfg, w, op);
  }

  /** A live capsule's latest version counts the versions published. */
  lemma {:induction false} LatestCountsPublishes(cfg: Config, w: World, ops: seq<Op>, id: string)
    requires Survives(cfg, w, ops, id) && id in w.store.db.capsules && id in Run(cfg, w, ops).store.db.capsules
    ensures Run(cfg, w, ops).store.db.capsules[id].latestVersion == w.store.db.capsules[id].latestVersion + PublishesOf(cfg, w, ops, id)
  {
    if ops != [] {
      var init := ops[..|ops| - 1];
      SurvivesInit(cfg, w, ops, id);
      LatestCountsPublishes(cfg, w, init, id);
      StepCountsPublish(cfg, Run(cfg, w, init), ops[|ops| - 1], id);
    }
  }

  /**
   * A repeated create under the key always finds a version, but it is the latest one: it is the
   * version that was created exactly when nothing has been published since.
   */
  lemma CreateReplayReturnsLatest(cfg: Config, w: World, op: Op, later: seq<Op>, again: NewCapsule)
    requires Sound(cfg, w) && op.CreateOp? && Makes(cfg, w, op)
    requires Survives(cfg, Step(cfg, w, op).0, later, MadeId(cfg, w, op))
    requires again.key == op.create.key && again.tenant == op.ctx.tenant
    ensures var (end, id) := (Run(cfg, Step(cfg, w, op).0, later), MadeId(cfg, w, op));
      var (store, o) := CreateCapsule(end.store, again);
      && store == end.store && o.Ok? && o.value.id == id && !o.value.created
      && o.value.number == 1 + PublishesOf(cfg, Step(cfg, w, op).0, later, id)
      && (id, o.value.number) in end.store.db.versions
      && o.value.version == Some(end.store.db.versions[(id, o.value.number)])
  {
    var w1, id := Step(cfg, w, op).0, MadeId(cfg, w, op);
    StepKeepsSound(cfg, w, op);
    MadeByCreate(cfg, w, op);
    MadeVersionRecord(cfg, w, op);
    KeyRemembersMaking(cfg, w, op);
    VersionStays(cfg, w1, later, id, 1);
    LatestCountsPublishes(cfg, w1, later, id);
    var db := Run(cfg, w1, later).store.db;
    assert (id, db.capsules[id].latestVersion) in db.versions;
  }

  /** A text that was stored once is accepted by the write-once store again, at any later time, exactly when it holds no carriage return. */
  lemma StoredAgainIff(cfg: Config, w: World, op: Op, later: seq<Op>)
    requires Makes(cfg, w, op)
    ensures Admit(cfg, TextOf(op)).Ok?
    ensures var end := Run(cfg, Step(cfg, w, op).0, later);
      WormStore.Store(end.files, op.ctx.tenant, Admit(cfg, TextOf(op)).value, TextOf(op)).1 <==> '\r' !in TextOf(op)
  {
    MadeMeansStored(cfg, w, op);
    var w1, t, h, text := Step(cfg, w, op).0, op.ctx.tenant, Admit(cfg, TextOf(op)).value, TextOf(op);
    RunGrows(cfg, w1, later);
    WormStore.StoringAgain(w.files, t, h, text);
    assert WormStore.KeptAt(w1.files, Run(cfg, w1, later).files, t, h);
  }

  /** How far a publish gets whose caller, capsule and text are in order. */
  lemma PublishReachesKey(cfg: Config, w: World, ctx: Context, q: PublishRequest)
    requires PublishVersions in ctx.permissions && FindCapsule(w.store.db, ctx.tenant, q.id).Some? && Admit(cfg, q.text).Ok?
    ensures var o := Publish(cfg, w, ctx, q).1;
      var stored := WormStore.Store(w.files, ctx.tenant, Admit(cfg, q.text).value, q.text).1;
      if w.store.db.capsules[q.id].latestVersion < cfg.maxVersions && stored
      then o == Dereference(PublishVersionOf(w.store, NewVersionOf(ctx, q, Admit(cfg, q.text).value)).1)
      else o.Err?
  {
  }

  /**
   * Retrying a successful publish request through the service, while the capsule is live: it is
   * answered, with the original version, exactly when the capsule is still below the version limit
   * and the text holds no carriage return. Limit and write-once store are asked before the key.
   */
  lemma PublishRetryAnsweredIff(cfg: Config, w: World, op: Op, later: seq<Op>, freshEtag: string)
    requires Sound(cfg, w) && op.PublishOp? && Makes(cfg, w, op)
    requires Survives(cfg, Step(cfg, w, op).0, later, op.publish.id)
    ensures var end := Run(cfg, Step(cfg, w, op).0, later);
      var o := Publish(cfg, end, op.ctx, op.publish.(freshEtag := freshEtag)).1;
      && op.publish.id in end.store.db.capsules
      && (o.Ok? <==> end.store.db.capsules[op.publish.id].latestVersion < cfg.maxVersions && '\r' !in op.publish.text)
      && (o.Ok? ==> o.value.number == MadeNumber(cfg, w, op) && !o.value.created
                    && o.value.version == Some(Version(op.ctx.tenant, Admit(cfg, op.publish.text).value, op.ctx.user)))
  {
    var again := op.publish.(freshEtag := freshEtag);
    MadeByPublish(cfg, w, op);
    KeyLeadsToVersion(cfg, w, op, later);
    StoredAgainIff(cfg, w, op, later);
    PublishReplayReturnsOriginal(cfg, w, op, later, NewVersionOf(op.ctx, again, Admit(cfg, again.text).value));
    PublishReachesKey(cfg, Run(cfg, Step(cfg, w, op).0, later), op.ctx, again);
  }

  /** Retrying a successful create request through the service, while the capsule is live, is answered exactly when the text holds no carriage return. */
  lemma CreateRetryAnsweredIff(cfg: Config, w: World, op: Op, later: seq<Op>, again: CreateRequest)
    requires Sound(cfg, w) && op.CreateOp? && Makes(cfg, w, op)
    requires Survives(cfg, Step(cfg, w, op).0, later, MadeId(cfg, w, op))
    requires again.text == op.create.text && again.key == op.create.key
    ensures var end := Run(cfg, Step(cfg, w, op).0, later);
      var o := Create(cfg, end, op.ctx, again).1;
      && (o.Ok? <==> '\r' !in op.create.text)
      && (o.Ok? ==> o.value.id == MadeId(cfg, w, op) && !o.value.created
                    && o.value.number == 1 + PublishesOf(cfg, Step(cfg, w, op).0, later, MadeId(cfg, w, op)))
  {
    StoredAgainIff(cfg, w, op, later);
    CreateReplayReturnsLatest(cfg, w, op, later, NewCapsuleOf(op.ctx, again, Admit(cfg, again.text).value));
  }

  lemma RunTwo(cfg: Config, a: Op, b: Op)
    ensures Run(cfg, EMPTY_WORLD, [a]) == Step(cfg, EMPTY_WORLD, a).0
    ensures Run(cfg, EMPTY_WORLD, [a, b]) == Step(cfg, Step(cfg, EMPTY_WORLD, a).0, b).0
  {
    assert [a][..0] == [] && [a, b][..1] == [a];
    assert Run(cfg, EMPTY_WORLD, []) == EMPTY_WORLD;
  }

  /** A create of a text with a carriage return, and its retry. */
  lemma RetryRefusedExample()
    ensures Makes(ONE_DOCUMENT, EMPTY_WORLD, CreateOp(SOMEONE, FIRST))
    ensures Step(ONE_DOCUMENT, Run(ONE_DOCUMENT, EMPTY_WORLD, [CreateOp(SOMEONE, FIRST)]), CreateOp(SOMEONE, FIRST)).1
         == Receipted(Err(StorageFailure))
  {
    FirstCreate();
    RunTwo(ONE_DOCUMENT, CreateOp(SOMEONE, FIRST), CreateOp(SOMEONE, FIRST));
    assert Utf8Size("a\r\n") == 3;
    assert ReadText("a\r\n") == "a\n";
  }

  /** A publisher, validators that tell texts apart with room for two versions or for three, and a capsule with two versions. */
  const PUBLISHER := Context("t", "u", {CreateCapsules, PublishVersions}, false)
  const CREATE := CreateOp(PUBLISHER, CreateRequest(Some("c"), "", "e1", "n", "u", Org, "a", "k1"))
  const PUBLISH := PublishOp(PUBLISHER, PublishRequest("c", "e2", "b", "k2"))

  function Limited(maxVersions: int): Config {
    Config((text: string) => Some(text), 100, maxVersions)
  }

  function OneVersion(): World {
    World(Store(Db(map["c" := Capsule("t", "n", "u", Org, Active, 1, "e1")],
                   map[("c", 1) := Version("t", "a", "u")],
                   map[("t", "a") := "a"],
                   [Audit("c", Some(1), "u", CreateEntry, Some("a"))]),
                map["k1" := Remembered("c", 1)]),
          map[WormStore.FilePath("t", "a") := "a"])
  }

  function TwoVersions(): World {
    World(Store(Db(map["c" := Capsule("t", "n", "u", Org, Active, 2, "e2")],
                   map[("c", 1) := Version("t", "a", "u"), ("c", 2) := Version("t", "b", "u")],
                   map[("t", "a") := "a", ("t", "b") := "b"],
                   [Audit("c", Some(1), "u", CreateEntry, Some("a")), Audit("c", Some(2), "u", PublishEntry, Some("b"))]),
                map["k1" := Remembered("c", 1), "k2" := Remembered("c", 2)]),
          map[WormStore.FilePath("t", "a") := "a", WormStore.FilePath("t", "b") := "b"])
  }

  lemma LettersAdmitted(maxVersions: int)
    ensures Admit(Limited(maxVersions), "a") == Ok("a") && Admit(Limited(maxVersions), "b") == Ok("b")
  {
    assert Utf8Size("a") == 1 && Utf8Size("b") == 1;
  }

  lemma CreateStep(maxVersions: int)
    ensures Makes(Limited(maxVersions), EMPTY_WORLD, CREATE) && Step(Limited(maxVersions), EMPTY_WORLD, CREATE).0 == OneVersion()
  {
    LettersAdmitted(maxVersions);
    var r := NewCapsuleOf(PUBLISHER, CREATE.create, "a");
    var (files, stored) := WormStore.Store(map[], "t", "a", "a");
    assert stored && files == OneVersion().files;
    assert CreateCapsule(EMPTY_WORLD.store, r).0 == OneVersion().store;
  }

  lemma SecondTextStored()
    ensures WormStore.Store(OneVersion().files, "t", "b", "b") == (TwoVersions().files, true)
  {
    WormStore.DistinctFiles("t", "a", "t", "b");
    var files := OneVersion().files;
    assert files - {WormStore.TempPath("t", "b")} == files;
    assert files[WormStore.FilePath("t", "b") := "b"] == TwoVersions().files;
  }

  lemma SecondVersionPublished()
    ensures var (store, o) := PublishVersionOf(OneVersion().store, NewVersionOf(PUBLISHER, PUBLISH.publish, "b"));
      store == TwoVersions().store && o == Ok(Receipt("c", 2, Some(Version("t", "b", "u")), true))
  {
    var r := NewVersionOf(PUBLISHER, PUBLISH.publish, "b");
    assert !HashPublished(OneVersion().store.db, "t", "c", "b");
    assert Published(OneVersion().store.db, r) == TwoVersions().store.db;
  }

  lemma PublishStep(maxVersions: int)
    requires maxVersions >= 2
    ensures Makes(Limited(maxVersions), OneVersion(), PUBLISH) && Step(Limited(maxVersions), OneVersion(), PUBLISH).0 == TwoVersions()
  {
    LettersAdmitted(maxVersions);
    SecondTextStored();
    SecondVersionPublished();
  }

  lemma TwoVersionsMade(maxVersions: int)
    requires maxVersions >= 2
    ensures Run(Limited(maxVersions), EMPTY_WORLD, [CREATE, PUBLISH]) == TwoVersions()
  {
    CreateStep(maxVersions);
    PublishStep(maxVersions);
    RunTwo(Limited(maxVersions), CREATE, PUBLISH);
  }

  /** With room for two versions: create, publish, and the retry of the publish is refused. */
  lemma LimitBeforeKeyExample()
    ensures Makes(Limited(2), Run(Limited(2), EMPTY_WORLD, [CREATE]), PUBLISH)
    ensures Step(Limited(2), Run(Limited(2), EMPTY_WORLD, [CREATE, PUBLISH]), PUBLISH).1 == Receipted(Err(Conflict))
  {
    CreateStep(2);
    PublishStep(2);
    RunTwo(Limited(2), CREATE, PUBLISH);
  }

  /** Create, publish, and the retry of the create is answered with version 2. */
  lemma CreateReplayExample(maxVersions: int)
    requires maxVersions >= 2
    ensures Makes(Limited(maxVersions), EMPTY_WORLD, CREATE)
    ensures Step(Limited(maxVersions), Run(Limited(maxVersions), EMPTY_WORLD, [CREATE, PUBLISH]), CREATE).1
         == Receipted(Ok(Receipt("c", 2, Some(Version("t", "b", "u")), false)))
  {
    CreateStep(maxVersions);
    TwoVersionsMade(maxVersions);
    LettersAdmitted(maxVersions);
    WormStore.DistinctFiles("t", "a", "t", "b");
    assert ReadText("a") == "a";
  }
}
