/** What readers get of the versions that concurrent publishers make. */
module PublisherReads {
  import opened Wrappers
  import opened RegistryModels
  import opened CapsuleRepository
  import opened CapsuleRegistry
  import opened RegistryContent
  import opened UniversalNewlines
  import opened Publishing
  import opened CapsuleHistories
  import opened CommitOrder
  import TakenIds
  import WormStore

  ghost predicate FileKnown(files: WormStore.Files, b: Publisher) {
    PastStore(b.phase) ==> HasFile(files, b.request.tenant, b.request.hash, b.request.text)
  }

  /** Blobs match the files and are not empty, and every publisher past its store step has its file, in whatever state the other tables are. */
  ghost predicate ContentInOrder(s: System) {
    && ContentFits(WorldOf(s)) && BlobsKnown(s)
    && (forall k :: k in s.db.blobs ==> s.db.blobs[k] != "")
    && (forall who :: who in s.publishers ==> FileKnown(s.files, s.publishers[who]))
  }

  lemma FileStaysKnown(files: WormStore.Files, files': WormStore.Files, b: Publisher)
    requires FileKnown(files, b) && WormStore.FilesKept(files, files')
    ensures FileKnown(files', b)
  {
    if PastStore(b.phase) {
      assert WormStore.KeptAt(files, files', b.request.tenant, b.request.hash);
    }
  }

  lemma FilesStayKnown(s: System, files': WormStore.Files)
    requires (forall who :: who in s.publishers ==> FileKnown(s.files, s.publishers[who])) && WormStore.FilesKept(s.files, files')
    ensures forall who :: who in s.publishers ==> FileKnown(files', s.publishers[who])
  {
    forall who | who in s.publishers
      ensures FileKnown(files', s.publishers[who])
    {
      FileStaysKnown(s.files, files', s.publishers[who]);
    }
  }

  lemma LookKeepsFiles(s: System, who: nat)
    requires who in s.publishers && !s.publishers[who].phase.Ready? && !s.publishers[who].phase.Checked?
    ensures var s' := AdvanceOne(s, who);
      && s'.files == s.files && who in s'.publishers && s'.publishers[who].request == s.publishers[who].request
      && (PastStore(s'.publishers[who].phase) ==> PastStore(s.publishers[who].phase))
  {
  }

  /** A step that stores at most, and touches no blob. */
  lemma LookContent(s: System, who: nat)
    requires ContentInOrder(s) && who in s.publishers && !s.publishers[who].phase.Ready?
    ensures var s' := AdvanceOne(s, who);
      && WormStore.FilesKept(s.files, s'.files)
      && who in s'.publishers && FileKnown(s'.files, s'.publishers[who])
  {
    var r := s.publishers[who].request;
    WormStore.StoreKeeps(s.files, r.tenant, r.hash, r.text);
    assert FileKnown(s.files, s.publishers[who]);
    if s.publishers[who].phase.Checked? {
      var (files, stored) := WormStore.Store(s.files, r.tenant, r.hash, r.text);
      var p := s.publishers[who].phase;
      assert AdvanceOne(s, who) == Moved(s, who, if stored then Stored(p.latest, p.status) else Refused).(files := files);
    } else {
      LookKeepsFiles(s, who);
    }
  }

  lemma LookKeepsContent(s: System, who: nat)
    requires ContentInOrder(s) && who in s.publishers && !s.publishers[who].phase.Ready?
    ensures ContentInOrder(AdvanceOne(s, who))
  {
    var s' := AdvanceOne(s, who);
    NoCommit(s, who);
    LookContent(s, who);
    FilesStillFit(WorldOf(s), Store(s'.db, s'.results), s'.files);
    StepKeepsKnown(s, Advance(who));
    FilesStayKnown(s, s'.files);
  }

  /** What a commit, refused or not, does to blobs and files. */
  lemma CommitContent(s: System, who: nat)
    requires who in s.publishers && s.publishers[who].phase.Ready?
    ensures var (r, s') := (s.publishers[who].request, AdvanceOne(s, who));
      && s'.files == s.files
      && (s'.db.blobs == s.db.blobs || (s'.db.blobs == WithBlob(s.db, r.tenant, r.hash, r.text) && r.text != ""))
  {
    var (r, p) := (s.publishers[who].request, s.publishers[who].phase);
    PublishRowsApply(s.db, r, p.latest + 1, p.newBlob);
  }

  lemma FilesKeptAsTheyAre(files: WormStore.Files)
    ensures WormStore.FilesKept(files, files)
  {
  }

  lemma CommitKeepsContent(s: System, who: nat)
    requires ContentInOrder(s) && who in s.publishers && s.publishers[who].phase.Ready?
    ensures ContentInOrder(AdvanceOne(s, who))
  {
    var (r, s') := (s.publishers[who].request, AdvanceOne(s, who));
    CommitContent(s, who);
    CommitKeepsBlobs(s, who);
    StepKeepsKnown(s, Advance(who));
    assert FileKnown(s.files, s.publishers[who]);
    if s'.db.blobs == s.db.blobs {
      FilesKeptAsTheyAre(s.files);
      FilesStillFit(WorldOf(s), Store(s'.db, s'.results), s'.files);
    } else {
      NewBlobFits(WorldOf(s), r.tenant, r.hash, r.text, Store(s'.db, s'.results));
    }
  }

  lemma CreateBlobNotEmpty(db: Db, c: NewCapsule)
    ensures ApplyAll(db, CreateRows(db, c)).Some? ==> (c.tenant, c.hash) in db.blobs || c.text != ""
  {
    if c.Id() in db.capsules || (c.Id(), 1) !in db.versions {
      CreateCommits(db, c);
    } else {
      CreateNumberTaken(db, c);
    }
  }

  lemma CreateContent(s: System, c: NewCapsule)
    ensures var s' := Step(s, CreateNew(c));
      && s'.files == FilesAfter(s, c) && s'.publishers == s.publishers && s'.results == s.results
      && (s'.db.blobs == s.db.blobs || (s'.db.blobs == WithBlob(s.db, c.tenant, c.hash, c.text) && c.text != ""
                                        && WormStore.Store(s.files, c.tenant, c.hash, c.text).1))
  {
    CreateRowsEffect(s.db, c);
    CreateBlobNotEmpty(s.db, c);
  }

  lemma CreateKeepsContent(s: System, c: NewCapsule)
    requires ContentInOrder(s)
    ensures ContentInOrder(Step(s, CreateNew(c)))
  {
    var s' := Step(s, CreateNew(c));
    CreateContent(s, c);
    StepKeepsKnown(s, CreateNew(c));
    WormStore.StoreKeeps(s.files, c.tenant, c.hash, c.text);
    FilesStayKnown(s, s'.files);
    if s'.db.blobs == s.db.blobs {
      FilesStillFit(WorldOf(s), Store(s'.db, s'.results), s'.files);
    } else {
      StoringFits(WorldOf(s), c.tenant, c.hash, c.text, s'.db);
    }
  }

  lemma RowsKeepContent(s: System, db': Db)
    requires ContentInOrder(s) && db'.blobs == s.db.blobs
    ensures ContentInOrder(s.(db := db'))
  {
    FilesKeptAsTheyAre(s.files);
    FilesStillFit(WorldOf(s), Store(db', s.results), s.files);
  }

  lemma StepKeepsContent(s: System, a: Action)
    requires ContentInOrder(s)
    ensures ContentInOrder(Step(s, a))
  {
    match a
    case Advance(who) =>
      if who in s.publishers {
        if s.publishers[who].phase.Ready? {
          CommitKeepsContent(s, who);
        } else {
          LookKeepsContent(s, who);
        }
      }
    case CreateNew(c) => CreateKeepsContent(s, c);
    case ChangeStatus(id, status, actor, etag) =>
      StatusStep(s, id, status, actor, etag);
      RowsKeepContent(s, Step(s, a).db);
    case Delete(id, actor) =>
      DeleteStep(s, id, actor);
      RowsKeepContent(s, Step(s, a).db);
  }

  lemma {:induction false} RunKeepsContent(s: System, schedule: seq<Action>)
    requires ContentInOrder(s)
    ensures ContentInOrder(Run(s, schedule)) && BlobsKept(s.db, Run(s, schedule).db)
  {
    if schedule != [] {
      var mid := Run(s, schedule[..|schedule| - 1]);
      RunKeepsContent(s, schedule[..|schedule| - 1]);
      StepKeepsContent(mid, schedule[|schedule| - 1]);
      StepKeepsBlobs(mid, schedule[|schedule| - 1]);
    }
  }

  lemma InitialContent(s: System)
    requires Initial(s)
    ensures ContentInOrder(s)
  {
  }

  /** Two texts that one file stands for are the same up to line endings, and the same exactly when both or neither hold a carriage return. */
  lemma TextsOfOneFile(files: WormStore.Files, t: string, h: string, a: string, b: string)
    requires HasFile(files, t, h, a) && HasFile(files, t, h, b)
    ensures ReadText(a) == ReadText(b)
    ensures a == b <==> ('\r' in a <==> '\r' in b)
  {
    var f := files[WormStore.FilePath(t, h)];
    ReadBackIsExact(f);
    ReadTextHasNoCarriageReturn(f);
  }

  /** The publisher's next step is a commit that goes through. */
  predicate Commits(s: System, who: nat) {
    && who in s.publishers && s.publishers[who].phase.Ready?
    && who in AdvanceOne(s, who).publishers && AdvanceOne(s, who).publishers[who].phase.Committed?
  }

  /** The record and the blob of a version that was just committed. */
  lemma CommittedRecord(s: System, who: nat)
    requires ContentInOrder(s) && Commits(s, who) && InOrderAt(s, s.publishers[who].request.id)
    ensures var (r, s') := (s.publishers[who].request, AdvanceOne(s, who));
      var n := s'.publishers[who].phase.number;
      && (r.id, n) in s'.db.versions && s'.db.versions[(r.id, n)] == Version(r.tenant, r.hash, r.actor)
      && r.id in s'.db.capsules && s'.db.capsules[r.id].tenant == r.tenant
      && (r.tenant, r.hash) in s'.db.blobs
      && HasFile(s'.files, r.tenant, r.hash, r.text)
      && s'.db.blobs[(r.tenant, r.hash)] == WithBlob(s.db, r.tenant, r.hash, r.text)[(r.tenant, r.hash)]
  {
    assert FileKnown(s.files, s.publishers[who]);
    var success := CommitStep(s, who);
  }

  /** No blob is there yet for the content, or it agrees with the text on whether there is a carriage return. */
  predicate BlobAgrees(db: Db, r: NewVersion) {
    (r.tenant, r.hash) in db.blobs ==> ('\r' in db.blobs[(r.tenant, r.hash)] <==> '\r' in r.text)
  }

  lemma CommittedText(s: System, who: nat)
    requires ContentInOrder(s) && Commits(s, who) && InOrderAt(s, s.publishers[who].request.id)
    ensures var (r, db') := (s.publishers[who].request, AdvanceOne(s, who).db);
      && (r.tenant, r.hash) in db'.blobs
      && ReadText(db'.blobs[(r.tenant, r.hash)]) == ReadText(r.text)
      && (db'.blobs[(r.tenant, r.hash)] == r.text <==> BlobAgrees(s.db, r))
  {
    var (r, s') := (s.publishers[who].request, AdvanceOne(s, who));
    CommittedRecord(s, who);
    CommitKeepsContent(s, who);
    assert BlobFits(WorldOf(s'), r.tenant, r.hash);
    TextsOfOneFile(s'.files, r.tenant, r.hash, s'.db.blobs[(r.tenant, r.hash)], r.text);
  }

  /** What is read of a version whose rows and blob are there. */
  lemma ReadOfRows(w: World, reader: Context, id: string, n: nat, v: Version)
    requires Accessible(w.store.db, reader, id).Ok? && (id, n) in w.store.db.versions && w.store.db.versions[(id, n)] == v
    requires v.tenant == w.store.db.capsules[id].tenant && (v.tenant, v.hash) in w.store.db.blobs && w.store.db.blobs[(v.tenant, v.hash)] != ""
    ensures ReadVersion(w, reader, id, n) == Ok(w.store.db.blobs[(v.tenant, v.hash)])
  {
  }

  lemma KeptVersion(s: System, after: seq<Action>, reader: Context, id: string, n: nat)
    requires InOrderAt(s, id) && ContentInOrder(s) && NeverCreated(after, id) && (id, n) in s.db.versions
    requires var v := s.db.versions[(id, n)]; (v.tenant, v.hash) in s.db.blobs
    requires Accessible(Run(s, after).db, reader, id).Ok?
    ensures var v := s.db.versions[(id, n)];
      ReadVersion(WorldOf(Run(s, after)), reader, id, n) == Ok(s.db.blobs[(v.tenant, v.hash)])
  {
    RunKeepsOrder(s, after, id);
    RunKeepsContent(s, after);
    var v := s.db.versions[(id, n)];
    assert (id, n) in Run(s, after).db.versions && Run(s, after).db.versions[(id, n)] == v;
    ReadOfRows(WorldOf(Run(s, after)), reader, id, n, v);
  }

  lemma CommittedThenRead(mid: System, who: nat, after: seq<Action>, reader: Context, made: System)
    requires ContentInOrder(mid) && Commits(mid, who) && InOrderAt(mid, mid.publishers[who].request.id) && made == AdvanceOne(mid, who)
    requires var id := mid.publishers[who].request.id; NeverCreated(after, id) && Accessible(Run(made, after).db, reader, id).Ok?
    ensures var r := mid.publishers[who].request;
      var read := ReadVersion(WorldOf(Run(made, after)), reader, r.id, made.publishers[who].phase.number);
      && read.Ok? && ReadText(read.value) == ReadText(r.text)
      && (read.value == r.text <==> BlobAgrees(mid.db, r))
  {
    var r := mid.publishers[who].request;
    CommittedRecord(mid, who);
    CommittedText(mid, who);
    AdvanceKeepsOrder(mid, who, r.id);
    CommitKeepsContent(mid, who);
    KeptVersion(made, after, reader, r.id, made.publishers[who].phase.number);
  }

  /**
   * Reading back what a publisher published: whenever in an interleaving it commits, and whatever
   * follows while the capsule is live and its id is not taken anew, readers get the submitted text
   * up to line endings, and exactly if and only if no blob was there for the content at the commit
   * or that agrees with the text on whether there is a carriage return.
   */
  lemma PublishedTextReadBack(s: System, before: seq<Action>, who: nat, after: seq<Action>, reader: Context)
    requires Initial(s) && Commits(Run(s, before), who)
    requires var id := Run(s, before).publishers[who].request.id;
      && NeverCreated(before, id) && NeverCreated(after, id)
      && Accessible(Run(Step(Run(s, before), Advance(who)), after).db, reader, id).Ok?
    ensures var (mid, made) := (Run(s, before), Step(Run(s, before), Advance(who)));
      var r := mid.publishers[who].request;
      var read := ReadVersion(WorldOf(Run(made, after)), reader, r.id, made.publishers[who].phase.number);
      && read.Ok? && ReadText(read.value) == ReadText(r.text)
      && (read.value == r.text <==> BlobAgrees(mid.db, r))
  {
    var mid, made := Run(s, before), Step(Run(s, before), Advance(who));
    var r := mid.publishers[who].request;
    InitialInOrder(s, r.id);
    InitialContent(s);
    RunKeepsOrder(s, before, r.id);
    RunKeepsContent(s, before);
    CommittedThenRead(mid, who, after, reader, made);
  }

  /** A publisher of a text with Windows line endings, and a create of the same document without. */
  const WINDOWS := NewVersion("c", "e3", "t", "a\r\n", "h3", "u", "k3")
  const UNIX := NewCapsule(Some("d"), "", "e4", "t", "other", "u", Private, "a\n", "h3", "u", "k4")
  const ONE_WINDOWS := TakenIds.ONE_VERSION.(publishers := map[0 := Publisher(WINDOWS, Arrived)])

  /** The create comes between the publisher's store step and its look for the blob. */
  const BETWEEN: seq<Action> := (GoOn(0, 2) + [CreateNew(UNIX)]) + GoOn(0, 4)

  function WindowsStored(): System {
    Moved(ONE_WINDOWS, 0, Stored(1, Active)).(files := WormStore.Store(ONE_WINDOWS.files, "t", "h3", "a\r\n").0)
  }

  function UnixCreated(): System {
    WindowsStored().(db := Created(WindowsStored().db, UNIX))
  }

  lemma ToWindowsStored()
    ensures Run(ONE_WINDOWS, GoOn(0, 2)) == WindowsStored()
  {
    TakenIds.NoFileYet("t", "h3");
    var checked := Moved(ONE_WINDOWS, 0, Checked(1, Active));
    assert AdvanceOne(ONE_WINDOWS, 0) == checked;
    assert AdvanceOne(checked, 0) == WindowsStored();
    GoOnStep(ONE_WINDOWS, 0, 2);
    GoOnStep(checked, 0, 1);
    GoOnNot(WindowsStored(), 0);
  }

  lemma UnixNotRefused()
    ensures VersionsNumbered(WindowsStored().db) && !CreateRefused(WindowsStored().db, UNIX)
  {
    TakenIds.OneVersionTablesFit();
  }

  lemma UnixStored()
    ensures WormStore.Store(WindowsStored().files, "t", "h3", "a\n") == (WindowsStored().files, true)
  {
    TakenIds.NoFileYet("t", "h3");
    assert ReadText("a\r\n") == "a\n";
    assert WindowsStored().files[WormStore.FilePath("t", "h3")] == "a\r\n";
  }

  lemma ToUnixCreated()
    ensures Step(WindowsStored(), CreateNew(UNIX)) == UnixCreated()
  {
    UnixNotRefused();
    UnixStored();
    CreateStep(WindowsStored(), UNIX);
  }

  lemma WindowsIsNew()
    ensures var db := UnixCreated().db;
      && !HashPublished(db, "t", "c", "h3") && ("t", "h3") in db.blobs && FindCapsule(db, "t", "c").Some?
      && db.capsules["c"].status == Active && db.capsules["c"].latestVersion == 1
  {
  }

  lemma ToSecondLookup()
    ensures Run(UnixCreated(), GoOn(0, 2)) == Moved(UnixCreated(), 0, Read(1))
  {
    var s := UnixCreated();
    var s1 := Moved(s, 0, KeyUnknown(1, Active));
    WindowsIsNew();
    assert AdvanceOne(s, 0) == s1;
    assert AdvanceOne(s1, 0) == Moved(s, 0, Read(1));
    TwoSteps(s, 0, s1);
  }

  lemma FromSecondLookup(s: System)
    requires s == Moved(UnixCreated(), 0, Read(1))
    ensures Run(s, GoOn(0, 2)) == Moved(UnixCreated(), 0, Ready(1, false))
  {
    var s1 := Moved(s, 0, HashClear(1));
    WindowsIsNew();
    assert AdvanceOne(s, 0) == s1;
    assert AdvanceOne(s1, 0) == Moved(s, 0, Ready(1, false));
    TwoSteps(s, 0, s1);
  }

  lemma ToReady()
    ensures Run(UnixCreated(), GoOn(0, 4)) == Moved(UnixCreated(), 0, Ready(1, false))
  {
    ToSecondLookup();
    FromSecondLookup(Moved(UnixCreated(), 0, Read(1)));
    GoOnSplit(0, 2, 2);
    RunAppend(UnixCreated(), GoOn(0, 2), GoOn(0, 2));
  }

  lemma AtReady()
    ensures Run(ONE_WINDOWS, BETWEEN) == Moved(UnixCreated(), 0, Ready(1, false))
  {
    ToWindowsStored();
    ToUnixCreated();
    ToReady();
    RunAppend(ONE_WINDOWS, GoOn(0, 2), [CreateNew(UNIX)]);
    RunOne(WindowsStored(), CreateNew(UNIX));
    RunAppend(ONE_WINDOWS, GoOn(0, 2) + [CreateNew(UNIX)], GoOn(0, 4));
  }

  lemma WindowsInitial()
    ensures Initial(ONE_WINDOWS)
  {
    TakenIds.OneVersionIsInitial();
  }

  lemma ReadyWillCommit()
    ensures Commits(Moved(UnixCreated(), 0, Ready(1, false)), 0) && !BlobAgrees(UnixCreated().db, WINDOWS)
  {
    PublishRowsApply(UnixCreated().db, WINDOWS, 2, false);
    assert UnixCreated().db.blobs[("t", "h3")] == "a\n";
  }

  /** A publisher that is the first to store a document and not the first to add its blob: its version will be read with the other text. */
  lemma OvertakenExample()
    ensures Initial(ONE_WINDOWS)
    ensures var mid := Run(ONE_WINDOWS, BETWEEN);
      Commits(mid, 0) && mid.publishers[0].request == WINDOWS && !BlobAgrees(mid.db, WINDOWS)
  {
    WindowsInitial();
    AtReady();
    ReadyWillCommit();
  }
}
