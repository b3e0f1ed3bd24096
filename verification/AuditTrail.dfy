/** Rebuilding a capsule from its audit entries alone. */
module AuditTrail {
  import opened Wrappers
  import opened RegistryModels
  import opened CapsuleRepository

  function EntriesOf(audit: seq<Audit>, id: string): seq<Audit> {
    if audit == [] then []
    else
      EntriesOf(audit[..|audit| - 1], id) +
      if audit[|audit| - 1].capsuleId == id then [audit[|audit| - 1]] else []
  }

  /** What a capsule looks like to its history: status, latest version, and the hash of every version. */
  datatype Image = Image(status: Status, latest: nat, hashes: map<nat, string>)

  /** One entry read on top of what the earlier ones gave; entries that make no sense give nothing. */
  function Absorb(before: Option<Image>, e: Audit): Option<Image> {
    match e.action
    case CreateEntry =>
      if before.None? && e.version == Some(1) && e.hash.Some? then Some(Image(Active, 1, map[1 := e.hash.value])) else None
    case PublishEntry =>
      if before.Some? && e.version.Some? && e.hash.Some? then
        Some(Image(before.value.status, e.version.value, before.value.hashes[e.version.value := e.hash.value]))
      else None
    case DeleteEntry => if before.Some? then Some(before.value.(status := Deleted)) else None
    case RestoreEntry => if before.Some? then Some(before.value.(status := Active)) else None
  }

  function Replay(entries: seq<Audit>): Option<Image> {
    if entries == [] then None
    else Absorb(Replay(entries[..|entries| - 1]), entries[|entries| - 1])
  }

  function ImageOf(db: Db, id: string): Image
    requires id in db.capsules
  {
    var c := db.capsules[id];
    Image(c.status, c.latestVersion,
          map n: nat | 1 <= n <= c.latestVersion && (id, n) in db.versions :: db.versions[(id, n)].hash)
  }

  /** How many entries record the making of version `n`. */
  function Makings(entries: seq<Audit>, n: nat): nat {
    if entries == [] then 0
    else
      var e := entries[|entries| - 1];
      Makings(entries[..|entries| - 1], n) + if (e.action.CreateEntry? || e.action.PublishEntry?) && e.version == Some(n) then 1 else 0
  }

  function Publishings(entries: seq<Audit>): nat {
    if entries == [] then 0
    else Publishings(entries[..|entries| - 1]) + if entries[|entries| - 1].action.PublishEntry? then 1 else 0
  }

  /** The entries reproduce the image, with exactly one entry for the making of each version. */
  ghost predicate Tells(entries: seq<Audit>, image: Image) {
    && Replay(entries) == Some(image)
    && (forall n: nat :: Makings(entries, n) == if 1 <= n <= image.latest then 1 else 0)
    && Publishings(entries) == image.latest - 1
  }

  /** The audit entries of a live capsule, and nothing else, reproduce it. */
  ghost predicate Recorded(db: Db, id: string)
    requires id in db.capsules
  {
    Tells(EntriesOf(db.audit, id), ImageOf(db, id))
  }

  ghost predicate Faithful(db: Db) {
    forall id :: id in db.capsules ==> Recorded(db, id)
  }

  lemma EntriesAppend(audit: seq<Audit>, e: Audit, id: string)
    ensures e.capsuleId == id ==> EntriesOf(audit + [e], id) == EntriesOf(audit, id) + [e]
    ensures e.capsuleId != id ==> EntriesOf(audit + [e], id) == EntriesOf(audit, id)
  {
    assert (audit + [e])[..|audit|] == audit;
  }

  lemma AppendedEntry(entries: seq<Audit>, e: Audit)
    ensures Replay(entries + [e]) == Absorb(Replay(entries), e)
    ensures Publishings(entries + [e]) == Publishings(entries) + if e.action.PublishEntry? then 1 else 0
    ensures forall n: nat :: Makings(entries + [e], n) ==
                             Makings(entries, n) + if (e.action.CreateEntry? || e.action.PublishEntry?) && e.version == Some(n) then 1 else 0
  {
    assert (entries + [e])[..|entries|] == entries;
  }

  lemma {:induction false} NoEntries(audit: seq<Audit>, id: string)
    requires forall a :: a in audit ==> a.capsuleId != id
    ensures EntriesOf(audit, id) == []
  {
    if audit != [] {
      NoEntries(audit[..|audit| - 1], id);
    }
  }

  lemma {:induction false} EntriesOfOthers(audit: seq<Audit>, gone: string, id: string)
    requires id != gone
    ensures EntriesOf(Others(audit, gone), id) == EntriesOf(audit, id)
  {
    if audit != [] {
      var init, last := audit[..|audit| - 1], audit[|audit| - 1];
      EntriesOfOthers(init, gone, id);
      if last.capsuleId != gone {
        EntriesAppend(Others(init, gone), last, id);
      } else {
        assert Others(audit, gone) == Others(init, gone);
      }
    }
  }

  lemma TellsCreate(e: Audit)
    requires e.action.CreateEntry? && e.version == Some(1) && e.hash.Some?
    ensures Tells([e], Image(Active, 1, map[1 := e.hash.value]))
  {
    AppendedEntry([], e);
    assert [] + [e] == [e];
  }

  lemma TellsPublish(entries: seq<Audit>, image: Image, e: Audit)
    requires Tells(entries, image)
    requires e.action.PublishEntry? && e.version == Some(image.latest + 1) && e.hash.Some?
    ensures Tells(entries + [e], Image(image.status, image.latest + 1, image.hashes[image.latest + 1 := e.hash.value]))
  {
    AppendedEntry(entries, e);
  }

  lemma TellsStatus(entries: seq<Audit>, image: Image, e: Audit)
    requires Tells(entries, image)
    requires e.action.DeleteEntry? || e.action.RestoreEntry?
    ensures Tells(entries + [e], image.(status := if e.action.DeleteEntry? then Deleted else Active))
  {
    AppendedEntry(entries, e);
  }

  /** The versions of this one capsule are the same in both. */
  ghost predicate SameVersions(db: Db, db': Db, id: string) {
    forall n: nat :: ((id, n) in db.versions <==> (id, n) in db'.versions)
                     && ((id, n) in db.versions ==> db.versions[(id, n)] == db'.versions[(id, n)])
  }

  lemma SameImage(db: Db, db': Db, id: string)
    requires id in db.capsules && id in db'.capsules && SameVersions(db, db', id)
    requires db'.capsules[id].latestVersion == db.capsules[id].latestVersion
    ensures ImageOf(db', id) == ImageOf(db, id).(status := db'.capsules[id].status)
  {
  }

  /** A capsule none of whose rows changed stays recorded. */
  lemma UntouchedStaysRecorded(db: Db, db': Db, id: string)
    requires id in db.capsules && id in db'.capsules && SameVersions(db, db', id)
    requires db'.capsules[id] == db.capsules[id]
    requires EntriesOf(db'.audit, id) == EntriesOf(db.audit, id)
    ensures Recorded(db, id) ==> Recorded(db', id)
  {
    SameImage(db, db', id);
  }

  lemma CreatedImage(db: Db, r: NewCapsule)
    ensures ImageOf(Created(db, r), r.Id()) == Image(Active, 1, map[1 := r.hash])
  {
  }

  lemma CreatedEntries(db: Db, r: NewCapsule)
    requires forall a :: a in db.audit ==> a.capsuleId != r.Id()
    ensures EntriesOf(Created(db, r).audit, r.Id()) == [Audit(r.Id(), Some(1), r.actor, CreateEntry, Some(r.hash))]
  {
    EntriesAppend(db.audit, Audit(r.Id(), Some(1), r.actor, CreateEntry, Some(r.hash)), r.Id());
    NoEntries(db.audit, r.Id());
  }

  lemma CreatedIsRecorded(db: Db, r: NewCapsule)
    requires forall a :: a in db.audit ==> a.capsuleId != r.Id()
    ensures Recorded(Created(db, r), r.Id())
  {
    CreatedImage(db, r);
    CreatedEntries(db, r);
    TellsCreate(Audit(r.Id(), Some(1), r.actor, CreateEntry, Some(r.hash)));
  }

  lemma CreatedLeavesOthers(db: Db, r: NewCapsule, id: string)
    requires id in db.capsules && id != r.Id() && Recorded(db, id)
    ensures Recorded(Created(db, r), id)
  {
    EntriesAppend(db.audit, Audit(r.Id(), Some(1), r.actor, CreateEntry, Some(r.hash)), id);
    UntouchedStaysRecorded(db, Created(db, r), id);
  }

  lemma CreatedIsFaithful(db: Db, r: NewCapsule)
    requires Faithful(db) && forall a :: a in db.audit ==> a.capsuleId != r.Id()
    ensures Faithful(Created(db, r))
  {
    CreatedIsRecorded(db, r);
    forall id | id in db.capsules && id != r.Id()
      ensures Recorded(Created(db, r), id)
    {
      CreatedLeavesOthers(db, r, id);
    }
  }

  lemma PublishedImage(db: Db, r: NewVersion)
    requires r.id in db.capsules
    ensures var next := db.capsules[r.id].latestVersion + 1;
      ImageOf(Published(db, r), r.id) == Image(db.capsules[r.id].status, next, ImageOf(db, r.id).hashes[next := r.hash])
  {
    var next := db.capsules[r.id].latestVersion + 1;
    var after, before := ImageOf(Published(db, r), r.id).hashes, ImageOf(db, r.id).hashes;
    forall n: nat
      ensures n in after <==> n in before || n == next
      ensures n in after ==> after[n] == if n == next then r.hash else before[n]
    {
    }
    assert after == before[next := r.hash];
  }

  lemma PublishedEntries(db: Db, r: NewVersion)
    requires r.id in db.capsules
    ensures EntriesOf(Published(db, r).audit, r.id) ==
            EntriesOf(db.audit, r.id) + [Audit(r.id, Some(db.capsules[r.id].latestVersion + 1), r.actor, PublishEntry, Some(r.hash))]
  {
    EntriesAppend(db.audit, Audit(r.id, Some(db.capsules[r.id].latestVersion + 1), r.actor, PublishEntry, Some(r.hash)), r.id);
  }

  lemma ToldIsRecorded(db: Db, id: string, entries: seq<Audit>, image: Image)
    requires id in db.capsules && EntriesOf(db.audit, id) == entries && ImageOf(db, id) == image && Tells(entries, image)
    ensures Recorded(db, id)
  {
  }

  lemma PublishedIsRecorded(db: Db, r: NewVersion)
    requires r.id in db.capsules && Recorded(db, r.id)
    ensures Recorded(Published(db, r), r.id)
  {
    var e := Audit(r.id, Some(db.capsules[r.id].latestVersion + 1), r.actor, PublishEntry, Some(r.hash));
    var entries, image := EntriesOf(db.audit, r.id), ImageOf(db, r.id);
    TellsPublish(entries, image, e);
    PublishedEntries(db, r);
    PublishedImage(db, r);
    ToldIsRecorded(Published(db, r), r.id, entries + [e], Image(image.status, image.latest + 1, image.hashes[image.latest + 1 := r.hash]));
  }

  lemma PublishedLeavesOthers(db: Db, r: NewVersion, id: string)
    requires r.id in db.capsules && id in db.capsules && id != r.id && Recorded(db, id)
    ensures Recorded(Published(db, r), id)
  {
    EntriesAppend(db.audit, Published(db, r).audit[|db.audit|], id);
    UntouchedStaysRecorded(db, Published(db, r), id);
  }

  lemma PublishedRecords(db: Db, r: NewVersion, id: string)
    requires r.id in db.capsules && Recorded(db, r.id) && id in db.capsules && Recorded(db, id)
    ensures Recorded(Published(db, r), id)
  {
    if id == r.id {
      PublishedIsRecorded(db, r);
    } else {
      PublishedLeavesOthers(db, r, id);
    }
  }

  lemma PublishedIsFaithful(db: Db, r: NewVersion)
    requires Faithful(db) && r.id in db.capsules
    ensures Faithful(Published(db, r))
  {
    forall id | id in Published(db, r).capsules
      ensures Recorded(Published(db, r), id)
    {
      PublishedRecords(db, r, id);
    }
  }

  lemma StatusSetRecorded(db: Db, changed: string, status: Status, actor: string, freshEtag: string, id: string)
    requires changed in db.capsules && id in db.capsules && Recorded(db, id)
    ensures Recorded(StatusSet(db, changed, status, actor, freshEtag), id)
  {
    var db' := StatusSet(db, changed, status, actor, freshEtag);
    var e := db'.audit[|db.audit|];
    EntriesAppend(db.audit, e, id);
    SameImage(db, db', id);
    if id != changed {
      UntouchedStaysRecorded(db, db', id);
    } else {
      TellsStatus(EntriesOf(db.audit, id), ImageOf(db, id), e);
    }
  }

  lemma StatusSetIsFaithful(db: Db, changed: string, status: Status, actor: string, freshEtag: string)
    requires Faithful(db) && changed in db.capsules
    ensures Faithful(StatusSet(db, changed, status, actor, freshEtag))
  {
    forall id | id in db.capsules
      ensures Recorded(StatusSet(db, changed, status, actor, freshEtag), id)
    {
      StatusSetRecorded(db, changed, status, actor, freshEtag, id);
    }
  }

  lemma RemovalIsFaithful(db: Db, gone: string)
    requires Faithful(db)
    ensures Faithful(WithoutCapsule(db, gone))
  {
    forall id | id in WithoutCapsule(db, gone).capsules
      ensures Recorded(WithoutCapsule(db, gone), id)
    {
      EntriesOfOthers(db.audit, gone, id);
      UntouchedStaysRecorded(db, WithoutCapsule(db, gone), id);
    }
  }
}
