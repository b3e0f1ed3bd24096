/** Data access for capsules: each operation is one transaction plus its idempotency record. */
module CapsuleRepository {
  import opened Wrappers
  import opened RegistryModels

  datatype Error = Forbidden | TooLarge | Invalid | NotFound | Conflict | StorageFailure | IntegrityFailure | Crash

  datatype Outcome<+T> = Ok(value: T) | Err(error: Error)

  /** What an idempotency key remembers of the operation that was done under it. */
  datatype Remembered = Remembered(capsuleId: string, version: nat)

  /** The committed tables and the idempotency results. */
  datatype Store = Store(db: Db, results: map<string, Remembered>)

  /** A request to create; `id` is the client's choice, the fresh values are what the generators would give. */
  datatype NewCapsule = NewCapsule(
    id: Option<string>, freshId: string, freshEtag: string,
    tenant: string, name: string, owner: string, visibility: Visibility,
    text: string, hash: string, actor: string, key: string)
  {
    function Id(): string {
      if id.Some? then id.value else freshId
    }
  }

  datatype NewVersion = NewVersion(
    id: string, freshEtag: string, tenant: string,
    text: string, hash: string, actor: string, key: string)

  /** A version as handed back: its number and record, if the table has it, and whether it is new. */
  datatype Receipt = Receipt(id: string, number: nat, version: Option<Version>, created: bool)

  function FindCapsule(db: Db, tenant: string, id: string): Option<Capsule> {
    if id in db.capsules && db.capsules[id].tenant == tenant then Some(db.capsules[id]) else None
  }

  function FindVersion(db: Db, tenant: string, id: string, number: nat): Option<Version> {
    if (id, number) in db.versions && db.versions[(id, number)].tenant == tenant then Some(db.versions[(id, number)]) else None
  }

  predicate ActiveNameTaken(db: Db, tenant: string, name: string) {
    exists id :: id in db.capsules && db.capsules[id].tenant == tenant && db.capsules[id].name == name && db.capsules[id].status == Active
  }

  predicate HashPublished(db: Db, tenant: string, id: string, hash: string) {
    exists k :: k in db.versions && k.0 == id && db.versions[k].tenant == tenant && db.versions[k].hash == hash
  }

  function WithBlob(db: Db, tenant: string, hash: string, text: string): map<(string, string), string> {
    if (tenant, hash) in db.blobs then db.blobs else db.blobs[(tenant, hash) := text]
  }

  /** The tables after a successful create. */
  function Created(db: Db, r: NewCapsule): Db {
    Db(db.capsules[r.Id() := Capsule(r.tenant, r.name, r.owner, r.visibility, Active, 1, r.freshEtag)],
       db.versions[(r.Id(), 1) := Version(r.tenant, r.hash, r.actor)],
       WithBlob(db, r.tenant, r.hash, r.text),
       db.audit + [Audit(r.Id(), Some(1), r.actor, CreateEntry, Some(r.hash))])
  }

  /** The tables after a publisher's rows went in under the number `next`, whatever the latest version is. */
  function Appended(db: Db, r: NewVersion, next: nat): Db
    requires r.id in db.capsules
  {
    Db(db.capsules[r.id := db.capsules[r.id].(latestVersion := next, etag := r.freshEtag)],
       db.versions[(r.id, next) := Version(r.tenant, r.hash, r.actor)],
       WithBlob(db, r.tenant, r.hash, r.text),
       db.audit + [Audit(r.id, Some(next), r.actor, PublishEntry, Some(r.hash))])
  }

  /** The tables after a successful publish. */
  function Published(db: Db, r: NewVersion): Db
    requires r.id in db.capsules
  {
    Appended(db, r, db.capsules[r.id].latestVersion + 1)
  }

  /** The tables after a successful change of status. */
  function StatusSet(db: Db, id: string, status: Status, actor: string, freshEtag: string): Db
    requires id in db.capsules
  {
    db.(capsules := db.capsules[id := db.capsules[id].(status := status, etag := freshEtag)],
        audit := db.audit + [Audit(id, None, actor, if status.Active? then RestoreEntry else DeleteEntry, None)])
  }

  /** An insert of the blob is refused: it is not there yet and its text is empty. */
  predicate BlobRefused(db: Db, tenant: string, hash: string, text: string) {
    (tenant, hash) !in db.blobs && text == ""
  }

  /** The constraints refuse a create: its id or name exists (a deleted capsule keeps its name), or its blob is refused. */
  predicate CreateRefused(db: Db, r: NewCapsule) {
    r.Id() in db.capsules || NameTaken(db, r.tenant, r.name) || BlobRefused(db, r.tenant, r.hash, r.text)
  }

  /** Creating: replay a known key, refuse an active name, otherwise commit all rows or none. */
  function CreateCapsule(s: Store, r: NewCapsule): (Store, Outcome<Receipt>) {
    if r.key in s.results then
      var capsule := FindCapsule(s.db, r.tenant, s.results[r.key].capsuleId);
      if capsule.None? then (s, Err(NotFound))
      else
        var latest := capsule.value.latestVersion;
        (s, Ok(Receipt(s.results[r.key].capsuleId, latest, FindVersion(s.db, r.tenant, s.results[r.key].capsuleId, latest), false)))
    else if ActiveNameTaken(s.db, r.tenant, r.name) then (s, Err(Conflict))
    else if CreateRefused(s.db, r) then (s, Err(IntegrityFailure))
    else
      (Store(Created(s.db, r), s.results[r.key := Remembered(r.Id(), 1)]),
       Ok(Receipt(r.Id(), 1, Some(Version(r.tenant, r.hash, r.actor)), true)))
  }

  /** Publishing: replay a known key, refuse deleted capsules and repeated content, otherwise append the next version. */
  function PublishVersionOf(s: Store, r: NewVersion): (Store, Outcome<Receipt>) {
    if r.key in s.results then
      var number := s.results[r.key].version;
      var version := FindVersion(s.db, r.tenant, r.id, number);
      if version.None? then (s, Err(NotFound)) else (s, Ok(Receipt(r.id, number, version, false)))
    else
      var capsule := FindCapsule(s.db, r.tenant, r.id);
      if capsule.None? then (s, Err(NotFound))
      else if capsule.value.status == Deleted then (s, Err(Conflict))
      else if HashPublished(s.db, r.tenant, r.id, r.hash) then (s, Err(Conflict))
      else if BlobRefused(s.db, r.tenant, r.hash, r.text) then (s, Err(IntegrityFailure))
      else
        var next := capsule.value.latestVersion + 1;
        (Store(Published(s.db, r), s.results[r.key := Remembered(r.id, next)]),
         Ok(Receipt(r.id, next, Some(Version(r.tenant, r.hash, r.actor)), true)))
  }

  function UpdateStatusOf(db: Db, tenant: string, id: string, status: Status, actor: string, expected: string, freshEtag: string): (Db, Outcome<Capsule>) {
    var capsule := FindCapsule(db, tenant, id);
    if capsule.None? then (db, Err(NotFound))
    else if capsule.value.etag != expected then (db, Err(Conflict))
    else (StatusSet(db, id, status, actor, freshEtag), Ok(capsule.value.(status := status, etag := freshEtag)))
  }

  function HardDelete(db: Db, tenant: string, id: string): (Db, Outcome<()>) {
    if FindCapsule(db, tenant, id).None? then (db, Err(NotFound)) else (WithoutCapsule(db, id), Ok(()))
  }

  function BlobRows(db: Db, tenant: string, hash: string, text: string): seq<Write> {
    if (tenant, hash) in db.blobs then [] else [InsertBlob(tenant, hash, text)]
  }

  function CreateRows(db: Db, r: NewCapsule): seq<Write> {
    [InsertCapsule(r.Id(), Capsule(r.tenant, r.name, r.owner, r.visibility, Active, 1, r.freshEtag))]
    + BlobRows(db, r.tenant, r.hash, r.text)
    + [InsertVersion(r.Id(), 1, Version(r.tenant, r.hash, r.actor)),
       InsertAudit(Audit(r.Id(), Some(1), r.actor, CreateEntry, Some(r.hash)))]
  }

  /** The rows a publisher adds once it has read the latest version and looked for the blob. */
  function PublishRows(r: NewVersion, next: nat, newBlob: bool): seq<Write> {
    (if newBlob then [InsertBlob(r.tenant, r.hash, r.text)] else [])
    + [InsertVersion(r.id, next, Version(r.tenant, r.hash, r.actor)),
       UpdateLatest(r.id, next, r.freshEtag),
       InsertAudit(Audit(r.id, Some(next), r.actor, PublishEntry, Some(r.hash)))]
  }

  function StatusRows(id: string, status: Status, actor: string, freshEtag: string): seq<Write> {
    [RegistryModels.Write.UpdateStatus(id, status, freshEtag),
     InsertAudit(Audit(id, None, actor, if status == Active then RestoreEntry else DeleteEntry, None))]
  }

  function DeleteRows(id: string, actor: string): seq<Write> {
    [InsertAudit(Audit(id, None, actor, DeleteEntry, None)), DeleteCapsule(id)]
  }

  /** The create transaction goes through exactly when id and name are free and the blob is acceptable. */
  lemma CreateCommits(db: Db, r: NewCapsule)
    requires r.Id() in db.capsules || (r.Id(), 1) !in db.versions
    ensures var o := ApplyAll(db, CreateRows(db, r));
      if CreateRefused(db, r) then o.None? else o == Some(Created(db, r))
  {
    var id := r.Id();
    var w1 := InsertCapsule(id, Capsule(r.tenant, r.name, r.owner, r.visibility, Active, 1, r.freshEtag));
    var w3 := InsertVersion(id, 1, Version(r.tenant, r.hash, r.actor));
    var w4 := InsertAudit(Audit(id, Some(1), r.actor, CreateEntry, Some(r.hash)));
    var blob := BlobRows(db, r.tenant, r.hash, r.text);
    assert CreateRows(db, r) == [w1] + (blob + ([w3] + [w4]));
    ApplyCons(db, w1, blob + ([w3] + [w4]));
    var staged := Apply(db, w1);
    if staged.Some? {
      if blob == [] {
        assert blob + ([w3] + [w4]) == [w3] + [w4];
        ApplyCons(staged.value, w3, [w4]);
      } else {
        ApplyCons(staged.value, blob[0], [w3] + [w4]);
        var staged2 := Apply(staged.value, blob[0]);
        if staged2.Some? {
          ApplyCons(staged2.value, w3, [w4]);
        }
      }
    }
  }

  lemma VersionRowsApply(db: Db, r: NewVersion, next: nat)
    requires next > 0
    ensures var o := ApplyAll(db, PublishRows(r, next, false));
      if r.id !in db.capsules || (r.id, next) in db.versions then o.None?
      else o == Some(Db(
        db.capsules[r.id := db.capsules[r.id].(latestVersion := next, etag := r.freshEtag)],
        db.versions[(r.id, next) := Version(r.tenant, r.hash, r.actor)],
        db.blobs,
        db.audit + [Audit(r.id, Some(next), r.actor, PublishEntry, Some(r.hash))]))
  {
    var w1 := InsertVersion(r.id, next, Version(r.tenant, r.hash, r.actor));
    var w2 := UpdateLatest(r.id, next, r.freshEtag);
    var w3 := InsertAudit(Audit(r.id, Some(next), r.actor, PublishEntry, Some(r.hash)));
    assert PublishRows(r, next, false) == [w1] + ([w2] + [w3]);
    ApplyCons(db, w1, [w2] + [w3]);
    if r.id in db.capsules && (r.id, next) !in db.versions {
      var s1 := Apply(db, w1).value;
      ApplyCons(s1, w2, [w3]);
    }
  }

  /** What committing a publisher's rows does to tables that may have changed since it read them. */
  lemma PublishRowsApply(db: Db, r: NewVersion, next: nat, newBlob: bool)
    requires next > 0
    ensures var o := ApplyAll(db, PublishRows(r, next, newBlob));
      if r.id !in db.capsules || (r.id, next) in db.versions || (newBlob && ((r.tenant, r.hash) in db.blobs || r.text == ""))
      then o.None?
      else o == Some(Db(
        db.capsules[r.id := db.capsules[r.id].(latestVersion := next, etag := r.freshEtag)],
        db.versions[(r.id, next) := Version(r.tenant, r.hash, r.actor)],
        if newBlob then db.blobs[(r.tenant, r.hash) := r.text] else db.blobs,
        db.audit + [Audit(r.id, Some(next), r.actor, PublishEntry, Some(r.hash))]))
  {
    var w0 := InsertBlob(r.tenant, r.hash, r.text);
    if newBlob {
      assert PublishRows(r, next, true) == [w0] + PublishRows(r, next, false);
      ApplyCons(db, w0, PublishRows(r, next, false));
      var staged := Apply(db, w0);
      if staged.Some? {
        VersionRowsApply(staged.value, r, next);
      }
    } else {
      VersionRowsApply(db, r, next);
    }
  }

  /** The publish transaction of an existing capsule goes through exactly when the blob is acceptable: in a consistent state the next number is free. */
  lemma PublishCommits(db: Db, r: NewVersion)
    requires r.id in db.capsules && (r.id, db.capsules[r.id].latestVersion + 1) !in db.versions
    ensures var o := ApplyAll(db, PublishRows(r, db.capsules[r.id].latestVersion + 1, (r.tenant, r.hash) !in db.blobs));
      if BlobRefused(db, r.tenant, r.hash, r.text) then o.None? else o == Some(Published(db, r))
  {
    var next := db.capsules[r.id].latestVersion + 1;
    PublishRowsApply(db, r, next, (r.tenant, r.hash) !in db.blobs);
  }

  lemma VersionsOfNobody(db: Db, id: string)
    requires VersionsNumbered(db)
    ensures id !in db.capsules ==> (id, 1) !in db.versions
  {
  }

  lemma NextIsFree(db: Db, id: string)
    requires VersionsNumbered(db) && id in db.capsules
    ensures (id, db.capsules[id].latestVersion + 1) !in db.versions
  {
  }

  lemma StatusCommits(db: Db, id: string, status: Status, actor: string, freshEtag: string)
    requires id in db.capsules
    ensures ApplyAll(db, StatusRows(id, status, actor, freshEtag)) == Some(StatusSet(db, id, status, actor, freshEtag))
  {
    var rows := StatusRows(id, status, actor, freshEtag);
    assert rows == [rows[0]] + [rows[1]];
    ApplyCons(db, rows[0], [rows[1]]);
  }

  /** Deleting removes the capsule's last audit entry along with the others. */
  lemma DeleteCommits(db: Db, id: string, actor: string)
    requires id in db.capsules
    ensures ApplyAll(db, DeleteRows(id, actor)) == Some(WithoutCapsule(db, id))
  {
    var rows := DeleteRows(id, actor);
    assert rows == [rows[0]] + [rows[1]];
    ApplyCons(db, rows[0], [rows[1]]);
    var audit := db.audit + [rows[0].entry];
    assert audit[..|audit| - 1] == db.audit;
    assert Others(audit, id) == Others(db.audit, id);
    assert WithoutCapsule(db.(audit := audit), id) == WithoutCapsule(db, id);
  }

  lemma CreatedIsConsistent(db: Db, r: NewCapsule)
    requires Consistent(db) && !CreateRefused(db, r)
    ensures Consistent(Created(db, r))
  {
    var db' := Created(db, r);
    assert forall n: nat :: (r.Id(), n) !in db.versions;
    assert VersionsNumbered(db');
    assert HashesDistinct(db');
    assert VersionsBacked(db');
    assert NamesUnique(db');
  }

  lemma PublishedIsConsistent(db: Db, r: NewVersion)
    requires Consistent(db) && r.id in db.capsules && db.capsules[r.id].tenant == r.tenant
    requires !HashPublished(db, r.tenant, r.id, r.hash) && !BlobRefused(db, r.tenant, r.hash, r.text)
    ensures Consistent(Published(db, r))
  {
    var db' := Published(db, r);
    assert VersionsNumbered(db');
    forall n: nat | (r.id, n) in db.versions
      ensures db.versions[(r.id, n)].hash != r.hash
    {
      assert db.versions[(r.id, n)].tenant == r.tenant;
      assert (r.id, n).0 == r.id;
    }
    assert HashesDistinct(db');
    assert VersionsBacked(db');
    assert NamesUnique(db');
  }

  lemma StatusSetIsConsistent(db: Db, id: string, status: Status, actor: string, freshEtag: string)
    requires Consistent(db) && id in db.capsules
    ensures Consistent(StatusSet(db, id, status, actor, freshEtag))
  {
  }

  lemma {:induction false} OthersAreOthers(audit: seq<Audit>, id: string)
    ensures forall a :: a in Others(audit, id) <==> a in audit && a.capsuleId != id
  {
    if audit != [] {
      OthersAreOthers(audit[..|audit| - 1], id);
      assert audit == audit[..|audit| - 1] + [audit[|audit| - 1]];
    }
  }

  lemma DeleteKeepsConsistent(db: Db, id: string)
    requires Consistent(db)
    ensures Consistent(WithoutCapsule(db, id))
  {
    OthersAreOthers(db.audit, id);
  }

  class Repository {
    const session: Session
    var results: map<string, Remembered>

    constructor (session: Session)
      ensures this.session == session && results == map[]
    {
      this.session, results := session, map[];
    }

    function Current(): Store
      reads this, session
    {
      Store(session.db, results)
    }

    ghost predicate Valid()
      reads this, session
    {
      session.pending == [] && Consistent(session.db)
    }

    method StoreBlob(tenant: string, hash: string, text: string)
      modifies session
      ensures session.db == old(session.db)
      ensures session.pending == old(session.pending) + BlobRows(session.db, tenant, hash, text)
    {
      if (tenant, hash) !in session.db.blobs {
        session.Add(InsertBlob(tenant, hash, text));
      }
    }

    /** The transaction of a create, rolled back if a constraint refuses it. */
    method AddCapsule(r: NewCapsule) returns (committed: bool)
      requires session.pending == [] && (r.Id() in session.db.capsules || (r.Id(), 1) !in session.db.versions)
      modifies session
      ensures session.pending == []
      ensures committed <==> !CreateRefused(old(session.db), r)
      ensures session.db == if committed then Created(old(session.db), r) else old(session.db)
    {
      var id := r.Id();
      session.Add(InsertCapsule(id, Capsule(r.tenant, r.name, r.owner, r.visibility, Active, 1, r.freshEtag)));
      StoreBlob(r.tenant, r.hash, r.text);
      session.Add(InsertVersion(id, 1, Version(r.tenant, r.hash, r.actor)));
      session.Add(InsertAudit(Audit(id, Some(1), r.actor, CreateEntry, Some(r.hash))));
      assert session.pending == CreateRows(session.db, r);
      CreateCommits(session.db, r);
      committed := session.Commit();
      if !committed {
        session.Rollback();
      }
    }

    /** The transaction of a publish, rolled back if a constraint refuses it. */
    method AddVersion(r: NewVersion, next: nat) returns (committed: bool)
      requires session.pending == [] && r.id in session.db.capsules
      requires next == session.db.capsules[r.id].latestVersion + 1 && (r.id, next) !in session.db.versions
      modifies session
      ensures session.pending == []
      ensures committed <==> !BlobRefused(old(session.db), r.tenant, r.hash, r.text)
      ensures session.db == if committed then Published(old(session.db), r) else old(session.db)
    {
      StoreBlob(r.tenant, r.hash, r.text);
      session.Add(InsertVersion(r.id, next, Version(r.tenant, r.hash, r.actor)));
      session.Add(UpdateLatest(r.id, next, r.freshEtag));
      session.Add(InsertAudit(Audit(r.id, Some(next), r.actor, PublishEntry, Some(r.hash))));
      assert session.pending == PublishRows(r, next, (r.tenant, r.hash) !in session.db.blobs);
      PublishCommits(session.db, r);
      committed := session.Commit();
      if !committed {
        session.Rollback();
      }
    }

    method Create(r: NewCapsule) returns (o: Outcome<Receipt>)
      requires Valid()
      modifies this, session
      ensures Valid()
      ensures (Current(), o) == CreateCapsule(old(Current()), r)
    {
      var db := session.db;
      if !CreateRefused(db, r) { CreatedIsConsistent(db, r); }
      if r.key in results {
        var known := results[r.key].capsuleId;
        var existing := FindCapsule(db, r.tenant, known);
        if existing.None? {
          return Err(NotFound);
        }
        var latest := existing.value.latestVersion;
        return Ok(Receipt(known, latest, FindVersion(db, r.tenant, known, latest), false));
      }
      var id := r.Id();
      if ActiveNameTaken(db, r.tenant, r.name) {
        return Err(Conflict);
      }
      VersionsOfNobody(db, id);
      var committed := AddCapsule(r);
      if !committed {
        return Err(IntegrityFailure);
      }
      results := results[r.key := Remembered(id, 1)];
      return Ok(Receipt(id, 1, Some(Version(r.tenant, r.hash, r.actor)), true));
    }

    method Publish(r: NewVersion) returns (o: Outcome<Receipt>)
      requires Valid()
      modifies this, session
      ensures Valid()
      ensures (Current(), o) == PublishVersionOf(old(Current()), r)
    {
      var db := session.db;
      if r.key in results {
        var number := results[r.key].version;
        var existing := FindVersion(db, r.tenant, r.id, number);
        if existing.None? {
          return Err(NotFound);
        }
        return Ok(Receipt(r.id, number, existing, false));
      }
      var capsule := FindCapsule(db, r.tenant, r.id);
      if capsule.None? {
        return Err(NotFound);
      }
      if capsule.value.status == Deleted {
        return Err(Conflict);
      }
      var next := capsule.value.latestVersion + 1;
      if HashPublished(db, r.tenant, r.id, r.hash) {
        return Err(Conflict);
      }
      NextIsFree(db, r.id);
      if !BlobRefused(db, r.tenant, r.hash, r.text) { PublishedIsConsistent(db, r); }
      var committed := AddVersion(r, next);
      if !committed {
        return Err(IntegrityFailure);
      }
      results := results[r.key := Remembered(r.id, next)];
      return Ok(Receipt(r.id, next, Some(Version(r.tenant, r.hash, r.actor)), true));
    }

    method UpdateStatus(tenant: string, id: string, status: Status, actor: string, expected: string, freshEtag: string)
      returns (o: Outcome<Capsule>)
      requires Valid()
      modifies session
      ensures Valid() && results == old(results)
      ensures (session.db, o) == UpdateStatusOf(old(session.db), tenant, id, status, actor, expected, freshEtag)
    {
      var db := session.db;
      var capsule := FindCapsule(db, tenant, id);
      if capsule.None? {
        return Err(NotFound);
      }
      if capsule.value.etag != expected {
        return Err(Conflict);
      }
      var action := if status == Active then RestoreEntry else DeleteEntry;
      session.Add(RegistryModels.Write.UpdateStatus(id, status, freshEtag));
      session.Add(InsertAudit(Audit(id, None, actor, action, None)));
      assert session.pending == StatusRows(id, status, actor, freshEtag);
      StatusCommits(db, id, status, actor, freshEtag);
      StatusSetIsConsistent(db, id, status, actor, freshEtag);
      var committed := session.Commit();
      return Ok(capsule.value.(status := status, etag := freshEtag));
    }

    method HardDeleteCapsule(tenant: string, id: string, actor: string) returns (o: Outcome<()>)
      requires Valid()
      modifies session
      ensures Valid() && results == old(results)
      ensures (session.db, o) == HardDelete(old(session.db), tenant, id)
    {
      var db := session.db;
      DeleteKeepsConsistent(db, id);
      if FindCapsule(db, tenant, id).None? {
        return Err(NotFound);
      }
      session.Add(InsertAudit(Audit(id, None, actor, DeleteEntry, None)));
      session.Add(DeleteCapsule(id));
      assert session.pending == DeleteRows(id, actor);
      DeleteCommits(db, id, actor);
      var committed := session.Commit();
      return Ok(());
    }
  }

  /** Without a capsule of the id, a version left under its first number would refuse a create. */
  lemma CreateNumberTaken(db: Db, r: NewCapsule)
    requires r.Id() !in db.capsules && (r.Id(), 1) in db.versions
    ensures ApplyAll(db, CreateRows(db, r)).None?
  {
    var id := r.Id();
    var w1 := InsertCapsule(id, Capsule(r.tenant, r.name, r.owner, r.visibility, Active, 1, r.freshEtag));
    var w3 := InsertVersion(id, 1, Version(r.tenant, r.hash, r.actor));
    var w4 := InsertAudit(Audit(id, Some(1), r.actor, CreateEntry, Some(r.hash)));
    var blob := BlobRows(db, r.tenant, r.hash, r.text);
    assert CreateRows(db, r) == [w1] + (blob + ([w3] + [w4]));
    ApplyCons(db, w1, blob + ([w3] + [w4]));
    var staged := Apply(db, w1);
    if staged.Some? {
      ApplyCons(staged.value, w3, [w4]);
      if blob == [] {
        assert blob + ([w3] + [w4]) == [w3] + [w4];
      } else {
        ApplyCons(staged.value, blob[0], [w3] + [w4]);
        var staged2 := Apply(staged.value, blob[0]);
        if staged2.Some? {
          ApplyCons(staged2.value, w3, [w4]);
        }
      }
    }
  }

  /** Under an unused key a create succeeds exactly when no constraint refuses it; only an active name is reported as a conflict. */
  lemma CreateOutcome(s: Store, r: NewCapsule)
    requires r.key !in s.results
    ensures var o := CreateCapsule(s, r).1;
      && (o.Ok? <==> !CreateRefused(s.db, r))
      && (o == Err(Conflict) <==> ActiveNameTaken(s.db, r.tenant, r.name))
      && (o == Err(IntegrityFailure) <==> CreateRefused(s.db, r) && !ActiveNameTaken(s.db, r.tenant, r.name))
  {
    if ActiveNameTaken(s.db, r.tenant, r.name) {
      assert NameTaken(s.db, r.tenant, r.name);
    }
  }

  /** A deleted capsule keeps its name: the lookup lets the create through, the unique index does not. */
  lemma DeletedNameStaysTaken(s: Store, r: NewCapsule, holder: string)
    requires NamesUnique(s.db) && r.key !in s.results && holder in s.db.capsules
    requires s.db.capsules[holder].tenant == r.tenant && s.db.capsules[holder].name == r.name
    ensures CreateCapsule(s, r).1 == Err(if s.db.capsules[holder].status.Deleted? then IntegrityFailure else Conflict)
  {
    CreateOutcome(s, r);
    assert NameTaken(s.db, r.tenant, r.name);
    forall id | id in s.db.capsules && s.db.capsules[id].tenant == r.tenant && s.db.capsules[id].name == r.name
      ensures id == holder
    {
      assert (s.db.capsules[id].tenant, s.db.capsules[id].name) == (s.db.capsules[holder].tenant, s.db.capsules[holder].name);
    }
  }

  /** Create, delete, create under the same name. */
  lemma DeletedNameExample(first: NewCapsule, again: NewCapsule, etag: string)
    requires first.text != "" && again.tenant == first.tenant && again.name == first.name && again.key != first.key
    ensures var created := CreateCapsule(Store(EMPTY_DB, map[]), first).0;
      var (db, deleted) := UpdateStatusOf(created.db, first.tenant, first.Id(), Deleted, first.actor, first.freshEtag, etag);
      deleted.Ok? && CreateCapsule(Store(db, created.results), again).1 == Err(IntegrityFailure)
  {
    var created := CreateCapsule(Store(EMPTY_DB, map[]), first).0;
    assert created.db == Created(EMPTY_DB, first);
    var db := StatusSet(created.db, first.Id(), Deleted, first.actor, etag);
    DeletedNameStaysTaken(Store(db, created.results), again, first.Id());
  }
}
