/** The tables of the capsule registry, their constraints, and transactions over them. */
module RegistryModels {
  import opened Wrappers

  datatype Status = Active | Deleted
  datatype Visibility = Private | Org
  datatype AuditAction = CreateEntry | PublishEntry | DeleteEntry | RestoreEntry

  datatype Capsule = Capsule(
    tenant: string,
    name: string,
    owner: string,
    visibility: Visibility,
    status: Status,
    latestVersion: nat,
    etag: string)

  datatype Version = Version(tenant: string, hash: string, createdBy: string)

  /** `version` and `hash` are absent on entries about the capsule as a whole. */
  datatype Audit = Audit(
    capsuleId: string,
    version: Option<nat>,
    actor: string,
    action: AuditAction,
    hash: Option<string>)

  datatype Db = Db(
    capsules: map<string, Capsule>,
    versions: map<(string, nat), Version>,
    blobs: map<(string, string), string>,
    audit: seq<Audit>)

  const EMPTY_DB := Db(map[], map[], map[], [])

  /** A pending change of a session; an update names only the columns that were assigned. */
  datatype Write =
    | InsertCapsule(id: string, capsule: Capsule)
    | InsertVersion(id: string, number: nat, version: Version)
    | InsertBlob(tenant: string, hash: string, text: string)
    | InsertAudit(entry: Audit)
    | UpdateLatest(id: string, latest: nat, etag: string)
    | UpdateStatus(id: string, status: Status, etag: string)
    | DeleteCapsule(id: string)

  predicate NameTaken(db: Db, tenant: string, name: string) {
    exists id :: id in db.capsules && db.capsules[id].tenant == tenant && db.capsules[id].name == name
  }

  /** The audit entries about other capsules than `id`. */
  function Others(audit: seq<Audit>, id: string): seq<Audit> {
    if audit == [] then []
    else
      Others(audit[..|audit| - 1], id) +
      if audit[|audit| - 1].capsuleId == id then [] else [audit[|audit| - 1]]
  }

  function WithoutCapsule(db: Db, id: string): Db {
    Db(db.capsules - {id},
       map k | k in db.versions && k.0 != id :: db.versions[k],
       db.blobs,
       Others(db.audit, id))
  }

  /** One change against the constraints: primary and unique keys, foreign keys, checks; deleting a capsule cascades. */
  function Apply(db: Db, w: Write): Option<Db> {
    match w
    case InsertCapsule(id, c) =>
      if id in db.capsules || NameTaken(db, c.tenant, c.name) then None
      else Some(db.(capsules := db.capsules[id := c]))
    case InsertVersion(id, number, v) =>
      if id !in db.capsules || (id, number) in db.versions || number == 0 then None
      else Some(db.(versions := db.versions[(id, number) := v]))
    case InsertBlob(tenant, hash, text) =>
      if (tenant, hash) in db.blobs || text == "" then None
      else Some(db.(blobs := db.blobs[(tenant, hash) := text]))
    case InsertAudit(entry) =>
      if entry.capsuleId !in db.capsules then None
      else Some(db.(audit := db.audit + [entry]))
    case UpdateLatest(id, latest, etag) =>
      if id !in db.capsules then None
      else Some(db.(capsules := db.capsules[id := db.capsules[id].(latestVersion := latest, etag := etag)]))
    case UpdateStatus(id, status, etag) =>
      if id !in db.capsules then None
      else Some(db.(capsules := db.capsules[id := db.capsules[id].(status := status, etag := etag)]))
    case DeleteCapsule(id) =>
      if id !in db.capsules then None else Some(WithoutCapsule(db, id))
  }

  /** A transaction: every change in order, or nothing. */
  function ApplyAll(db: Db, writes: seq<Write>): Option<Db>
    decreases |writes|
  {
    if writes == [] then Some(db)
    else
      var staged := Apply(db, writes[0]);
      if staged.None? then None else ApplyAll(staged.value, writes[1..])
  }

  lemma ApplyCons(db: Db, w: Write, more: seq<Write>)
    ensures ApplyAll(db, [w] + more) == (var staged := Apply(db, w); if staged.None? then None else ApplyAll(staged.value, more))
  {
    assert ([w] + more)[1..] == more;
  }

  class Session {
    var db: Db
    var pending: seq<Write>

    constructor (db: Db)
      ensures this.db == db && pending == []
    {
      this.db, pending := db, [];
    }

    method Add(w: Write)
      modifies this`pending
      ensures pending == old(pending) + [w]
    {
      pending := pending + [w];
    }

    method Commit() returns (ok: bool)
      modifies this
      ensures ok <==> ApplyAll(old(db), old(pending)).Some?
      ensures db == if ok then ApplyAll(old(db), old(pending)).value else old(db)
      ensures pending == if ok then [] else old(pending)
    {
      var staged := ApplyAll(db, pending);
      if staged.None? {
        return false;
      }
      db, pending := staged.value, [];
      return true;
    }

    method Rollback()
      modifies this`pending
      ensures pending == []
    {
      pending := [];
    }
  }

  /** A capsule's versions are exactly 1 to its latest version, of which there is at least one. */
  ghost predicate VersionsNumbered(db: Db) {
    && (forall id, n: nat :: (id, n) in db.versions <==> id in db.capsules && 1 <= n <= db.capsules[id].latestVersion)
    && (forall id :: id in db.capsules ==> db.capsules[id].latestVersion >= 1)
  }

  ghost predicate HashesDistinct(db: Db) {
    forall id, m: nat, n: nat :: (id, m) in db.versions && (id, n) in db.versions && m != n
      ==> db.versions[(id, m)].hash != db.versions[(id, n)].hash
  }

  /** Every version has its capsule's tenant and a non-empty blob for its content. */
  ghost predicate VersionsBacked(db: Db) {
    && (forall id, n: nat :: (id, n) in db.versions && id in db.capsules ==>
          && db.versions[(id, n)].tenant == db.capsules[id].tenant
          && (db.versions[(id, n)].tenant, db.versions[(id, n)].hash) in db.blobs)
    && (forall k :: k in db.blobs ==> db.blobs[k] != "")
  }

  ghost predicate NamesUnique(db: Db) {
    forall a, b :: a in db.capsules && b in db.capsules && a != b
      ==> (db.capsules[a].tenant, db.capsules[a].name) != (db.capsules[b].tenant, db.capsules[b].name)
  }

  /** What every committed state satisfies. */
  ghost predicate Consistent(db: Db) {
    && VersionsNumbered(db) && HashesDistinct(db) && VersionsBacked(db) && NamesUnique(db)
    && (forall a :: a in db.audit ==> a.capsuleId in db.capsules)
  }

  /** `VersionsNumbered`, for one capsule. */
  ghost predicate NumberedAt(db: Db, id: string) {
    && (forall n: nat :: (id, n) in db.versions <==> id in db.capsules && 1 <= n <= db.capsules[id].latestVersion)
    && (id in db.capsules ==> db.capsules[id].latestVersion >= 1)
  }
}
