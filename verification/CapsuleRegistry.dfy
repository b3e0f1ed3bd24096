/** The registry service: permissions, limits and validation around the write-once store and the repository. */
module CapsuleRegistry {
  import opened Wrappers
  import opened RegistryModels
  import opened CapsuleRepository
  import opened WormStore

  datatype Permission = CreateCapsules | PublishVersions | ReadCapsules | UpdateCapsules | DeleteCapsules

  datatype Context = Context(tenant: string, user: string, permissions: set<Permission>, admin: bool)

  /** `validate` stands for parsing and hashing: it gives the hash of the parsed document, so texts may share one. */
  datatype Config = Config(validate: string -> Option<string>, maxSize: nat, maxVersions: int)

  datatype World = World(store: Store, files: Files)

  const EMPTY_WORLD := World(Store(EMPTY_DB, map[]), map[])

  datatype CreateRequest = CreateRequest(
    id: Option<string>, freshId: string, freshEtag: string,
    name: string, owner: string, visibility: Visibility, text: string, key: string)

  datatype PublishRequest = PublishRequest(id: string, freshEtag: string, text: string, key: string)

  function Utf8Size(s: string): nat {
    if s == [] then 0
    else
      var c := s[0] as int;
      (if c < 0x80 then 1 else if c < 0x800 then 2 else if c < 0x10000 then 3 else 4) + Utf8Size(s[1..])
  }

  /** The hash of a text that passes the size check and validation. */
  function Admit(cfg: Config, text: string): Outcome<string> {
    if Utf8Size(text) > cfg.maxSize then Err(TooLarge)
    else
      var hash := cfg.validate(text);
      if hash.None? then Err(Invalid) else Ok(hash.value)
  }

  predicate CanAccess(ctx: Context, c: Capsule) {
    match c.visibility
    case Private => c.owner == ctx.user || ctx.admin
    case Org => true
  }

  function Accessible(db: Db, ctx: Context, id: string): Outcome<Capsule> {
    if ReadCapsules !in ctx.permissions then Err(Forbidden)
    else
      var c := FindCapsule(db, ctx.tenant, id);
      if c.None? || !CanAccess(ctx, c.value) then Err(NotFound) else Ok(c.value)
  }

  /** The service reads the version number off the record without checking that there is one. */
  function Dereference(o: Outcome<Receipt>): Outcome<Receipt> {
    if o.Ok? && o.value.version.None? then Err(Crash) else o
  }

  function NewCapsuleOf(ctx: Context, q: CreateRequest, hash: string): NewCapsule {
    NewCapsule(q.id, q.freshId, q.freshEtag, ctx.tenant, q.name, q.owner, q.visibility, q.text, hash, ctx.user, q.key)
  }

  function NewVersionOf(ctx: Context, q: PublishRequest, hash: string): NewVersion {
    NewVersion(q.id, q.freshEtag, ctx.tenant, q.text, hash, ctx.user, q.key)
  }

  function Create(cfg: Config, w: World, ctx: Context, q: CreateRequest): (World, Outcome<Receipt>) {
    if CreateCapsules !in ctx.permissions then (w, Err(Forbidden))
    else
      var hash := Admit(cfg, q.text);
      if hash.Err? then (w, Err(hash.error))
      else
        var (files, stored) := WormStore.Store(w.files, ctx.tenant, hash.value, q.text);
        if !stored then (w, Err(StorageFailure))
        else
          var (store, o) := CreateCapsule(w.store, NewCapsuleOf(ctx, q, hash.value));
          (World(store, files), Dereference(o))
  }

  function Publish(cfg: Config, w: World, ctx: Context, q: PublishRequest): (World, Outcome<Receipt>) {
    if PublishVersions !in ctx.permissions then (w, Err(Forbidden))
    else
      var c := FindCapsule(w.store.db, ctx.tenant, q.id);
      if c.None? then (w, Err(NotFound))
      else if c.value.latestVersion >= cfg.maxVersions then (w, Err(Conflict))
      else
        var hash := Admit(cfg, q.text);
        if hash.Err? then (w, Err(hash.error))
        else
          var (files, stored) := WormStore.Store(w.files, ctx.tenant, hash.value, q.text);
          if !stored then (w, Err(StorageFailure))
          else
            var (store, o) := PublishVersionOf(w.store, NewVersionOf(ctx, q, hash.value));
            (World(store, files), Dereference(o))
  }

  /** The stored text of a version: the blob if there is one, otherwise what the write-once store has. */
  function Content(w: World, tenant: string, hash: string): Option<string> {
    if (tenant, hash) in w.store.db.blobs then Some(w.store.db.blobs[(tenant, hash)])
    else Retrieve(w.files, tenant, hash)
  }

  function ReadVersion(w: World, ctx: Context, id: string, number: nat): Outcome<string> {
    var c := Accessible(w.store.db, ctx, id);
    if c.Err? then Err(c.error)
    else
      var v := FindVersion(w.store.db, ctx.tenant, id, number);
      if v.None? then Err(NotFound)
      else
        var text := Content(w, ctx.tenant, v.value.hash);
        if text.None? || text.value == "" then Err(NotFound) else Ok(text.value)
  }

  function SetStatus(w: World, ctx: Context, id: string, status: Status, expected: string, freshEtag: string): (World, Outcome<Capsule>) {
    if UpdateCapsules !in ctx.permissions then (w, Err(Forbidden))
    else
      var c := Accessible(w.store.db, ctx, id);
      if c.Err? then (w, Err(c.error))
      else
        var (db, o) := UpdateStatusOf(w.store.db, ctx.tenant, id, status, ctx.user, expected, freshEtag);
        (w.(store := w.store.(db := db)), o)
  }

  function Remove(w: World, ctx: Context, id: string): (World, Outcome<()>) {
    if DeleteCapsules !in ctx.permissions then (w, Err(Forbidden))
    else
      var (db, o) := HardDelete(w.store.db, ctx.tenant, id);
      (w.(store := w.store.(db := db)), o)
  }

  class RegistryService {
    const cfg: Config
    const repository: Repository
    const worm: WormStorage

    constructor (cfg: Config, repository: Repository, worm: WormStorage)
      ensures this.cfg == cfg && this.repository == repository && this.worm == worm
    {
      this.cfg, this.repository, this.worm := cfg, repository, worm;
    }

    ghost predicate Valid()
      reads repository, repository.session
    {
      repository.Valid()
    }

    function Current(): World
      reads repository, repository.session, worm
    {
      World(repository.Current(), worm.files)
    }

    method CreateCapsule(ctx: Context, q: CreateRequest) returns (o: Outcome<Receipt>)
      requires Valid()
      modifies repository, repository.session, worm
      ensures Valid()
      ensures (Current(), o) == Create(cfg, old(Current()), ctx, q)
    {
      if CreateCapsules !in ctx.permissions {
        return Err(Forbidden);
      }
      var hash := Admit(cfg, q.text);
      if hash.Err? {
        return Err(hash.error);
      }
      var stored := worm.StoreContent(hash.value, q.text, ctx.tenant);
      if !stored {
        return Err(StorageFailure);
      }
      var receipt := repository.Create(NewCapsuleOf(ctx, q, hash.value));
      return Dereference(receipt);
    }

    method PublishVersion(ctx: Context, q: PublishRequest) returns (o: Outcome<Receipt>)
      requires Valid()
      modifies repository, repository.session, worm
      ensures Valid()
      ensures (Current(), o) == Publish(cfg, old(Current()), ctx, q)
    {
      if PublishVersions !in ctx.permissions {
        return Err(Forbidden);
      }
      var capsule := FindCapsule(repository.session.db, ctx.tenant, q.id);
      if capsule.None? {
        return Err(NotFound);
      }
      if capsule.value.latestVersion >= cfg.maxVersions {
        return Err(Conflict);
      }
      var hash := Admit(cfg, q.text);
      if hash.Err? {
        return Err(hash.error);
      }
      var stored := worm.StoreContent(hash.value, q.text, ctx.tenant);
      if !stored {
        return Err(StorageFailure);
      }
      var receipt := repository.Publish(NewVersionOf(ctx, q, hash.value));
      return Dereference(receipt);
    }

    method GetCapsuleVersion(ctx: Context, id: string, number: nat) returns (o: Outcome<string>)
      ensures o == ReadVersion(Current(), ctx, id, number)
    {
      var db := repository.session.db;
      var capsule := Accessible(db, ctx, id);
      if capsule.Err? {
        return Err(capsule.error);
      }
      var version := FindVersion(db, ctx.tenant, id, number);
      if version.None? {
        return Err(NotFound);
      }
      var text: Option<string>;
      if (ctx.tenant, version.value.hash) in db.blobs {
        text := Some(db.blobs[(ctx.tenant, version.value.hash)]);
      } else {
        text := worm.RetrieveContent(version.value.hash, ctx.tenant);
      }
      if text.None? || text.value == "" {
        return Err(NotFound);
      }
      return Ok(text.value);
    }

    method UpdateCapsuleStatus(ctx: Context, id: string, status: Status, expected: string, freshEtag: string)
      returns (o: Outcome<Capsule>)
      requires Valid()
      modifies repository.session
      ensures Valid()
      ensures (Current(), o) == SetStatus(old(Current()), ctx, id, status, expected, freshEtag)
    {
      if UpdateCapsules !in ctx.permissions {
        return Err(Forbidden);
      }
      var capsule := Accessible(repository.session.db, ctx, id);
      if capsule.Err? {
        return Err(capsule.error);
      }
      o := repository.UpdateStatus(ctx.tenant, id, status, ctx.user, expected, freshEtag);
    }

    method DeleteCapsule(ctx: Context, id: string) returns (o: Outcome<()>)
      requires Valid()
      modifies repository.session
      ensures Valid()
      ensures (Current(), o) == Remove(old(Current()), ctx, id)
    {
      if DeleteCapsules !in ctx.permissions {
        return Err(Forbidden);
      }
      if FindCapsule(repository.session.db, ctx.tenant, id).None? {
        return Err(NotFound);
      }
      o := repository.HardDeleteCapsule(ctx.tenant, id, ctx.user);
    }
  }
}
