/** Write-once storage of capsule text, one file per tenant and content hash. */
module WormStore {
  import opened Wrappers
  import opened UniversalNewlines

  /** A path below the storage directory, as its components. */
  type Path = seq<string>
  type Files = map<Path, string>

  function Clip(s: string, lo: nat, hi: nat): string
    requires lo <= hi
  {
    s[if lo <= |s| then lo else |s|..if hi <= |s| then hi else |s|]
  }

  function FilePath(tenant: string, hash: string): Path {
    [tenant, Clip(hash, 0, 2), Clip(hash, 2, 4), hash + ".yaml"]
  }

  function TempPath(tenant: string, hash: string): Path {
    [tenant, Clip(hash, 0, 2), Clip(hash, 2, 4), hash + ".tmp"]
  }

  /** Storing: a present file is compared as text mode reads it, an absent one is written through a temporary file. */
  function Store(files: Files, tenant: string, hash: string, text: string): (Files, bool) {
    var path := FilePath(tenant, hash);
    if path in files then (files, ReadText(files[path]) == text)
    else ((files - {TempPath(tenant, hash)})[path := text], true)
  }

  function Retrieve(files: Files, tenant: string, hash: string): Option<string> {
    var path := FilePath(tenant, hash);
    if path in files then Some(ReadText(files[path])) else None
  }

  lemma SuffixesDiffer(h: string, k: string)
    ensures h + ".yaml" != k + ".tmp"
  {
    assert (h + ".yaml")[|h + ".yaml"| - 1] == 'l';
    assert (k + ".tmp")[|k + ".tmp"| - 1] == 'p';
  }

  class WormStorage {
    var files: Files

    constructor ()
      ensures files == map[]
    {
      files := map[];
    }

    method StoreContent(hash: string, text: string, tenant: string) returns (ok: bool)
      modifies this
      ensures (files, ok) == Store(old(files), tenant, hash, text)
    {
      var path := FilePath(tenant, hash);
      if path in files {
        var existing := ReadText(files[path]);
        return existing == text;
      }
      var temp := TempPath(tenant, hash);
      SuffixesDiffer(hash, hash);
      files := files[temp := text];
      Rename(temp, path);
      assert files == (old(files) - {temp})[path := text];
      return true;
    }

    method Rename(from: Path, to: Path)
      requires from in files && from != to
      modifies this
      ensures files == (old(files) - {from})[to := old(files)[from]]
    {
      files := files[to := files[from]] - {from};
    }

    method RetrieveContent(hash: string, tenant: string) returns (text: Option<string>)
      ensures text == Retrieve(files, tenant, hash)
    {
      var path := FilePath(tenant, hash);
      if path !in files {
        return None;
      }
      return Some(ReadText(files[path]));
    }
  }

  /** Different tenants or hashes mean different files, and no content file is anyone's temporary file. */
  lemma DistinctFiles(tenant: string, hash: string, tenant': string, hash': string)
    ensures FilePath(tenant, hash) == FilePath(tenant', hash') <==> tenant == tenant' && hash == hash'
    ensures FilePath(tenant, hash) != TempPath(tenant', hash')
  {
    var p, q := FilePath(tenant, hash), FilePath(tenant', hash');
    if p == q {
      assert p[0] == q[0] && p[3] == q[3];
      assert (hash + ".yaml")[..|hash|] == hash;
      assert (hash' + ".yaml")[..|hash'|] == hash';
    }
    SuffixesDiffer(hash, hash');
    assert p[3] != TempPath(tenant', hash')[3];
  }

  /** Write once: whatever is stored later, and wherever, a stored file keeps its text, and nobody else's file appears. */
  lemma WriteOnce(files: Files, tenant: string, hash: string, text: string, tenant': string, hash': string)
    ensures var path := FilePath(tenant', hash');
      var files' := Store(files, tenant, hash, text).0;
      && (path in files ==> path in files' && files'[path] == files[path])
      && (path in files' && path !in files ==> (tenant, hash) == (tenant', hash') && files'[path] == text)
  {
    DistinctFiles(tenant', hash', tenant, hash);
  }

  ghost predicate KeptAt(files: Files, files': Files, t: string, h: string)
    requires FilePath(t, h) in files
  {
    FilePath(t, h) in files' && files'[FilePath(t, h)] == files[FilePath(t, h)]
  }

  /** No stored file changes. */
  ghost predicate FilesKept(files: Files, files': Files) {
    forall t, h :: FilePath(t, h) in files ==> KeptAt(files, files', t, h)
  }

  lemma StoreKeeps(files: Files, t: string, h: string, text: string)
    ensures FilesKept(files, Store(files, t, h, text).0)
  {
    forall t', h' | FilePath(t', h') in files
      ensures KeptAt(files, Store(files, t, h, text).0, t', h')
    {
      WriteOnce(files, t, h, text, t', h');
    }
  }

  /** Storing then retrieving gives back the text itself exactly when it holds no carriage return. */
  lemma StoreThenRetrieve(files: Files, tenant: string, hash: string, text: string)
    requires Retrieve(files, tenant, hash).None?
    ensures var (files', ok) := Store(files, tenant, hash, text);
      && ok
      && Retrieve(files', tenant, hash) == Some(ReadText(text))
      && (Retrieve(files', tenant, hash) == Some(text) <==> '\r' !in text)
  {
    ReadBackIsExact(text);
  }

  /** Storing the same text again is the idempotent operation it is meant to be exactly when the text holds no carriage return. */
  lemma StoringAgain(files: Files, tenant: string, hash: string, text: string)
    ensures var (files', ok) := Store(files, tenant, hash, text);
      ok ==>
        && Store(files', tenant, hash, text).0 == files'
        && (Store(files', tenant, hash, text).1 <==> '\r' !in text)
  {
    var path := FilePath(tenant, hash);
    ReadBackIsExact(text);
    if path in files {
      ReadTextHasNoCarriageReturn(files[path]);
    }
  }

  /** Where content lies: below the tenant, in directories named by the first two and the next two characters of its hash. */
  lemma PathOfHash(tenant: string, hash: string)
    requires |hash| >= 4
    ensures FilePath(tenant, hash) == [tenant, hash[..2], hash[2..4], hash + ".yaml"]
  {
  }
}
