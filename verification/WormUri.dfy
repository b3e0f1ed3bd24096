/** Storage URIs: building one for a tenant and hash, and reading tenant and hash back out of it. */
module WormUri {
  import opened Wrappers
  import opened WormStore

  function StripSlashes(s: string): string {
    if s != [] && s[|s| - 1] == '/' then StripSlashes(s[..|s| - 1]) else s
  }

  function Relative(tenant: string, hash: string): string {
    tenant + "/" + (Clip(hash, 0, 2) + "/" + (Clip(hash, 2, 4) + "/" + (hash + ".yaml")))
  }

  function GenerateUri(bucket: string, tenant: string, hash: string): string {
    StripSlashes(bucket) + "/" + Relative(tenant, hash)
  }

  /** Characters that end the path of a URL, and with `slash` those that end its authority. */
  predicate Stops(ch: char, slash: bool) {
    ch == '?' || ch == '#' || (slash && ch == '/')
  }

  /** The index of the first stop character in `s`, or the length of `s`. */
  function IndexOfStop(s: string, slash: bool): (i: nat)
    ensures i <= |s|
  {
    if s == [] || Stops(s[0], slash) then 0 else 1 + IndexOfStop(s[1..], slash)
  }

  /** No query and no fragment mark. */
  predicate Plain(s: string) {
    forall i :: 0 <= i < |s| ==> !Stops(s[i], false)
  }

  predicate HasAuthority(rest: string) {
    |rest| >= 2 && rest[0] == '/' && rest[1] == '/'
  }

  function AfterAuthority(rest: string): string {
    if HasAuthority(rest)
    then rest[2 + IndexOfStop(rest[2..], true)..]
    else rest
  }

  /** What `urlparse` calls the path, for what follows the scheme: after the authority, before query and fragment. */
  function UrlPath(rest: string): string {
    var r := AfterAuthority(rest);
    r[..IndexOfStop(r, false)]
  }

  /** `path.split("/")` */
  function Segments(s: string): (segs: seq<string>)
    ensures |segs| > 0
  {
    if s == [] then [""]
    else
      var rest := Segments(s[1..]);
      if s[0] == '/' then [""] + rest else [[s[0]] + rest[0]] + rest[1..]
  }

  /** `pathlib` drops empty and `.` components. */
  function Names(segs: seq<string>): seq<string> {
    if segs == [] then []
    else (if segs[0] == "" || segs[0] == "." then [] else [segs[0]]) + Names(segs[1..])
  }

  function PathParts(path: string): seq<string> {
    (if path != [] && path[0] == '/' then ["/"] else []) + Names(Segments(path))
  }

  /** `name.replace(".yaml", "")` */
  function DropYaml(name: string): string {
    if |name| < 5 then name
    else if name[..5] == ".yaml" then DropYaml(name[5..])
    else [name[0]] + DropYaml(name[1..])
  }

  function Authority(rest: string): string {
    if HasAuthority(rest) then rest[2..2 + IndexOfStop(rest[2..], true)] else ""
  }

  /** URL parsing raises on some authorities, by rules about brackets and Unicode that `valid` stands for; the empty one is never among them. */
  predicate Parses(valid: string -> bool, rest: string) {
    Authority(rest) != "" ==> valid(Authority(rest))
  }

  function ParseUri(valid: string -> bool, uri: string): Option<(string, string)> {
    if |uri| < 5 || uri[..5] != "file:" || !Parses(valid, uri[5..]) then None
    else
      var parts := PathParts(UrlPath(uri[5..]));
      if |parts| < 4 then None
      else Some((parts[|parts| - 4], DropYaml(parts[|parts| - 1])))
  }

  predicate HexDigit(c: char) {
    '0' <= c <= '9' || 'a' <= c <= 'f'
  }

  predicate UuidText(t: string) {
    |t| == 36 && forall i :: 0 <= i < |t| ==> HexDigit(t[i]) || t[i] == '-'
  }

  predicate HashText(h: string) {
    |h| == 64 && forall i :: 0 <= i < |h| ==> HexDigit(h[i])
  }

  lemma {:induction false} SegmentsConcat(a: string, b: string)
    ensures Segments(a + "/" + b) == Segments(a) + Segments(b)
  {
    var whole := a + "/" + b;
    if a == [] {
      assert whole[0] == '/' && whole[1..] == b;
    } else {
      assert whole[0] == a[0] && whole[1..] == a[1..] + "/" + b;
      SegmentsConcat(a[1..], b);
    }
  }

  lemma {:induction false} NamesConcat(s: seq<string>, t: seq<string>)
    ensures Names(s + t) == Names(s) + Names(t)
  {
    if s == [] {
      assert s + t == t;
    } else {
      assert (s + t)[1..] == s[1..] + t;
      NamesConcat(s[1..], t);
    }
  }

  lemma {:induction false} OneSegment(s: string)
    requires '/' !in s
    ensures Segments(s) == [s]
  {
    if s != [] {
      OneSegment(s[1..]);
      assert [s[0]] + s[1..] == s;
    }
  }

  lemma {:induction false} NamesKept(segs: seq<string>)
    requires forall i :: 0 <= i < |segs| ==> segs[i] != "" && segs[i] != "."
    ensures Names(segs) == segs
  {
    if segs != [] {
      NamesKept(segs[1..]);
    }
  }

  lemma ComponentsArePlain(tenant: string, hash: string)
    requires UuidText(tenant) && HashText(hash)
    ensures forall i :: 0 <= i < 4 ==> '/' !in FilePath(tenant, hash)[i] && |FilePath(tenant, hash)[i]| > 1
  {
    var p := FilePath(tenant, hash);
    assert |p[0]| == 36 && |p[1]| == 2 && |p[2]| == 2 && |p[3]| == 69;
    assert '/' !in hash && '/' !in ".yaml";
  }

  lemma RelativeSegments(tenant: string, hash: string)
    requires UuidText(tenant) && HashText(hash)
    ensures Segments(Relative(tenant, hash)) == FilePath(tenant, hash)
  {
    ComponentsArePlain(tenant, hash);
    var p := FilePath(tenant, hash);
    OneSegment(p[0]);
    OneSegment(p[1]);
    OneSegment(p[2]);
    OneSegment(p[3]);
    SegmentsConcat(p[2], p[3]);
    SegmentsConcat(p[1], p[2] + "/" + p[3]);
    SegmentsConcat(p[0], p[1] + "/" + (p[2] + "/" + p[3]));
    assert p[2] + "/" + p[3] == p[2] + ("/" + p[3]);
  }

  /** Whatever precedes it, a path that ends with a generated relative path has its four components last. */
  lemma LastFourParts(c: string, tenant: string, hash: string)
    requires UuidText(tenant) && HashText(hash)
    ensures var parts := PathParts(c + "/" + Relative(tenant, hash));
      |parts| >= 4 && parts[|parts| - 4] == tenant && parts[|parts| - 1] == hash + ".yaml"
  {
    var p := FilePath(tenant, hash);
    ComponentsArePlain(tenant, hash);
    RelativeSegments(tenant, hash);
    NamesKept(p);
    SegmentsConcat(c, Relative(tenant, hash));
    NamesConcat(Segments(c), p);
    var parts := PathParts(c + "/" + Relative(tenant, hash));
    var front := parts[..|parts| - 4];
    assert parts == front + p;
  }

  lemma {:induction false} DropYamlInverts(hash: string)
    requires '.' !in hash
    ensures DropYaml(hash + ".yaml") == hash
  {
    var name := hash + ".yaml";
    if hash == [] {
      assert name == ".yaml" && name[5..] == [];
    } else {
      assert name[..5][0] == hash[0];
      assert name[1..] == hash[1..] + ".yaml";
      DropYamlInverts(hash[1..]);
    }
  }

  lemma {:induction false} StrippedBucket(b: string)
    ensures StripSlashes(b) <= b
    ensures StripSlashes(b) != [] ==> StripSlashes(b)[|StripSlashes(b)| - 1] != '/'
  {
    if b != [] && b[|b| - 1] == '/' {
      StrippedBucket(b[..|b| - 1]);
    }
  }

  lemma {:induction false} StrippedFileBucket(b: string)
    requires "file:" <= b
    ensures "file:" <= StripSlashes(b)
  {
    if b[|b| - 1] == '/' {
      assert |b| > 5;
      assert b[..|b| - 1][..5] == "file:";
      StrippedFileBucket(b[..|b| - 1]);
    }
  }

  lemma {:induction false} PlainPath(r: string)
    requires Plain(r)
    ensures IndexOfStop(r, false) == |r|
  {
    if r != [] {
      PlainPath(r[1..]);
    }
  }

  /** A stop character right after `a` ends the search there at the latest. */
  lemma {:induction false} StopsWithin(a: string, b: string, slash: bool)
    requires b != [] && Stops(b[0], slash)
    ensures IndexOfStop(a + b, slash) <= |a|
  {
    if a == [] {
      assert a + b == b;
    } else if !Stops(a[0], slash) {
      assert (a + b)[1..] == a[1..] + b;
      StopsWithin(a[1..], b, slash);
    }
  }

  lemma TailAtStop(tail: string, more: string) returns (c: string)
    requires more != [] && Stops(more[0], true)
    ensures (tail + more)[IndexOfStop(tail + more, true)..] == c + more
    ensures |c| <= |tail| && c == tail[|tail| - |c|..]
  {
    StopsWithin(tail, more, true);
    c := tail[IndexOfStop(tail + more, true)..];
  }

  lemma AfterIsTail(x: string)
    requires HasAuthority(x)
    ensures AfterAuthority(x) == x[2..][IndexOfStop(x[2..], true)..]
  {
  }

  lemma AuthorityEndsInBase(base: string, more: string) returns (c: string)
    requires base != [] ==> base[|base| - 1] != '/'
    requires |more| >= 2 && more[0] == '/' && more[1] != '/'
    ensures AfterAuthority(base + more) == c + more
    ensures |c| <= |base| && c == base[|base| - |c|..]
  {
    var rest := base + more;
    c := base;
    if HasAuthority(rest) {
      assert |base| >= 2;
      var tail := base[2..];
      assert rest[2..] == tail + more;
      c := TailAtStop(tail, more);
      AfterIsTail(rest);
    }
  }

  /** The path of a URL that continues a bucket without query or fragment ends with what was appended. */
  lemma PathEndsWithMore(base: string, more: string) returns (c: string)
    requires base != [] ==> base[|base| - 1] != '/'
    requires Plain(base) && Plain(more)
    requires |more| >= 2 && more[0] == '/' && more[1] != '/'
    ensures UrlPath(base + more) == c + more
  {
    c := AuthorityEndsInBase(base, more);
    assert Plain(c + more);
    PlainPath(c + more);
  }

  lemma PlainConcat(a: string, b: string)
    requires Plain(a) && Plain(b)
    ensures Plain(a + b)
  {
  }

  lemma RelativeIsPlain(tenant: string, hash: string)
    requires UuidText(tenant) && HashText(hash)
    ensures Plain(Relative(tenant, hash))
    ensures Relative(tenant, hash) != [] && Relative(tenant, hash)[0] != '/'
  {
    var xx, yy := Clip(hash, 0, 2), Clip(hash, 2, 4);
    PlainConcat(hash, ".yaml");
    PlainConcat("/", hash + ".yaml");
    PlainConcat(yy, "/" + (hash + ".yaml"));
    var tail := yy + "/" + (hash + ".yaml");
    assert tail == yy + ("/" + (hash + ".yaml"));
    PlainConcat("/", tail);
    PlainConcat(xx, "/" + tail);
    var longer := xx + "/" + tail;
    assert longer == xx + ("/" + tail);
    PlainConcat("/", longer);
    PlainConcat(tenant, "/" + longer);
    assert Relative(tenant, hash) == tenant + ("/" + longer);
    assert Relative(tenant, hash)[0] == tenant[0];
  }

  lemma StrippedRest(bucket: string)
    requires "file:" <= bucket && Plain(bucket)
    ensures |StripSlashes(bucket)| >= 5
    ensures var base := StripSlashes(bucket)[5..]; Plain(base) && (base != [] ==> base[|base| - 1] != '/')
  {
    StrippedBucket(bucket);
    StrippedFileBucket(bucket);
    var stripped := StripSlashes(bucket);
    assert forall i :: 0 <= i < |stripped| ==> stripped[i] == bucket[i];
  }

  lemma PathContinues(base: string, relative: string) returns (c: string)
    requires Plain(base) && (base != [] ==> base[|base| - 1] != '/')
    requires Plain(relative) && relative != [] && relative[0] != '/'
    ensures UrlPath(base + ("/" + relative)) == c + "/" + relative
  {
    PlainConcat("/", relative);
    c := PathEndsWithMore(base, "/" + relative);
    assert c + ("/" + relative) == c + "/" + relative;
  }

  lemma PathOfBase(bucket: string, tenant: string, hash: string) returns (c: string)
    requires "file:" <= bucket && Plain(bucket)
    requires UuidText(tenant) && HashText(hash)
    ensures |StripSlashes(bucket)| >= 5
    ensures UrlPath(StripSlashes(bucket)[5..] + ("/" + Relative(tenant, hash))) == c + "/" + Relative(tenant, hash)
  {
    StrippedRest(bucket);
    RelativeIsPlain(tenant, hash);
    c := PathContinues(StripSlashes(bucket)[5..], Relative(tenant, hash));
  }

  /** What stands before a stop character ends at the same place whatever follows that character. */
  lemma {:induction false} SameStop(a: string, x: string, y: string)
    requires (x == "" || Stops(x[0], true)) && (y == "" || Stops(y[0], true))
    ensures IndexOfStop(a + x, true) == IndexOfStop(a + y, true) <= |a|
  {
    if a == [] {
      assert a + x == x && a + y == y;
    } else if !Stops(a[0], true) {
      assert (a + x)[1..] == a[1..] + x && (a + y)[1..] == a[1..] + y;
      SameStop(a[1..], x, y);
    } else {
      assert (a + x)[0] == a[0] && (a + y)[0] == a[0];
    }
  }

  lemma SameAuthorityText(base: string, x: string, y: string)
    requires HasAuthority(base) && (x == "" || Stops(x[0], true)) && (y == "" || Stops(y[0], true))
    ensures Authority(base + x) == Authority(base + y)
  {
    SameStop(base[2..], x, y);
    assert (base + x)[2..] == base[2..] + x && (base + y)[2..] == base[2..] + y;
    var i := IndexOfStop(base[2..] + x, true);
    assert (base + x)[2..2 + i] == base[2..2 + i] == (base + y)[2..2 + i];
  }

  lemma {:induction false} StrippedTail(b: string)
    ensures StripSlashes(b) <= b
    ensures var tail := b[|StripSlashes(b)|..]; b == StripSlashes(b) + tail && (tail == "" || tail[0] == '/')
  {
    StrippedBucket(b);
    if b != [] && b[|b| - 1] == '/' {
      StrippedTail(b[..|b| - 1]);
      var s := StripSlashes(b);
      assert b[|s|..] == b[..|b| - 1][|s|..] + "/";
    }
  }

  lemma NoAuthority(base: string, more: string)
    requires !HasAuthority(base) && (base != [] ==> base[|base| - 1] != '/')
    requires |more| >= 2 && more[0] == '/' && more[1] != '/'
    ensures !HasAuthority(base + more)
  {
  }

  /** A bucket whose URL parses has generated URIs that parse: the authority is the same, or there is none. */
  lemma StillParses(valid: string -> bool, bucket: string, tenant: string, hash: string)
    requires "file:" <= bucket && Parses(valid, bucket[5..]) && UuidText(tenant) && HashText(hash)
    ensures |StripSlashes(bucket)| >= 5
    ensures Parses(valid, StripSlashes(bucket)[5..] + ("/" + Relative(tenant, hash)))
  {
    StrippedFileBucket(bucket);
    StrippedBucket(bucket);
    StrippedTail(bucket);
    RelativeIsPlain(tenant, hash);
    var base, tail, more := StripSlashes(bucket)[5..], bucket[|StripSlashes(bucket)|..], "/" + Relative(tenant, hash);
    assert bucket[5..] == base + tail;
    if HasAuthority(base) {
      SameAuthorityText(base, tail, more);
    } else {
      NoAuthority(base, more);
    }
  }

  lemma ParsedFromPath(valid: string -> bool, uri: string, c: string, tenant: string, hash: string)
    requires |uri| >= 5 && uri[..5] == "file:" && Parses(valid, uri[5..]) && UuidText(tenant) && HashText(hash)
    requires UrlPath(uri[5..]) == c + "/" + Relative(tenant, hash)
    ensures ParseUri(valid, uri) == Some((tenant, hash))
  {
    LastFourParts(c, tenant, hash);
    assert '.' !in hash;
    DropYamlInverts(hash);
  }

  /** How the generated URI is taken apart: the scheme, the rest of the stripped bucket, the relative path. */
  lemma UriOfBase(bucket: string, tenant: string, hash: string)
    requires "file:" <= bucket
    ensures var uri, stripped := GenerateUri(bucket, tenant, hash), StripSlashes(bucket);
      |stripped| >= 5 && |uri| >= 5 && uri[..5] == "file:" && uri[5..] == stripped[5..] + ("/" + Relative(tenant, hash))
  {
    StrippedFileBucket(bucket);
    var stripped, more := StripSlashes(bucket), "/" + Relative(tenant, hash);
    assert GenerateUri(bucket, tenant, hash) == stripped + more;
    assert (stripped + more)[..5] == stripped[..5] == "file:";
  }

  /** Parsing undoes generating, for every `file:` bucket without query or fragment, trailing slashes included. */
  lemma ParseInvertsGenerate(valid: string -> bool, bucket: string, tenant: string, hash: string)
    requires "file:" <= bucket && Plain(bucket) && Parses(valid, bucket[5..])
    requires UuidText(tenant) && HashText(hash)
    ensures ParseUri(valid, GenerateUri(bucket, tenant, hash)) == Some((tenant, hash))
  {
    UriOfBase(bucket, tenant, hash);
    StillParses(valid, bucket, tenant, hash);
    var c := PathOfBase(bucket, tenant, hash);
    ParsedFromPath(valid, GenerateUri(bucket, tenant, hash), c, tenant, hash);
  }

  lemma {:induction false} FirstIsInPrefix(x: string, y: string, slash: bool, i: nat)
    requires i < |x| && Stops(x[i], slash)
    ensures IndexOfStop(x + y, slash) == IndexOfStop(x, slash) <= i
  {
    if !Stops(x[0], slash) {
      assert (x + y)[1..] == x[1..] + y;
      FirstIsInPrefix(x[1..], y, slash, i - 1);
    }
  }

  lemma AuthorityLeavesMark(tail: string, y: string, i: nat)
    requires i < |tail| && Stops(tail[i], false)
    ensures var k := IndexOfStop(tail, true);
      && (tail + y)[IndexOfStop(tail + y, true)..] == tail[k..] + y
      && k <= i && Stops(tail[k..][i - k], false)
  {
    FirstIsInPrefix(tail, y, true, i);
  }

  lemma SameAuthority(x: string, y: string, i: nat)
    requires i < |x| && Stops(x[i], false)
    ensures HasAuthority(x + y) <==> HasAuthority(x)
    ensures HasAuthority(x) ==> i >= 2
  {
    assert (x + y)[0] == x[0];
    assert |x| >= 2 ==> (x + y)[1] == x[1];
  }

  lemma AuthorityEndsBeforeMark(x: string, y: string, i: nat) returns (j: nat)
    requires i < |x| && Stops(x[i], false)
    ensures AfterAuthority(x + y) == AfterAuthority(x) + y
    ensures j < |AfterAuthority(x)| && Stops(AfterAuthority(x)[j], false)
  {
    j := i;
    SameAuthority(x, y, i);
    if HasAuthority(x) {
      assert (x + y)[2..] == x[2..] + y;
      AuthorityLeavesMark(x[2..], y, i - 2);
      j := i - 2 - IndexOfStop(x[2..], true);
      AfterIsTail(x);
      AfterIsTail(x + y);
    }
  }

  /** Whatever follows a query or fragment mark has no influence on the path. */
  lemma PathEndsAtMark(x: string, y: string)
    requires !Plain(x)
    ensures UrlPath(x + y) == UrlPath(x)
  {
    var i :| 0 <= i < |x| && Stops(x[i], false);
    var j := AuthorityEndsBeforeMark(x, y, i);
    FirstIsInPrefix(AfterAuthority(x), y, false, j);
  }

  lemma {:induction false} StripKeepsMarks(b: string)
    requires !Plain(b)
    ensures !Plain(StripSlashes(b))
  {
    if b[|b| - 1] == '/' {
      var i :| 0 <= i < |b| && Stops(b[i], false);
      assert Stops(b[..|b| - 1][i], false);
      StripKeepsMarks(b[..|b| - 1]);
    }
  }

  /** Every URI generated under this bucket is parsed back to its tenant and hash. */
  ghost predicate RoundTrips(valid: string -> bool, bucket: string) {
    forall tenant, hash :: UuidText(tenant) && HashText(hash) ==>
      ParseUri(valid, GenerateUri(bucket, tenant, hash)) == Some((tenant, hash))
  }

  lemma AuthorityEndsAtMark(x: string, y: string)
    requires !Plain(x)
    ensures Authority(x + y) == Authority(x)
  {
    var i :| 0 <= i < |x| && Stops(x[i], false);
    SameAuthority(x, y, i);
    if HasAuthority(x) {
      assert (x + y)[2..] == x[2..] + y && x[2..][i - 2] == x[i];
      FirstIsInPrefix(x[2..], y, true, i - 2);
    }
  }

  lemma SamePathSameResult(valid: string -> bool, a: string, b: string)
    requires |a| >= 5 && |b| >= 5 && a[..5] == "file:" && b[..5] == "file:"
    requires UrlPath(a[5..]) == UrlPath(b[5..]) && Authority(a[5..]) == Authority(b[5..])
    ensures ParseUri(valid, a) == ParseUri(valid, b)
  {
  }

  lemma MarkAfterScheme(s: string)
    requires "file:" <= s && !Plain(s)
    ensures !Plain(s[5..])
  {
    assert forall j :: 0 <= j < 5 ==> s[j] == "file:"[j] && !Stops("file:"[j], false);
    var i :| 0 <= i < |s| && Stops(s[i], false);
    assert Stops(s[5..][i - 5], false);
  }

  /** With a query or fragment in the bucket, the parsed result depends on the bucket alone. */
  lemma MarkedBucketDecides(valid: string -> bool, bucket: string, tenant: string, hash: string)
    requires "file:" <= bucket && !Plain(bucket)
    ensures ParseUri(valid, GenerateUri(bucket, tenant, hash)) == ParseUri(valid, StripSlashes(bucket))
  {
    StripKeepsMarks(bucket);
    StrippedFileBucket(bucket);
    UriOfBase(bucket, tenant, hash);
    MarkAfterScheme(StripSlashes(bucket));
    PathEndsAtMark(StripSlashes(bucket)[5..], "/" + Relative(tenant, hash));
    AuthorityEndsAtMark(StripSlashes(bucket)[5..], "/" + Relative(tenant, hash));
    SamePathSameResult(valid, GenerateUri(bucket, tenant, hash), StripSlashes(bucket));
  }

  /** The round trip works for a bucket exactly when it has neither a query nor a fragment. */
  lemma RoundTripsIff(valid: string -> bool, bucket: string)
    requires "file:" <= bucket && Parses(valid, bucket[5..])
    ensures RoundTrips(valid, bucket) <==> Plain(bucket)
  {
    if Plain(bucket) {
      forall tenant, hash | UuidText(tenant) && HashText(hash)
        ensures ParseUri(valid, GenerateUri(bucket, tenant, hash)) == Some((tenant, hash))
      {
        ParseInvertsGenerate(valid, bucket, tenant, hash);
      }
    } else {
      var t, u, h := seq(36, i => 'a'), seq(36, i => 'b'), seq(64, i => '0');
      assert t[0] != u[0];
      assert UuidText(t) && UuidText(u) && HashText(h);
      MarkedBucketDecides(valid, bucket, t, h);
      MarkedBucketDecides(valid, bucket, u, h);
    }
  }

  lemma {:induction false} AuthorityEnd(r: string)
    ensures var i := IndexOfStop(r, true); i < |r| ==> Stops(r[i], true)
  {
    if r != [] && !Stops(r[0], true) {
      AuthorityEnd(r[1..]);
    }
  }

  /** Where an authority ends, a path begins with a slash or there is none. */
  lemma AfterAuthorityStops(rest: string)
    requires HasAuthority(rest)
    ensures AfterAuthority(rest) == "" || Stops(AfterAuthority(rest)[0], true)
  {
    AuthorityEnd(rest[2..]);
  }

  /** `Path(parsed.path).resolve()` depends on the working directory; an empty path is the working directory itself. */
  predicate WorkingDirectoryBucket(rest: string) {
    UrlPath(rest) == "" || UrlPath(rest)[0] != '/'
  }

  /** The first slash, query or fragment mark is a slash exactly when a slash comes before every such mark. */
  lemma {:induction false} SlashFirst(r: string)
    ensures var i := IndexOfStop(r, true);
      (i < |r| && r[i] == '/') <==> '/' in r[..IndexOfStop(r, false)]
  {
    if r != [] && !Stops(r[0], true) {
      SlashFirst(r[1..]);
      assert r[..IndexOfStop(r, false)] == [r[0]] + r[1..][..IndexOfStop(r[1..], false)];
    } else if r != [] && r[0] == '/' {
      assert r[..IndexOfStop(r, false)][0] == '/';
    }
  }

  /**
   * A file URL stores in the working directory, or relative to it, exactly when what follows the
   * scheme has an authority and no slash after it before a query or fragment, as in `file://_worm`,
   * or has no authority and does not start with a slash.
   */
  lemma WorkingDirectoryIff(rest: string)
    ensures WorkingDirectoryBucket(rest) <==>
      if HasAuthority(rest) then '/' !in rest[2..][..IndexOfStop(rest[2..], false)] else rest == "" || rest[0] != '/'
  {
    if HasAuthority(rest) {
      SlashFirst(rest[2..]);
      AfterAuthorityStops(rest);
    }
  }

  lemma {:induction false} StopAfter(a: string, b: string)
    requires (forall i :: 0 <= i < |a| ==> !Stops(a[i], true)) && (b != "" ==> Stops(b[0], true))
    ensures IndexOfStop(a + b, true) == |a|
  {
    if a == [] {
      assert a + b == b;
    } else {
      assert (a + b)[1..] == a[1..] + b;
      StopAfter(a[1..], b);
    }
  }

  /** With an authority the path is absolute, or there is no path at all. */
  lemma AuthorityMeansAbsolute(authority: string, path: string)
    requires forall i :: 0 <= i < |authority| ==> !Stops(authority[i], true)
    requires Plain(path) && (path != "" ==> path[0] == '/')
    ensures UrlPath("//" + authority + path) == path
  {
    var rest := "//" + authority + path;
    assert HasAuthority(rest) && rest[2..] == authority + path;
    StopAfter(authority, path);
    assert (authority + path)[|authority|..] == path;
    PlainPath(path);
  }

  /** The documented example: the dot is an authority, and the directory is `/_worm` at the root. */
  lemma DocumentedBucketIsAbsolute()
    ensures UrlPath("//./_worm") == "/_worm"
  {
    assert "//" + "." + "/_worm" == "//./_worm";
    AuthorityMeansAbsolute(".", "/_worm");
  }

  lemma AuthorityAlone(authority: string)
    requires forall i :: 0 <= i < |authority| ==> !Stops(authority[i], true)
    ensures UrlPath("//" + authority) == ""
  {
    AuthorityMeansAbsolute(authority, "");
    assert "//" + authority + "" == "//" + authority;
  }

  /** Without a path the authority is dropped, and the directory is the working directory. */
  lemma HostOnlyBucketIsWorkingDirectory()
    ensures UrlPath("//_worm") == "" && WorkingDirectoryBucket("//_worm")
  {
    AuthorityAlone("_worm");
    assert "//" + "_worm" == "//_worm";
  }

  lemma {:induction false} DropYamlKeeps(plain: string)
    requires '.' !in plain
    ensures DropYaml(plain) == plain
  {
    if |plain| >= 5 {
      assert plain[..5][0] == plain[0] && plain[0] in plain;
      DropYamlKeeps(plain[1..]);
    }
  }

  lemma DropYamlAt(rest: string)
    ensures DropYaml(".yaml" + rest) == DropYaml(rest)
  {
    var name := ".yaml" + rest;
    assert name[..5] == ".yaml" && name[5..] == rest;
  }

  lemma DropYamlPast(first: char, more: string)
    requires first != '.'
    ensures DropYaml([first] + more) == [first] + DropYaml(more)
  {
    var name := [first] + more;
    assert name[1..] == more;
    if |name| >= 5 {
      assert name[..5][0] == first;
    }
  }

  /** Every `.yaml` in the name goes, wherever it stands. */
  lemma {:induction false} DropYamlEach(plain: string, rest: string)
    requires '.' !in plain
    ensures DropYaml(plain + (".yaml" + rest)) == plain + DropYaml(rest)
  {
    if plain == "" {
      assert plain + (".yaml" + rest) == ".yaml" + rest;
      DropYamlAt(rest);
    } else {
      var more := plain[1..] + (".yaml" + rest);
      DropYamlEach(plain[1..], rest);
      assert plain + (".yaml" + rest) == [plain[0]] + more;
      DropYamlPast(plain[0], more);
    }
  }

  /** Empty and `.` components make no difference to a path's parts. */
  lemma NoiseIsDropped(a: string, noise: string, b: string)
    requires noise == "" || noise == "."
    ensures Names(Segments(a + "/" + (noise + "/" + b))) == Names(Segments(a + "/" + b))
  {
    OneSegment(noise);
    SegmentsConcat(a, b);
    SegmentsConcat(noise, b);
    SegmentsConcat(a, noise + "/" + b);
    NamesConcat(Segments(a), Segments(b));
    NamesConcat([noise], Segments(b));
    NamesConcat(Segments(a), [noise] + Segments(b));
  }

  predicate Component(c: string) {
    c != "" && c != "." && '/' !in c && Plain(c)
  }

  lemma ComponentParts(a: string, rest: string)
    requires Component(a)
    ensures Names(Segments(a + "/" + rest)) == [a] + Names(Segments(rest))
  {
    OneSegment(a);
    SegmentsConcat(a, rest);
    NamesConcat([a], Segments(rest));
    assert Names([a]) == [a] + Names([]);
  }

  lemma LastPart(d: string)
    requires Component(d)
    ensures Names(Segments(d)) == [d]
  {
    OneSegment(d);
    assert Names([d]) == [d] + Names([]);
  }

  lemma ThreeParts(b: string, c: string, d: string)
    requires Component(b) && Component(c) && Component(d)
    ensures Names(Segments(b + "/" + (c + "/" + d))) == [b, c, d]
  {
    LastPart(d);
    ComponentParts(c, d);
    ComponentParts(b, c + "/" + d);
  }

  lemma RelativeUri(valid: string -> bool, path: string)
    requires Plain(path) && path != "" && path[0] != '/'
    ensures ParseUri(valid, "file:" + path) ==
      var parts := Names(Segments(path));
      if |parts| < 4 then None else Some((parts[|parts| - 4], DropYaml(parts[|parts| - 1])))
  {
    assert ("file:" + path)[..5] == "file:" && ("file:" + path)[5..] == path;
    PlainPath(path);
    assert UrlPath(path) == path;
    assert [] + Names(Segments(path)) == Names(Segments(path));
  }

  lemma PlainComponents(a: string, rest: string)
    requires Component(a) && Plain(rest)
    ensures Plain(a + "/" + rest) && a + "/" + rest != "" && (a + "/" + rest)[0] != '/'
  {
    PlainConcat("/", rest);
    PlainConcat(a, "/" + rest);
    assert a + "/" + rest == a + ("/" + rest);
    assert a[0] in a;
  }

  lemma ThreeRefused(valid: string -> bool, b: string, c: string, d: string)
    requires Component(b) && Component(c) && Component(d)
    ensures ParseUri(valid, "file:" + (b + "/" + (c + "/" + d))) == None
  {
    PlainComponents(c, d);
    PlainComponents(b, c + "/" + d);
    ThreeParts(b, c, d);
    RelativeUri(valid, b + "/" + (c + "/" + d));
  }

  lemma FourTaken(valid: string -> bool, a: string, path: string, b: string, c: string, d: string)
    requires Component(a) && Plain(path) && Names(Segments(path)) == [b, c, d]
    ensures ParseUri(valid, "file:" + (a + "/" + path)) == Some((a, DropYaml(d)))
  {
    PlainComponents(a, path);
    ComponentParts(a, path);
    RelativeUri(valid, a + "/" + path);
  }

  /** Which components of a URI are taken: the fourth from the end and the last; with three there is nothing to take. */
  lemma FourOrNothing(valid: string -> bool, a: string, b: string, c: string, d: string)
    requires Component(a) && Component(b) && Component(c) && Component(d)
    ensures ParseUri(valid, "file:" + (a + "/" + (b + "/" + (c + "/" + d)))) == Some((a, DropYaml(d)))
    ensures ParseUri(valid, "file:" + (b + "/" + (c + "/" + d))) == None
  {
    ThreeRefused(valid, b, c, d);
    ThreeParts(b, c, d);
    PlainComponents(c, d);
    PlainComponents(b, c + "/" + d);
    FourTaken(valid, a, b + "/" + (c + "/" + d), b, c, d);
  }
}
