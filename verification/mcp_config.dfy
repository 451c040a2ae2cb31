/** How the MCP server names the memory owner it acts for: a fixed default id in
    "global" and "manual" mode, otherwise an id derived from the project
    directory. The environment, the working directory, path resolution and
    SHA-256 are parameters: an absent working directory or a failed resolution
    stands for the exception they raise. */
module McpConfig {
  import opened Common

  const GLOBAL_MODE := "global"
  const MANUAL_MODE := "manual"
  const ID_PREFIX := "project_"
  const HEX_DIGITS := "0123456789abcdef"

  /** Eight hex characters of the digest end every derived id. */
  const HASH_CHARS := 8

  predicate IsHexDigit(c: char) {
    '0' <= c <= '9' || 'a' <= c <= 'f'
  }

  /** The lower-case hex character of a nibble. */
  function HexChar(d: int): (c: char)
    requires 0 <= d < 16
    ensures IsHexDigit(c)
    ensures c == HEX_DIGITS[d]
  {
    if d < 10 then ('0' as int + d) as char else ('a' as int + d - 10) as char
  }

  /** The two lower-case hex characters of one byte, high nibble first. */
  function HexByte(b: bv8): (r: string)
    ensures |r| == 2 && IsHexDigit(r[0]) && IsHexDigit(r[1])
  {
    var v := b as int;
    assert v < 256;
    [HexChar(v / 16), HexChar(v % 16)]
  }

  /** `hashlib.sha256(...).hexdigest()` rendering of a digest. */
  function HexDigest(bytes: seq<bv8>): (r: string)
    ensures |r| == 2 * |bytes|
  {
    if bytes == [] then [] else HexByte(bytes[0]) + HexDigest(bytes[1..])
  }

  lemma {:induction false} HexDigestIsHex(bytes: seq<bv8>)
    ensures forall k :: 0 <= k < |HexDigest(bytes)| ==> IsHexDigit(HexDigest(bytes)[k])
  {
    if bytes != [] {
      HexDigestIsHex(bytes[1..]);
      var h := HexByte(bytes[0]);
      var t := HexDigest(bytes[1..]);
      assert HexDigest(bytes) == h + t;
      forall k | 0 <= k < |h + t| ensures IsHexDigit((h + t)[k]) {
        if k >= 2 {
          assert (h + t)[k] == t[k - 2];
        }
      }
    }
  }

  lemma {:induction false} HexDigestAppend(a: seq<bv8>, b: seq<bv8>)
    ensures HexDigest(a + b) == HexDigest(a) + HexDigest(b)
  {
    if a != [] {
      assert (a + b)[0] == a[0];
      assert (a + b)[1..] == a[1..] + b;
      HexDigestAppend(a[1..], b);
      calc {
        HexDigest(a + b);
        HexByte(a[0]) + HexDigest(a[1..] + b);
        HexByte(a[0]) + (HexDigest(a[1..]) + HexDigest(b));
        (HexByte(a[0]) + HexDigest(a[1..])) + HexDigest(b);
      }
    } else {
      assert a + b == b;
    }
  }

  /** The eight characters kept from the hex digest are exactly the rendering of
      the digest's first four bytes. */
  lemma HexDigestPrefix(bytes: seq<bv8>)
    requires |bytes| >= 4
    ensures HexDigest(bytes)[..HASH_CHARS] == HexDigest(bytes[..4])
  {
    HexDigestAppend(bytes[..4], bytes[4..]);
    assert bytes == bytes[..4] + bytes[4..];
  }

  /** `Path(p).name` of a resolved path: what follows the last '/'. */
  function Basename(p: string): (r: string)
    ensures |r| <= |p| && r == p[|p| - |r|..]
    ensures forall k :: 0 <= k < |r| ==> r[k] != '/'
    ensures |r| < |p| ==> p[|p| - |r| - 1] == '/'
  {
    if p == [] || p[|p| - 1] == '/' then [] else Basename(p[..|p| - 1]) + [p[|p| - 1]]
  }

  /** `s[:n]` for a non-negative `n`. */
  function Take(s: string, n: nat): (r: string)
    ensures |r| == if n < |s| then n else |s|
    ensures r == s[..|r|]
  {
    if n < |s| then s[..n] else s
  }

  /** The id derived from the resolved project path and the SHA-256 digest of its
      text. */
  function AutoId(path: string, digest: seq<bv8>): (r: string)
    ensures |r| >= |ID_PREFIX| + 1 && r[..|ID_PREFIX|] == ID_PREFIX
  {
    var rest := Basename(path) + "_" + Take(HexDigest(digest), HASH_CHARS);
    assert (ID_PREFIX + rest)[..|ID_PREFIX|] == ID_PREFIX;
    ID_PREFIX + rest
  }

  /** With at least four digest bytes, the id is the prefix, the directory name, an
      underscore and the hex of those four bytes. */
  lemma AutoIdShape(path: string, digest: seq<bv8>)
    requires |digest| >= 4
    ensures AutoId(path, digest) == ID_PREFIX + (Basename(path) + "_" + HexDigest(digest[..4]))
  {
    assert Take(HexDigest(digest), HASH_CHARS) == HexDigest(digest[..4]) by {
      HexDigestPrefix(digest);
    }
  }

  /** Where the pieces of `prefix + name + "_" + hash` sit. */
  lemma JoinParts(prefix: string, name: string, hash: string)
    ensures var r := prefix + (name + "_" + hash);
      |r| == |prefix| + |name| + 1 + |hash|
      && r[..|prefix|] == prefix
      && r[|r| - |hash| - 1] == '_'
      && r[|prefix|..|r| - |hash| - 1] == name
      && r[|r| - |hash|..] == hash
  {
    var r := prefix + (name + "_" + hash);
    assert r[|prefix|..] == name + "_" + hash;
    assert (name + "_" + hash)[|name|] == '_';
    assert (name + "_" + hash)[..|name|] == name;
    assert (name + "_" + hash)[|name| + 1..] == hash;
  }

  /** Splits a derived id back into the directory name and the hash. */
  function ParseAutoId(id: string): (r: Option<(string, string)>)
    ensures r.Some? ==> ID_PREFIX + r.value.0 + "_" + r.value.1 == id && |r.value.1| == HASH_CHARS
  {
    if |id| >= |ID_PREFIX| + 1 + HASH_CHARS && id[..|ID_PREFIX|] == ID_PREFIX
       && id[|id| - HASH_CHARS - 1] == '_'
    then
      var name := id[|ID_PREFIX|..|id| - HASH_CHARS - 1];
      var hash := id[|id| - HASH_CHARS..];
      assert ID_PREFIX + name + "_" + hash == id[..|ID_PREFIX|] + name + [id[|id| - HASH_CHARS - 1]] + hash;
      Some((name, hash))
    else None
  }

  /** A derived id gives back the directory name and the first four digest bytes
      in hex, even when the directory name itself holds underscores. */
  lemma AutoIdParses(path: string, digest: seq<bv8>)
    requires |digest| >= 4
    ensures ParseAutoId(AutoId(path, digest)) == Some((Basename(path), HexDigest(digest[..4])))
  {
    AutoIdShape(path, digest);
    JoinParts(ID_PREFIX, Basename(path), HexDigest(digest[..4]));
  }

  /** `get_project_id()`. `projectDir` is `PROJECT_DIR`; `cwd` is `os.getcwd()`,
      which is evaluated as the default argument even when `PROJECT_DIR` is set,
      so its failure falls back to the default id in every case; `resolve` is
      `Path(...).resolve()`; `sha256` is the digest of the path's text. */
  function ProjectId(mode: string, defaultUserId: string, projectDir: Option<string>,
                     cwd: Option<string>, resolve: string -> Option<string>,
                     sha256: string -> seq<bv8>): (r: string)
    ensures mode == GLOBAL_MODE || mode == MANUAL_MODE ==> r == defaultUserId
    ensures cwd.None? ==> r == defaultUserId
    ensures mode != GLOBAL_MODE && mode != MANUAL_MODE && cwd.Some? ==>
      match resolve(if projectDir.Some? then projectDir.value else cwd.value)
      case None => r == defaultUserId
      case Some(path) => r == AutoId(path, sha256(path))
  {
    if mode == GLOBAL_MODE then defaultUserId
    else if mode == MANUAL_MODE then defaultUserId
    else match cwd
      case None => defaultUserId
      case Some(wd) =>
        match resolve(projectDir.GetOr(wd))
        case None => defaultUserId
        case Some(path) => AutoId(path, sha256(path))
  }

  /** Once `PROJECT_DIR` is set, which directory the server runs in no longer
      matters, as long as it exists. */
  lemma ProjectDirWins(mode: string, defaultUserId: string, dir: string, cwd1: string, cwd2: string,
                       resolve: string -> Option<string>, sha256: string -> seq<bv8>)
    ensures ProjectId(mode, defaultUserId, Some(dir), Some(cwd1), resolve, sha256)
         == ProjectId(mode, defaultUserId, Some(dir), Some(cwd2), resolve, sha256)
  {
  }

  /** In auto mode with a 32-byte SHA-256 digest, the id is either the default id
      (after a failure) or `project_<name>_<8 hex characters>`. */
  lemma AutoModeShape(mode: string, defaultUserId: string, projectDir: Option<string>,
                      cwd: Option<string>, resolve: string -> Option<string>,
                      sha256: string -> seq<bv8>)
    requires mode != GLOBAL_MODE && mode != MANUAL_MODE
    requires forall p :: |sha256(p)| == 32
    ensures var r := ProjectId(mode, defaultUserId, projectDir, cwd, resolve, sha256);
      r == defaultUserId
      || (ParseAutoId(r).Some? && forall k :: 0 <= k < HASH_CHARS ==> IsHexDigit(ParseAutoId(r).value.1[k]))
  {
    var r := ProjectId(mode, defaultUserId, projectDir, cwd, resolve, sha256);
    if cwd.Some? {
      var resolved := resolve(projectDir.GetOr(cwd.value));
      if resolved.Some? {
        var path := resolved.value;
        var d := sha256(path);
        AutoIdParses(path, d);
        HexDigestIsHex(d[..4]);
      }
    }
  }
}
