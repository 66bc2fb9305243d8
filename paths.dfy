/**
 * File-name suffixes as Python computes them: `pathlib.PurePath.suffix`, which
 * looks at the final component only, and `os.path.splitext`, which splits the
 * whole path at the last dot of its final component.
 */
module Paths {
  import opened Strings

  /** `str.rfind` for one character: the last index holding `c`, or -1. */
  function LastIndex(s: string, c: char): (r: int)
    ensures -1 <= r < |s|
    ensures r >= 0 ==> s[r] == c
    ensures forall k :: r < k < |s| ==> s[k] != c
  {
    if s == [] then -1
    else if s[|s| - 1] == c then |s| - 1
    else LastIndex(s[..|s| - 1], c)
  }

  lemma {:induction false} LastIndexAppend(s: string, c: char, t: string)
    requires c !in t
    ensures LastIndex(s + [c] + t, c) == |s|
    decreases |t|
  {
    var p := s + [c] + t;
    if t == [] {
      assert p[|p| - 1] == c;
    } else {
      assert p[|p| - 1] == t[|t| - 1];
      assert p[..|p| - 1] == s + [c] + t[..|t| - 1];
      LastIndexAppend(s, c, t[..|t| - 1]);
    }
  }

  lemma LastIndexAbsent(s: string, c: char)
    requires c !in s
    ensures LastIndex(s, c) == -1
  {
  }

  /** `PurePath(name).suffix` of a final component: from its last dot, unless that dot leads or ends it. */
  function NameSuffix(name: string): (r: string)
    ensures r == "" || (|r| >= 2 && r[0] == '.' && '.' !in r[1..] && EndsWith(name, r) && |r| < |name|)
  {
    var i := LastIndex(name, '.');
    if 0 < i < |name| - 1 then
      assert forall k :: 1 <= k < |name[i..]| ==> name[i..][k] == name[i + k];
      name[i..]
    else ""
  }

  /** `PurePath(path).suffix`. */
  function Suffix(path: string): (r: string)
    ensures r == "" || (|r| >= 2 && r[0] == '.' && '.' !in r[1..] && '/' !in r && EndsWith(path, r))
  {
    var name := Basename(path);
    var r := NameSuffix(name);
    assert r != "" ==> path[|path| - |r|..] == name[|name| - |r|..];
    r
  }

  /** A file name `stem.ext` with a non-empty stem has suffix `.ext`, with or without a directory in front. */
  lemma SuffixOfName(stem: string, ext: string)
    requires stem != [] && '/' !in stem
    requires ext != [] && '.' !in ext && '/' !in ext
    ensures Suffix(stem + "." + ext) == "." + ext
    ensures forall dir :: Suffix(dir + "/" + stem + "." + ext) == "." + ext
  {
    var name := stem + "." + ext;
    assert '/' !in name by {
      assert forall k :: 0 <= k < |name| ==> name[k] == (if k < |stem| then stem[k] else if k == |stem| then '.' else ext[k - |stem| - 1]);
    }
    BasenameNoSlash(name);
    LastIndexAppend(stem, '.', ext);
    assert name[|stem|..] == "." + ext;
    forall dir
      ensures Suffix(dir + "/" + stem + "." + ext) == "." + ext
    {
      assert dir + "/" + stem + "." + ext == dir + "/" + name;
      BasenameAfterSlash(dir, name);
    }
  }

  /** Some character other than a dot at a position in `[lo, hi)`. */
  predicate HasNonDot(s: string, lo: int, hi: int)
  {
    exists k :: 0 <= lo <= k < hi <= |s| && s[k] != '.'
  }

  /** The final path component of `p` is not made of dots alone. */
  predicate Named(p: string)
  {
    HasNonDot(p, LastIndex(p, '/') + 1, |p|)
  }

  /** `os.path.splitext(p)`: root and extension. */
  function Splitext(p: string): (r: (string, string))
    ensures r.0 + r.1 == p
    ensures r.1 == "" || (r.1[0] == '.' && '.' !in r.1[1..] && '/' !in r.1)
  {
    var sep := LastIndex(p, '/');
    var dot := LastIndex(p, '.');
    if dot > sep && HasNonDot(p, sep + 1, dot) then
      assert forall k :: 0 <= k < |p[dot..]| ==> p[dot..][k] == p[dot + k];
      (p[..dot], p[dot..])
    else (p, "")
  }

  /** A non-empty extension means the final component holds a character other than a dot. */
  lemma ExtensionNamed(p: string)
    requires Splitext(p).1 != ""
    ensures Named(p)
  {
    var sep := LastIndex(p, '/');
    var dot := LastIndex(p, '.');
    var k :| 0 <= sep + 1 <= k < dot <= |p| && p[k] != '.';
  }

  /** Appending `.w` to a named path makes `.w` its extension and the path its root. */
  lemma SplitextAppend(p: string, w: string)
    requires Named(p)
    requires '.' !in w && '/' !in w
    ensures Splitext(p + "." + w) == (p, "." + w)
  {
    var q := p + "." + w;
    assert q == p + ['.'] + w;
    LastIndexAppend(p, '.', w);
    var sp := LastIndex(p, '/');
    var sq := LastIndex(q, '/');
    assert sq == sp by {
      assert forall k :: |p| <= k < |q| ==> q[k] != '/' by {
        assert forall k :: |p| < k < |q| ==> q[k] == w[k - |p| - 1];
      }
      if sp >= 0 {
        assert q[sp] == '/';
      }
      if sq >= 0 && sq < |p| {
        assert p[sq] == '/';
      }
    }
    var k :| 0 <= sp + 1 <= k < |p| && p[k] != '.';
    assert q[k] == p[k];
    assert HasNonDot(q, sq + 1, |p|);
    assert q[..|p|] == p;
    assert q[|p|..] == "." + w;
  }
}
