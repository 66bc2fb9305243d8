/**
 * Python `str` operations on `seq<char>`, limited to ASCII where case or
 * white space matter: `lower`, `title`, `strip`, `startswith`, `in`,
 * `find`, `replace`, `split`, `join`, code-point ordering and `sorted`.
 */
module Strings {
  import opened Seqs
  import opened Wrappers

  predicate IsUpper(c: char) { 'A' <= c <= 'Z' }
  predicate IsLower(c: char) { 'a' <= c <= 'z' }
  /** ASCII letters are the only cased characters of the model. */
  predicate IsCased(c: char) { IsUpper(c) || IsLower(c) }

  function ToLower(c: char): char
  {
    if IsUpper(c) then (c as int + 32) as char else c
  }

  function ToUpper(c: char): char
  {
    if IsLower(c) then (c as int - 32) as char else c
  }

  /** `str.lower()`. */
  function Lower(s: string): (r: string)
    ensures |r| == |s|
    ensures forall i :: 0 <= i < |s| ==> r[i] == ToLower(s[i])
  {
    if s == [] then [] else [ToLower(s[0])] + Lower(s[1..])
  }

  lemma {:induction false} LowerIdempotent(s: string)
    ensures Lower(Lower(s)) == Lower(s)
  {
    var l := Lower(s);
    assert forall i :: 0 <= i < |l| ==> Lower(l)[i] == l[i];
  }

  /**
   * `str.title()`: a cased character is upper-cased when the character
   * before it is not cased, lower-cased otherwise.
   */
  function TitleFrom(s: string, prevCased: bool): (r: string)
    ensures |r| == |s|
  {
    if s == [] then []
    else
      var c := if prevCased then ToLower(s[0]) else ToUpper(s[0]);
      [c] + TitleFrom(s[1..], IsCased(s[0]))
  }

  function Title(s: string): (r: string)
    ensures |r| == |s|
  {
    TitleFrom(s, false)
  }

  lemma {:induction false} TitleAt(s: string, prevCased: bool, i: nat)
    requires i < |s|
    ensures TitleFrom(s, prevCased)[i] ==
      if (if i == 0 then prevCased else IsCased(s[i - 1])) then ToLower(s[i]) else ToUpper(s[i])
  {
    if i > 0 {
      TitleAt(s[1..], IsCased(s[0]), i - 1);
      assert s[1..][i - 1] == s[i];
      if i > 1 { assert s[1..][i - 2] == s[i - 1]; }
    }
  }

  lemma {:induction false} TitleIdempotent(s: string)
    ensures Title(Title(s)) == Title(s)
  {
    var t := Title(s);
    forall i | 0 <= i < |s| ensures Title(t)[i] == t[i] {
      TitleAt(s, false, i);
      TitleAt(t, false, i);
      if i > 0 {
        TitleAt(s, false, i - 1);
        assert IsCased(t[i - 1]) == IsCased(s[i - 1]);
      }
    }
  }

  /** The ASCII white space that `str.split()`/`str.strip()` recognise. */
  predicate IsSpace(c: char)
  {
    c == ' ' || ('\t' <= c <= '\r') || ('\U{1C}' <= c <= '\U{1F}')
  }

  function LStrip(s: string, cs: set<char>): (r: string)
    ensures |r| <= |s| && r == s[|s| - |r|..]
    ensures r == [] || r[0] !in cs
  {
    if s != [] && s[0] in cs then LStrip(s[1..], cs) else s
  }

  function RStrip(s: string, cs: set<char>): (r: string)
    ensures |r| <= |s| && r == s[..|r|]
    ensures r == [] || r[|r| - 1] !in cs
  {
    if s != [] && s[|s| - 1] in cs then RStrip(s[..|s| - 1], cs) else s
  }

  /** `str.strip(chars)`: removes every leading and trailing member of `cs`. */
  function StripChars(s: string, cs: set<char>): (r: string)
    ensures r == [] || (r[0] !in cs && r[|r| - 1] !in cs)
  {
    var l := LStrip(s, cs);
    var r := RStrip(l, cs);
    assert r != [] ==> r[0] == l[0];
    r
  }

  lemma StripCharsIdempotent(s: string, cs: set<char>)
    ensures StripChars(StripChars(s, cs), cs) == StripChars(s, cs)
  {
  }

  const Whitespace: set<char> := {' ', '\t', '\n', '\U{0B}', '\U{0C}', '\r', '\U{1C}', '\U{1D}', '\U{1E}', '\U{1F}'}

  lemma WhitespaceIsSpace(c: char)
    ensures c in Whitespace <==> IsSpace(c)
  {
  }

  /** `str.strip()`. */
  function Strip(s: string): (r: string)
    ensures r == [] || (!IsSpace(r[0]) && !IsSpace(r[|r| - 1]))
  {
    StripChars(s, Whitespace)
  }

  predicate StartsWith(s: string, prefix: string)
  {
    |prefix| <= |s| && s[..|prefix|] == prefix
  }

  predicate EndsWith(s: string, suffix: string)
  {
    |suffix| <= |s| && s[|s| - |suffix|..] == suffix
  }

  predicate OccursAt(s: string, sub: string, i: nat)
  {
    i + |sub| <= |s| && s[i..i + |sub|] == sub
  }

  /** `str.find`: the first position where `sub` occurs. */
  function Find(s: string, sub: string): (r: Option<nat>)
    ensures r.Some? ==> OccursAt(s, sub, r.value)
    decreases |s|
  {
    if OccursAt(s, sub, 0) then Some(0)
    else if s == [] then None
    else
      match Find(s[1..], sub)
      case None => None
      case Some(k) => OccursAtTail(s, sub, k); Some(k + 1)
  }

  lemma OccursAtTail(s: string, sub: string, j: nat)
    requires s != []
    ensures OccursAt(s, sub, j + 1) <==> OccursAt(s[1..], sub, j)
  {
    if j + 1 + |sub| <= |s| {
      assert s[j + 1..j + 1 + |sub|] == s[1..][j..j + |sub|];
    }
  }

  lemma {:induction false} FindFirst(s: string, sub: string)
    ensures Find(s, sub).Some? ==>
      OccursAt(s, sub, Find(s, sub).value) &&
      forall j :: 0 <= j < Find(s, sub).value ==> !OccursAt(s, sub, j)
    ensures Find(s, sub).None? ==> forall j :: 0 <= j <= |s| ==> !OccursAt(s, sub, j)
    decreases |s|
  {
    if !OccursAt(s, sub, 0) && s != [] {
      FindFirst(s[1..], sub);
      forall j | 0 <= j < |s| { OccursAtTail(s, sub, j); }
      forall j | 1 <= j <= |s| ensures OccursAt(s, sub, j) ==> OccursAt(s[1..], sub, j - 1) {
        OccursAtTail(s, sub, j - 1);
      }
    }
  }

  /** `sub in s`. */
  predicate Contains(s: string, sub: string)
  {
    Find(s, sub).Some?
  }

  /** `str.replace(old, new)` with an empty `old`: `new` goes around every character. */
  function ReplaceEmpty(s: string, repl: string): (r: string)
    ensures |r| == |s| + (|s| + 1) * |repl|
  {
    if s == [] then repl else repl + [s[0]] + ReplaceEmpty(s[1..], repl)
  }

  /** `str.replace(old, new)`: every non-overlapping occurrence, left to right. */
  function Replace(s: string, pat: string, repl: string): (r: string)
    decreases |s|
  {
    if pat == [] then ReplaceEmpty(s, repl)
    else
      match Find(s, pat)
      case None => s
      case Some(i) => s[..i] + repl + Replace(s[i + |pat|..], pat, repl)
  }

  /** `str.split(sep)` for a non-empty separator. */
  function Split(s: string, sep: string): (r: seq<string>)
    requires sep != []
    ensures |r| >= 1
    decreases |s|
  {
    match Find(s, sep)
    case None => [s]
    case Some(i) => [s[..i]] + Split(s[i + |sep|..], sep)
  }

  lemma SplitWithout(s: string, sep: string)
    requires sep != [] && !Contains(s, sep)
    ensures Split(s, sep) == [s]
  {
  }

  lemma ReplaceWithout(s: string, pat: string, repl: string)
    requires pat != [] && !Contains(s, pat)
    ensures Replace(s, pat, repl) == s
  {
  }

  /** `sep.join(parts)`. */
  function Join(parts: seq<string>, sep: string): string
  {
    if parts == [] then []
    else if |parts| == 1 then parts[0]
    else parts[0] + sep + Join(parts[1..], sep)
  }

  lemma {:induction false} JoinSplit(s: string, sep: string)
    requires sep != []
    ensures Join(Split(s, sep), sep) == s
    decreases |s|
  {
    var f := Find(s, sep);
    if f.Some? {
      var i := f.value;
      var rest := s[i + |sep|..];
      var tail := Split(rest, sep);
      assert Split(s, sep) == [s[..i]] + tail;
      JoinSplit(rest, sep);
      JoinCons(s[..i], tail, sep);
      AroundOccurrence(s, sep, i);
    }
  }

  lemma JoinCons(head: string, tail: seq<string>, sep: string)
    requires |tail| >= 1
    ensures Join([head] + tail, sep) == head + sep + Join(tail, sep)
  {
    assert ([head] + tail)[1..] == tail;
  }

  /** Joining one more part appends the separator and that part. */
  lemma {:induction false} JoinSnoc(parts: seq<string>, last: string, sep: string)
    requires parts != []
    ensures Join(parts + [last], sep) == Join(parts, sep) + sep + last
    decreases |parts|
  {
    if |parts| == 1 {
      assert (parts + [last])[1..] == [last];
    } else {
      assert (parts + [last])[1..] == parts[1..] + [last];
      JoinSnoc(parts[1..], last, sep);
    }
  }

  /** A string is what comes before an occurrence, the occurrence, and what follows. */
  lemma AroundOccurrence(s: string, sub: string, i: nat)
    requires OccursAt(s, sub, i)
    ensures s == s[..i] + sub + s[i + |sub|..]
  {
    assert s == s[..i] + s[i..i + |sub|] + s[i + |sub|..];
  }

  lemma {:induction false} FindSingleAfter(a: string, c: char, b: string)
    requires c !in a
    ensures Find(a + [c] + b, [c]) == Some(|a|)
  {
    var s := a + [c] + b;
    FindFirst(s, [c]);
    assert OccursAt(s, [c], |a|);
    forall j | 0 <= j < |a| ensures !OccursAt(s, [c], j) {
      assert s[j..j + 1][0] == a[j];
    }
  }

  lemma {:induction false} SplitSingleAppend(a: string, c: char, b: string)
    requires c !in a
    ensures Split(a + [c] + b, [c]) == [a] + Split(b, [c])
  {
    FindSingleAfter(a, c, b);
    var s := a + [c] + b;
    assert s[..|a|] == a;
    assert s[|a| + 1..] == b;
  }

  lemma {:induction false} NotContainsSingle(s: string, c: char)
    ensures Contains(s, [c]) ==> c in s
  {
    var f := Find(s, [c]);
    if f.Some? {
      assert s[f.value] == s[f.value..f.value + 1][0];
    }
  }

  /** Splitting on `c` undoes joining with `c` when no part contains `c`. */
  lemma {:induction false} SplitJoin(parts: seq<string>, c: char)
    requires |parts| >= 1
    requires forall k :: 0 <= k < |parts| ==> c !in parts[k]
    ensures Split(Join(parts, [c]), [c]) == parts
  {
    NotContainsSingle(parts[0], c);
    if |parts| == 1 {
      SplitWithout(parts[0], [c]);
    } else {
      SplitJoin(parts[1..], c);
      assert Join(parts, [c]) == parts[0] + [c] + Join(parts[1..], [c]);
      SplitSingleAppend(parts[0], c, Join(parts[1..], [c]));
    }
  }

  lemma {:induction false} SplitConcatSingle(a: string, c: char, b: string)
    ensures Split(a + [c] + b, [c]) == Split(a, [c]) + Split(b, [c])
    decreases |a|
  {
    NotContainsSingle(a, c);
    if c !in a {
      SplitWithout(a, [c]);
      SplitSingleAppend(a, c, b);
    } else {
      var i := IndexOf(a, c);
      var a1, a2 := a[..i], a[i + 1..];
      assert a == a1 + [c] + a2;
      assert c !in a1;
      var tail := a2 + [c] + b;
      assert a + [c] + b == a1 + [c] + tail;
      SplitSingleAppend(a1, c, tail);
      SplitSingleAppend(a1, c, a2);
      SplitConcatSingle(a2, c, b);
      var sa2, sb := Split(a2, [c]), Split(b, [c]);
      assert Split(a + [c] + b, [c]) == [a1] + (sa2 + sb);
      assert Split(a, [c]) == [a1] + sa2;
      ConcatAssoc([a1], sa2, sb);
    }
  }

  lemma ConcatAssoc<T>(x: seq<T>, y: seq<T>, z: seq<T>)
    ensures x + (y + z) == (x + y) + z
  {
  }

  /** Code-point order of Python string comparison. */
  predicate Less(a: string, b: string)
    decreases |a|
  {
    if a == [] then b != []
    else if b == [] then false
    else if a[0] != b[0] then a[0] < b[0]
    else Less(a[1..], b[1..])
  }

  lemma {:induction false} LessIrreflexive(a: string)
    ensures !Less(a, a)
    decreases |a|
  {
    if a != [] { LessIrreflexive(a[1..]); }
  }

  lemma {:induction false} LessTotal(a: string, b: string)
    ensures a == b || Less(a, b) || Less(b, a)
    decreases |a|
  {
    if a != [] && b != [] && a[0] == b[0] {
      LessTotal(a[1..], b[1..]);
      if a[1..] == b[1..] { assert a == [a[0]] + a[1..] && b == [b[0]] + b[1..]; }
    }
  }

  lemma {:induction false} LessTransitive(a: string, b: string, c: string)
    requires Less(a, b) && Less(b, c)
    ensures Less(a, c)
    decreases |a|
  {
    if a != [] && b != [] && c != [] && a[0] == b[0] && b[0] == c[0] {
      LessTransitive(a[1..], b[1..], c[1..]);
    }
  }

  lemma {:induction false} LessAsymmetric(a: string, b: string)
    requires Less(a, b)
    ensures !Less(b, a)
    decreases |a|
  {
    if a != [] && b != [] && a[0] == b[0] {
      LessAsymmetric(a[1..], b[1..]);
    }
  }

  predicate LessEq(a: string, b: string) { a == b || Less(a, b) }

  predicate Sorted(s: seq<string>)
  {
    forall i, j :: 0 <= i < j < |s| ==> LessEq(s[i], s[j])
  }

  lemma ConsSorted(x: string, s: seq<string>)
    requires Sorted(s)
    requires s != [] ==> LessEq(x, s[0])
    ensures Sorted([x] + s)
  {
    var t := [x] + s;
    forall i, j | 0 <= i < j < |t| ensures LessEq(t[i], t[j]) {
      if i == 0 && j > 1 {
        assert t[j] == s[j - 1];
        if x != s[0] && s[0] != s[j - 1] { LessTransitive(x, s[0], s[j - 1]); }
      }
    }
  }

  function Insert(x: string, s: seq<string>): (r: seq<string>)
    requires Sorted(s)
    ensures Sorted(r)
    ensures multiset(r) == multiset(s) + multiset{x}
    ensures r != [] && (r[0] == x || (s != [] && r[0] == s[0]))
  {
    if s == [] then [x]
    else if LessEq(x, s[0]) then
      ConsSorted(x, s);
      [x] + s
    else
      var rest := Insert(x, s[1..]);
      LessTotal(x, s[0]);
      assert multiset(s) == multiset{s[0]} + multiset(s[1..]) by { assert s == [s[0]] + s[1..]; }
      assert LessEq(s[0], rest[0]) by {
        if rest[0] != x { assert rest[0] == s[1..][0]; }
      }
      ConsSorted(s[0], rest);
      [s[0]] + rest
  }

  /** `sorted(xs)` on strings. */
  function Sort(s: seq<string>): (r: seq<string>)
    ensures Sorted(r)
    ensures multiset(r) == multiset(s)
  {
    if s == [] then []
    else
      assert s == [s[0]] + s[1..];
      Insert(s[0], Sort(s[1..]))
  }

  lemma SortedNoDupStrict(s: seq<string>, i: nat, j: nat)
    requires Sorted(s) && NoDup(s) && i < j < |s|
    ensures Less(s[i], s[j])
  {
  }

  lemma SortedTail(s: seq<string>)
    requires Sorted(s) && s != []
    ensures Sorted(s[1..])
  {
    forall i, j | 0 <= i < j < |s[1..]| ensures LessEq(s[1..][i], s[1..][j]) {
      assert s[1..][i] == s[i + 1] && s[1..][j] == s[j + 1];
    }
  }

  lemma SortedHeads(a: seq<string>, b: seq<string>)
    requires Sorted(a) && Sorted(b) && multiset(a) == multiset(b) && a != []
    ensures b != [] && a[0] == b[0]
  {
    assert a[0] in multiset(b);
    assert b != [] && b[0] in multiset(a);
    var i :| 0 <= i < |b| && b[i] == a[0];
    var j :| 0 <= j < |a| && a[j] == b[0];
    assert LessEq(b[0], b[i]) && LessEq(a[0], a[j]);
    if a[0] != b[0] { LessAsymmetric(a[0], b[0]); }
  }

  /** Two sorted sequences with the same elements, counted with repetition, are equal. */
  lemma {:induction false} SortedPermutation(a: seq<string>, b: seq<string>)
    requires Sorted(a) && Sorted(b) && multiset(a) == multiset(b)
    ensures a == b
    decreases |a|
  {
    if a == [] {
      assert |b| == |multiset(b)| == 0;
    } else {
      SortedHeads(a, b);
      assert a == [a[0]] + a[1..] && b == [b[0]] + b[1..];
      assert multiset(a[1..]) == multiset(b[1..]) by {
        assert multiset(a) == multiset{a[0]} + multiset(a[1..]);
        assert multiset(b) == multiset{b[0]} + multiset(b[1..]);
        forall x ensures multiset(a[1..])[x] == multiset(b[1..])[x] {
          assert multiset(a)[x] == multiset(b)[x];
        }
      }
      SortedTail(a);
      SortedTail(b);
      SortedPermutation(a[1..], b[1..]);
    }
  }

  /** Sorting two strings does not depend on their order. */
  lemma SortPairSymmetric(a: string, b: string)
    ensures Sort([a, b]) == Sort([b, a])
  {
    assert multiset([a, b]) == multiset([b, a]);
    SortedPermutation(Sort([a, b]), Sort([b, a]));
  }

  /** `np.unique(xs)`: sorted, without repetition. */
  function Unique(s: seq<string>): (r: seq<string>)
    ensures Sorted(r) && NoDup(r)
    ensures forall x :: x in r <==> x in s
  {
    var d := Dedup(s);
    var u := Sort(d);
    assert forall x :: x in u <==> x in multiset(d);
    MultisetNoDup(d, u);
    u
  }

  function NatToString(n: nat): (r: string)
    ensures |r| >= 1
    ensures forall i :: 0 <= i < |r| ==> '0' <= r[i] <= '9'
    decreases n
  {
    var d := ['0' + (n % 10) as char];
    if n < 10 then d else NatToString(n / 10) + d
  }

  /** `os.path.basename`: what follows the last `/`. */
  function Basename(path: string): (r: string)
    ensures '/' !in r
    ensures EndsWith(path, r)
    decreases |path|
  {
    if path == [] then []
    else if path[|path| - 1] == '/' then []
    else
      var b := Basename(path[..|path| - 1]);
      assert EndsWith(path[..|path| - 1], b);
      assert path[|path| - 1 - |b|..] == path[..|path| - 1][|path| - 1 - |b|..] + [path[|path| - 1]];
      b + [path[|path| - 1]]
  }

  lemma {:induction false} BasenameNoSlash(s: string)
    requires '/' !in s
    ensures Basename(s) == s
  {
    if s != [] {
      BasenameNoSlash(s[..|s| - 1]);
      assert s == s[..|s| - 1] + [s[|s| - 1]];
    }
  }

  lemma {:induction false} BasenameAfterSlash(dir: string, name: string)
    requires '/' !in name
    ensures Basename(dir + "/" + name) == name
    decreases |name|
  {
    var p := dir + "/" + name;
    if name == [] {
    } else {
      assert p[..|p| - 1] == dir + "/" + name[..|name| - 1];
      BasenameAfterSlash(dir, name[..|name| - 1]);
      assert name == name[..|name| - 1] + [name[|name| - 1]];
    }
  }

  // ------------------------------------------------------------- int(text)

  predicate IsDigit(c: char) { '0' <= c <= '9' }

  predicate AllDigits(s: string)
  {
    forall i :: 0 <= i < |s| ==> IsDigit(s[i])
  }

  /** The number a run of decimal digits spells, most significant first. */
  function DigitsValue(s: string): nat
    requires AllDigits(s)
  {
    if s == [] then 0
    else 10 * DigitsValue(s[..|s| - 1]) + (s[|s| - 1] as int - '0' as int)
  }

  /** A numeral without its leading sign, if it has one. */
  function Unsigned(t: string): (r: string)
    ensures |r| <= |t| && r == t[|t| - |r|..]
  {
    if t != [] && (t[0] == '+' || t[0] == '-') then t[1..] else t
  }

  predicate IsNumeral(t: string)
  {
    var body := Unsigned(t);
    body != [] && AllDigits(body)
  }

  /** A numeral with nothing around it: an optional sign, then at least one digit. */
  function ParseNumeral(t: string): (r: Option<int>)
    ensures r.Some? <==> IsNumeral(t)
  {
    var body := Unsigned(t);
    if body == [] || !AllDigits(body) then None
    else
      var v := DigitsValue(body) as int;
      Some(if t[0] == '-' then -v else v)
  }

  /** Python's `int(text)` in base 10: surrounding whitespace is ignored. */
  function ParseInt(text: string): (r: Option<int>)
    ensures r.Some? <==> IsNumeral(Strip(text))
  {
    ParseNumeral(Strip(text))
  }

  /** `str(i)` for an integer. */
  function IntToString(i: int): string
  {
    if i < 0 then "-" + NatToString(-i) else NatToString(i)
  }

  lemma {:induction false} DigitsOfNat(n: nat)
    ensures DigitsValue(NatToString(n)) == n
    decreases n
  {
    var d := ['0' + (n % 10) as char];
    if n >= 10 {
      var s := NatToString(n / 10);
      DigitsOfNat(n / 10);
      assert NatToString(n) == s + d;
      assert (s + d)[..|s|] == s;
    }
  }

  /** A string with no whitespace at either end is its own strip. */
  lemma StripUnpadded(s: string)
    requires s == [] || (!IsSpace(s[0]) && !IsSpace(s[|s| - 1]))
    ensures Strip(s) == s
  {
    if s != [] {
      WhitespaceIsSpace(s[0]);
      WhitespaceIsSpace(s[|s| - 1]);
      assert LStrip(s, Whitespace) == s;
    }
  }

  lemma {:induction false} LStripPrefix(pre: string, s: string, cs: set<char>)
    requires forall i :: 0 <= i < |pre| ==> pre[i] in cs
    requires s == [] || s[0] !in cs
    ensures LStrip(pre + s, cs) == s
  {
    if pre == [] {
      assert pre + s == s;
    } else {
      assert (pre + s)[1..] == pre[1..] + s;
      LStripPrefix(pre[1..], s, cs);
    }
  }

  lemma {:induction false} RStripSuffix(s: string, post: string, cs: set<char>)
    requires forall i :: 0 <= i < |post| ==> post[i] in cs
    requires s == [] || s[|s| - 1] !in cs
    ensures RStrip(s + post, cs) == s
    decreases |post|
  {
    if post == [] {
      assert s + post == s;
    } else {
      var p := post[..|post| - 1];
      assert (s + post)[..|s + post| - 1] == s + p;
      RStripSuffix(s, p, cs);
    }
  }

  /** Whitespace around a string that does not start or end with whitespace is what `strip` removes. */
  lemma StripPadded(pre: string, t: string, post: string)
    requires forall k :: 0 <= k < |pre| ==> pre[k] in Whitespace
    requires forall k :: 0 <= k < |post| ==> post[k] in Whitespace
    requires t != [] && t[0] !in Whitespace && t[|t| - 1] !in Whitespace
    ensures Strip(pre + t + post) == t
  {
    var u := t + post;
    assert pre + t + post == pre + u;
    assert u[0] == t[0];
    LStripPrefix(pre, u, Whitespace);
    RStripSuffix(t, post, Whitespace);
  }

  lemma ParseDigits(t: string)
    requires t != [] && AllDigits(t)
    ensures ParseNumeral(t) == Some(DigitsValue(t) as int)
  {
    assert IsDigit(t[0]);
  }

  lemma ParseNegativeDigits(t: string)
    requires t != [] && AllDigits(t)
    ensures ParseNumeral("-" + t) == Some(-(DigitsValue(t) as int))
  {
    assert ("-" + t)[1..] == t;
  }

  lemma NumeralOfNat(n: nat)
    ensures ParseNumeral(NatToString(n)) == Some(n as int)
  {
    ParseDigits(NatToString(n));
    DigitsOfNat(n);
  }

  lemma NumeralOfNegative(n: nat)
    ensures ParseNumeral("-" + NatToString(n)) == Some(-(n as int))
  {
    ParseNegativeDigits(NatToString(n));
    DigitsOfNat(n);
  }

  lemma NumeralRoundTrip(i: int)
    ensures ParseNumeral(IntToString(i)) == Some(i)
  {
    if i < 0 {
      NumeralOfNegative(-i);
    } else {
      NumeralOfNat(i);
    }
  }

  lemma IntToStringEnds(i: int)
    ensures var t := IntToString(i);
      t != [] && (t[0] == '-' || IsDigit(t[0])) && IsDigit(t[|t| - 1])
  {
    if i < 0 {
      var d := NatToString(-i);
      assert ("-" + d)[|d|] == d[|d| - 1];
    }
  }

  lemma ParseIntPadded(pre: string, t: string, post: string)
    requires forall k :: 0 <= k < |pre| ==> pre[k] in Whitespace
    requires forall k :: 0 <= k < |post| ==> post[k] in Whitespace
    requires t != [] && t[0] !in Whitespace && t[|t| - 1] !in Whitespace
    ensures ParseInt(pre + t + post) == ParseNumeral(t)
  {
    StripPadded(pre, t, post);
  }

  /** `int(str(i)) == i`, also with whitespace around the numeral. */
  lemma ParseIntRoundTrip(i: int, pre: string, post: string)
    requires forall k :: 0 <= k < |pre| ==> pre[k] in Whitespace
    requires forall k :: 0 <= k < |post| ==> post[k] in Whitespace
    ensures ParseInt(pre + IntToString(i) + post) == Some(i)
  {
    IntToStringEnds(i);
    ParseIntPadded(pre, IntToString(i), post);
    NumeralRoundTrip(i);
  }

  /** Text without any digit is never an integer. */
  lemma ParseIntNeedsDigit(text: string)
    requires forall k :: 0 <= k < |text| ==> !IsDigit(text[k])
    ensures ParseInt(text) == None
  {
    var t := Strip(text);
    assert forall k :: 0 <= k < |t| ==> t[k] in text;
  }

  // ------------------------------------------------------ find, split, replace

  /** A pattern that occurs nowhere is not found. */
  lemma FindNone(s: string, pat: string)
    requires forall j :: 0 <= j && j + |pat| <= |s| ==> !OccursAt(s, pat, j)
    ensures Find(s, pat) == None
  {
  }

  /** A pattern whose first character is absent is not found. */
  lemma AbsentHead(s: string, pat: string)
    requires pat != [] && pat[0] !in s
    ensures Find(s, pat) == None
  {
    forall j | 0 <= j && j + |pat| <= |s| ensures !OccursAt(s, pat, j) {
      assert s[j..j + |pat|][0] == s[j];
    }
    FindNone(s, pat);
  }

  /** `str.replace` splits on the pattern and joins with the replacement. */
  lemma {:induction false} ReplaceIsJoinSplit(s: string, pat: string, repl: string)
    requires pat != []
    ensures Replace(s, pat, repl) == Join(Split(s, pat), repl)
    decreases |s|
  {
    var f := Find(s, pat);
    if f.Some? {
      var i := f.value;
      var rest := s[i + |pat|..];
      assert Replace(s, pat, repl) == s[..i] + repl + Replace(rest, pat, repl);
      assert Split(s, pat) == [s[..i]] + Split(rest, pat);
      ReplaceIsJoinSplit(rest, pat, repl);
      JoinCons(s[..i], Split(rest, pat), repl);
    }
  }

  lemma {:induction false} FindAfterAbsentHead(a: string, pat: string, b: string)
    requires pat != [] && pat[0] !in a
    ensures Find(a + pat + b, pat) == Some(|a|)
  {
    var s := a + pat + b;
    FindFirst(s, pat);
    assert s[|a|..|a| + |pat|] == pat;
    assert OccursAt(s, pat, |a|);
    forall j | 0 <= j < |a| ensures !OccursAt(s, pat, j) {
      assert s[j..j + |pat|][0] == a[j];
    }
  }

  lemma SplitAppendAbsentHead(a: string, pat: string, b: string)
    requires pat != [] && pat[0] !in a
    ensures Split(a + pat + b, pat) == [a] + Split(b, pat)
  {
    FindAfterAbsentHead(a, pat, b);
    var s := a + pat + b;
    assert s[..|a|] == a;
    assert s[|a| + |pat|..] == b;
  }

  /** Splitting on `sep` undoes joining with `sep` when no part holds the first character of `sep`. */
  lemma {:induction false} SplitJoinAbsentHead(parts: seq<string>, sep: string)
    requires sep != [] && |parts| >= 1
    requires forall k :: 0 <= k < |parts| ==> sep[0] !in parts[k]
    ensures Split(Join(parts, sep), sep) == parts
    decreases |parts|
  {
    if |parts| == 1 {
      AbsentHead(parts[0], sep);
    } else {
      var rest := parts[1..];
      assert forall k :: 0 <= k < |rest| ==> rest[k] == parts[k + 1];
      SplitJoinAbsentHead(rest, sep);
      assert Join(parts, sep) == parts[0] + sep + Join(rest, sep);
      SplitAppendAbsentHead(parts[0], sep, Join(rest, sep));
      assert parts == [parts[0]] + rest;
    }
  }

  /** The pieces of a split hold only characters of the string. */
  lemma {:induction false} SplitPiecesWithout(s: string, sep: string, c: char)
    requires sep != [] && c !in s
    ensures forall k :: 0 <= k < |Split(s, sep)| ==> c !in Split(s, sep)[k]
    decreases |s|
  {
    match Find(s, sep)
    case None =>
    case Some(i) =>
      var rest := s[i + |sep|..];
      assert forall k :: 0 <= k < |rest| ==> rest[k] == s[i + |sep| + k];
      SplitPiecesWithout(rest, sep, c);
      assert forall k :: 0 <= k < i ==> s[..i][k] == s[k];
      var tail := Split(rest, sep);
      var r := Split(s, sep);
      assert r == [s[..i]] + tail;
      forall k | 0 <= k < |r| ensures c !in r[k] {
        if k > 0 {
          assert r[k] == tail[k - 1];
        }
      }
  }

  /** No piece of a split on one character holds that character. */
  lemma {:induction false} SplitPiecesNoSeparator(s: string, c: char)
    ensures forall k :: 0 <= k < |Split(s, [c])| ==> c !in Split(s, [c])[k]
    decreases |s|
  {
    FindFirst(s, [c]);
    match Find(s, [c])
    case None =>
      forall j | 0 <= j < |s| ensures s[j] != c {
        if s[j] == c {
          assert s[j..j + 1] == [c];
          assert OccursAt(s, [c], j);
        }
      }
    case Some(i) =>
      var rest := s[i + 1..];
      SplitPiecesNoSeparator(rest, c);
      forall j | 0 <= j < i ensures s[..i][j] != c {
        if s[j] == c {
          assert s[j..j + 1] == [c];
          assert OccursAt(s, [c], j);
        }
      }
      var tail := Split(rest, [c]);
      var r := Split(s, [c]);
      assert r == [s[..i]] + tail;
      forall k | 0 <= k < |r| ensures c !in r[k] {
        if k > 0 {
          assert r[k] == tail[k - 1];
        }
      }
  }

  lemma {:induction false} JoinWithout(parts: seq<string>, sep: string, c: char)
    requires c !in sep
    requires forall k :: 0 <= k < |parts| ==> c !in parts[k]
    ensures c !in Join(parts, sep)
    decreases |parts|
  {
    if |parts| > 1 {
      var rest := parts[1..];
      assert forall k :: 0 <= k < |rest| ==> rest[k] == parts[k + 1];
      JoinWithout(rest, sep, c);
    }
  }
}
