/**
 * The parts of .NET's string API that the LDAP code relies on: prefix tests, searches,
 * Split(',') and Join, Trim, and the OrdinalIgnoreCase comparison.
 */
module Strings {
  import opened Wrappers

  /** The two comparisons the source uses: exact (ordinal) and ASCII case-insensitive. */
  datatype Comparison = Ordinal | OrdinalIgnoreCase

  /** Upper-cases ASCII letters and leaves every other character alone. */
  function FoldCase(c: char): (u: char)
    ensures 'a' <= c <= 'z' ==> u as int == c as int - 32
    ensures !('a' <= c <= 'z') ==> u == c
  {
    if 'a' <= c <= 'z' then (c as int - 32) as char else c
  }

  /** string.Equals(a, b, StringComparison.OrdinalIgnoreCase), restricted to ASCII folding. */
  predicate EqualsIgnoreCase(a: string, b: string) {
    |a| == |b| && forall i :: 0 <= i < |a| ==> FoldCase(a[i]) == FoldCase(b[i])
  }

  predicate SameText(a: string, b: string, cmp: Comparison) {
    match cmp
    case Ordinal => a == b
    case OrdinalIgnoreCase => EqualsIgnoreCase(a, b)
  }

  /** `p` occurs in `s` starting at index `i`. */
  predicate OccursAt(s: string, p: string, i: nat, cmp: Comparison) {
    i + |p| <= |s| && SameText(s[i..i + |p|], p, cmp)
  }

  predicate StartsWith(s: string, p: string, cmp: Comparison := Ordinal) {
    OccursAt(s, p, 0, cmp)
  }

  predicate Contains(s: string, p: string) {
    exists i: nat | i <= |s| :: OccursAt(s, p, i, Ordinal)
  }

  /** s.IndexOf(p, from, cmp): the first occurrence of `p` at or after `from`. */
  function IndexOfFrom(s: string, p: string, from: nat, cmp: Comparison): (r: Option<nat>)
    ensures r.Some? ==> from <= r.value && OccursAt(s, p, r.value, cmp)
    ensures forall j: nat :: from <= j && (r.None? || j < r.value) ==> !OccursAt(s, p, j, cmp)
    decreases |s| - from
  {
    if from + |p| > |s| then None
    else if SameText(s[from..from + |p|], p, cmp) then Some(from)
    else IndexOfFrom(s, p, from + 1, cmp)
  }

  /** s.IndexOf(p, cmp): the first occurrence of `p` in `s`. */
  function IndexOf(s: string, p: string, cmp: Comparison := Ordinal): (r: Option<nat>)
    ensures r.Some? ==> OccursAt(s, p, r.value, cmp)
    ensures forall j: nat :: (r.None? || j < r.value) ==> !OccursAt(s, p, j, cmp)
  {
    IndexOfFrom(s, p, 0, cmp)
  }

  /** s.IndexOf(c, from): the first index at or after `from` that holds `c`. */
  function IndexOfChar(s: string, c: char, from: nat): (r: Option<nat>)
    ensures r.Some? ==> from <= r.value < |s| && s[r.value] == c
    ensures forall j :: from <= j < |s| && (r.None? || j < r.value) ==> s[j] != c
    decreases |s| - from
  {
    if from >= |s| then None
    else if s[from] == c then Some(from)
    else IndexOfChar(s, c, from + 1)
  }

  /** string.Join(sep, parts). */
  function Join(parts: seq<string>, sep: char): string
  {
    if |parts| == 0 then ""
    else if |parts| == 1 then parts[0]
    else parts[0] + [sep] + Join(parts[1..], sep)
  }

  /** s.Split(sep): the pieces between the separators, never an empty array. */
  function Split(s: string, sep: char): (parts: seq<string>)
    ensures |parts| >= 1
    ensures forall k :: 0 <= k < |parts| ==> sep !in parts[k]
    ensures Join(parts, sep) == s
    decreases |s|
  {
    match IndexOfChar(s, sep, 0)
    case None => [s]
    case Some(i) =>
      var rest := Split(s[i + 1..], sep);
      assert ([s[..i]] + rest)[1..] == rest;
      [s[..i]] + rest
  }

  /** Splitting a join of separator-free pieces gives the pieces back. */
  lemma {:induction false} SplitOfJoin(parts: seq<string>, sep: char)
    requires |parts| >= 1
    requires forall k :: 0 <= k < |parts| ==> sep !in parts[k]
    ensures Split(Join(parts, sep), sep) == parts
  {
    var s := Join(parts, sep);
    if |parts| == 1 {
      assert IndexOfChar(s, sep, 0) == None;
    } else {
      var n := |parts[0]|;
      assert s == parts[0] + [sep] + Join(parts[1..], sep);
      assert s[n] == sep && s[..n] == parts[0];
      assert IndexOfChar(s, sep, 0) == Some(n);
      assert s[n + 1..] == Join(parts[1..], sep);
      SplitOfJoin(parts[1..], sep);
      assert parts == [parts[0]] + parts[1..];
    }
  }

  /** A join of at least two pieces starts with the first piece and a separator. */
  lemma JoinHead(parts: seq<string>, sep: char)
    requires |parts| >= 2
    ensures Join(parts, sep) == parts[0] + [sep] + Join(parts[1..], sep)
  {
  }

  /** The first piece of a split is everything before the first separator. */
  lemma {:induction false} SplitHeadOfConcat(a: string, b: string, sep: char)
    requires sep !in a
    ensures Split(a + [sep] + b, sep)[0] == a
  {
    var s := a + [sep] + b;
    assert s[|a|] == sep;
    assert forall j :: 0 <= j < |a| ==> s[j] == a[j];
    assert IndexOfChar(s, sep, 0) == Some(|a|);
    assert s[..|a|] == a;
  }

  /** The first piece of `a + rest` is the first piece of `a` when `a` holds a separator. */
  lemma {:induction false} SplitHeadOfPrefix(a: string, b: string, sep: char)
    requires sep in a
    ensures Split(a + b, sep)[0] == Split(a, sep)[0]
  {
    var s := a + b;
    var k :| 0 <= k < |a| && a[k] == sep;
    var i := IndexOfChar(a, sep, 0);
    var n := i.value;
    assert forall j :: 0 <= j < |a| ==> s[j] == a[j];
    assert IndexOfChar(s, sep, 0) == Some(n);
    assert s[..n] == a[..n];
  }

  /** A separator-free prefix stays at the head of the first piece. */
  lemma {:induction false} SplitHeadAfter(pre: string, s: string, sep: char)
    requires sep !in pre
    ensures Split(pre + s, sep)[0] == pre + Split(s, sep)[0]
  {
    var t := pre + s;
    assert forall j :: 0 <= j < |pre| ==> t[j] == pre[j];
    assert forall j :: 0 <= j < |s| ==> t[|pre| + j] == s[j];
    match IndexOfChar(s, sep, 0)
    case None =>
      assert IndexOfChar(t, sep, 0) == None;
      assert t[..|t|] == t;
    case Some(i) =>
      assert IndexOfChar(t, sep, 0) == Some(|pre| + i) by {
        assert t[|pre| + i] == sep;
        var m := IndexOfChar(t, sep, 0).value;
        assert s[m - |pre|] == sep;
      }
      assert t[..|pre| + i] == pre + s[..i];
  }

  /** A string without the separator splits into itself alone. */
  lemma SplitOfPlain(s: string, sep: char)
    requires sep !in s
    ensures Split(s, sep) == [s]
  {
    assert IndexOfChar(s, sep, 0) == None;
  }

  /** The characters that char.IsWhiteSpace accepts (Unicode Zs, Zl, Zp, U+0009..U+000D, U+0085). */
  const WhiteSpace: set<char> := {
    ' ', '\t', '\n', '\r', 0x0B as char, 0x0C as char, 0x85 as char, 0xA0 as char,
    0x1680 as char, 0x2000 as char, 0x2001 as char, 0x2002 as char, 0x2003 as char,
    0x2004 as char, 0x2005 as char, 0x2006 as char, 0x2007 as char, 0x2008 as char,
    0x2009 as char, 0x200A as char, 0x2028 as char, 0x2029 as char, 0x202F as char,
    0x205F as char, 0x3000 as char
  }

  /** string.IsNullOrWhiteSpace on a non-null string. */
  predicate IsBlank(s: string) {
    forall i :: 0 <= i < |s| ==> s[i] in WhiteSpace
  }

  /** string.IsNullOrEmpty. */
  predicate IsNullOrEmpty(s: Option<string>) {
    s.None? || s.value == ""
  }

  /** Drops the leading characters that belong to `cs`. */
  function TrimStart(s: string, cs: set<char>): (r: string)
    ensures |r| <= |s|
    ensures r != [] ==> r[0] !in cs
    ensures r != [] ==> r[|r| - 1] == s[|s| - 1]
  {
    if |s| > 0 && s[0] in cs then TrimStart(s[1..], cs) else s
  }

  /** Drops the trailing characters that belong to `cs`. */
  function TrimEnd(s: string, cs: set<char>): (r: string)
    ensures |r| <= |s|
    ensures r != [] ==> r[|r| - 1] !in cs
    ensures r != [] ==> r[0] == s[0]
  {
    if |s| > 0 && s[|s| - 1] in cs then TrimEnd(s[..|s| - 1], cs) else s
  }

  /** TrimStart keeps a suffix of `s` and drops only characters of `cs`. */
  lemma {:induction false} TrimStartIsSuffix(s: string, cs: set<char>)
    ensures TrimStart(s, cs) == s[|s| - |TrimStart(s, cs)|..]
    ensures forall i :: 0 <= i < |s| - |TrimStart(s, cs)| ==> s[i] in cs
  {
    if |s| > 0 && s[0] in cs {
      TrimStartIsSuffix(s[1..], cs);
      assert forall i :: 1 <= i < |s| ==> s[1..][i - 1] == s[i];
    }
  }

  /** TrimEnd keeps a prefix of `s` and drops only characters of `cs`. */
  lemma {:induction false} TrimEndIsPrefix(s: string, cs: set<char>)
    ensures TrimEnd(s, cs) == s[..|TrimEnd(s, cs)|]
    ensures forall i :: |TrimEnd(s, cs)| <= i < |s| ==> s[i] in cs
  {
    if |s| > 0 && s[|s| - 1] in cs {
      TrimEndIsPrefix(s[..|s| - 1], cs);
      assert forall i :: 0 <= i < |s| - 1 ==> s[..|s| - 1][i] == s[i];
    }
  }

  /** `s` neither starts nor ends with a character of `cs`. */
  predicate Trimmed(s: string, cs: set<char>) {
    s != [] ==> s[0] !in cs && s[|s| - 1] !in cs
  }

  /** s.Trim(cs...): both ends stripped of the characters in `cs`. */
  function TrimChars(s: string, cs: set<char>): (r: string)
    ensures Trimmed(r, cs)
  {
    TrimEnd(TrimStart(s, cs), cs)
  }

  /** s.Trim(): both ends stripped of white space. */
  function Trim(s: string): string
  {
    TrimChars(s, WhiteSpace)
  }

  /** Every character of `s` belongs to `cs`. */
  predicate AllIn(s: string, cs: set<char>) {
    forall i :: 0 <= i < |s| ==> s[i] in cs
  }

  /** `s` is `core` with characters of `cs` only before and after it. */
  ghost predicate PaddedBy(s: string, core: string, cs: set<char>) {
    exists pre, post :: s == pre + core + post && AllIn(pre, cs) && AllIn(post, cs)
  }

  /** Trimming removes padding only: the input is the result padded by trimmed characters. */
  lemma TrimCharsPadding(s: string, cs: set<char>)
    ensures PaddedBy(s, TrimChars(s, cs), cs)
  {
    var t := TrimStart(s, cs);
    var pre := TrimStartPadding(s, cs);
    var post := TrimEndPadding(t, cs);
    assert s == pre + TrimChars(s, cs) + post;
  }

  /** What TrimStart dropped: a run of characters of `cs`. */
  lemma TrimStartPadding(s: string, cs: set<char>) returns (pre: string)
    ensures s == pre + TrimStart(s, cs) && AllIn(pre, cs)
  {
    TrimStartIsSuffix(s, cs);
    pre := s[..|s| - |TrimStart(s, cs)|];
    assert forall i :: 0 <= i < |pre| ==> pre[i] == s[i];
  }

  /** What TrimEnd dropped: a run of characters of `cs`. */
  lemma TrimEndPadding(s: string, cs: set<char>) returns (post: string)
    ensures s == TrimEnd(s, cs) + post && AllIn(post, cs)
  {
    TrimEndIsPrefix(s, cs);
    var k := |TrimEnd(s, cs)|;
    post := s[k..];
    assert forall i :: 0 <= i < |post| ==> post[i] == s[k + i];
  }

  /** Trimming leaves a string that neither starts nor ends with a trimmed character alone,
      and removes any padding made only of trimmed characters around it. */
  lemma {:induction false} TrimCharsOfPadded(pre: string, s: string, post: string, cs: set<char>)
    requires forall i :: 0 <= i < |pre| ==> pre[i] in cs
    requires forall i :: 0 <= i < |post| ==> post[i] in cs
    requires s != [] ==> s[0] !in cs && s[|s| - 1] !in cs
    ensures TrimChars(pre + s + post, cs) == s
  {
    if pre != [] {
      assert (pre + s + post)[1..] == pre[1..] + s + post;
      TrimCharsOfPadded(pre[1..], s, post, cs);
    } else if s != [] {
      assert pre + s + post == s + post;
      assert (s + post)[0] == s[0];
      assert TrimStart(s + post, cs) == s + post;
      TrimEndOfPadded(s, post, cs);
    } else {
      assert pre + s + post == post;
      TrimStartOfBlank(post, cs);
    }
  }

  lemma {:induction false} TrimEndOfPadded(s: string, post: string, cs: set<char>)
    requires forall i :: 0 <= i < |post| ==> post[i] in cs
    requires s != [] ==> s[|s| - 1] !in cs
    ensures TrimEnd(s + post, cs) == s
  {
    if post != [] {
      assert (s + post)[..|s + post| - 1] == s + post[..|post| - 1];
      TrimEndOfPadded(s, post[..|post| - 1], cs);
    } else {
      assert s + post == s;
    }
  }

  lemma {:induction false} TrimStartOfBlank(s: string, cs: set<char>)
    requires forall i :: 0 <= i < |s| ==> s[i] in cs
    ensures TrimEnd(TrimStart(s, cs), cs) == ""
  {
    if s != [] {
      TrimStartOfBlank(s[1..], cs);
    } else {
      assert TrimStart(s, cs) == "";
    }
  }

  /** Trimming a string that starts with `p` keeps `p` when `p` begins and ends with kept characters. */
  lemma TrimKeepsPrefix(s: string, p: string, cs: set<char>)
    requires StartsWith(s, p)
    requires p != [] && Trimmed(p, cs)
    ensures StartsWith(TrimChars(s, cs), p)
  {
    assert s[0] == s[..|p|][0] == p[0];
    assert TrimStart(s, cs) == s;
    TrimEndKeepsPrefix(s, p, cs);
  }

  lemma TrimEndKeepsPrefix(s: string, p: string, cs: set<char>)
    requires |p| >= 1 && |p| <= |s| && s[..|p|] == p
    requires p[|p| - 1] !in cs
    ensures StartsWith(TrimEnd(s, cs), p)
  {
    var t := TrimEnd(s, cs);
    TrimEndIsPrefix(s, cs);
    assert s[|p| - 1] == s[..|p|][|p| - 1];
    assert |t| >= |p|;
    assert t[..|p|] == s[..|t|][..|p|] == s[..|p|];
  }

  /** Trimming a string whose first character stays only shortens it at the end. */
  lemma TrimCharsIsPrefix(s: string, cs: set<char>)
    requires s != [] && s[0] !in cs
    ensures |TrimChars(s, cs)| >= 1
    ensures TrimChars(s, cs) == s[..|TrimChars(s, cs)|]
  {
    assert TrimStart(s, cs) == s;
    TrimEndIsPrefix(s, cs);
  }

  /** A character that is not trimmed, after a first character that is not trimmed, survives in place. */
  lemma TrimKeepsChar(s: string, n: nat, cs: set<char>)
    requires n < |s| && s[0] !in cs && s[n] !in cs
    ensures n < |TrimChars(s, cs)| && TrimChars(s, cs)[n] == s[n]
  {
    assert TrimStart(s, cs) == s;
    TrimEndIsPrefix(s, cs);
  }

  /** A prefix of a prefix of `s` is a prefix of `s`. */
  lemma StartsWithOfPrefix(s: string, t: string, p: string)
    requires |t| <= |s| && t == s[..|t|]
    requires StartsWith(t, p)
    ensures StartsWith(s, p)
  {
    assert s[..|p|] == t[..|p|];
  }

  /** A string has the same length as its trimmed form only if it had nothing to trim. */
  lemma TrimCharsShortens(s: string, cs: set<char>)
    ensures |TrimChars(s, cs)| <= |s|
    ensures |TrimChars(s, cs)| == |s| ==> TrimChars(s, cs) == s
  {
    TrimStartIsSuffix(s, cs);
    TrimEndIsPrefix(TrimStart(s, cs), cs);
  }
}
