/**
 * The standard-library string operations the generator relies on (`trim`, `find`,
 * `rfind`, `replace`, `lines`, `to_lowercase`, `cmp`, integer formatting), restated
 * on `seq<char>` for ASCII text.
 */
module Strings {
  import opened Wrappers

  /** Whitespace as Rust's `char::is_whitespace` sees it, restricted to ASCII. */
  predicate IsSpace(c: char) {
    c == ' ' || 9 <= c as int <= 13
  }

  predicate IsDigit(c: char) {
    '0' <= c <= '9'
  }

  predicate IsAsciiUpper(c: char) {
    'A' <= c <= 'Z'
  }

  predicate IsAsciiLower(c: char) {
    'a' <= c <= 'z'
  }

  predicate IsAsciiAlpha(c: char) {
    IsAsciiUpper(c) || IsAsciiLower(c)
  }

  predicate IsAsciiAlphanumeric(c: char) {
    IsAsciiAlpha(c) || IsDigit(c)
  }

  predicate AllDigits(s: string) {
    forall i :: 0 <= i < |s| ==> IsDigit(s[i])
  }

  predicate StartsWith(s: string, prefix: string) {
    |prefix| <= |s| && s[..|prefix|] == prefix
  }

  /** A text starting with `prefix` starts with its first character. */
  lemma StartsWithFirst(s: string, prefix: string)
    requires prefix != []
    ensures StartsWith(s, prefix) ==> s != [] && s[0] == prefix[0]
  {
    if StartsWith(s, prefix) {
      assert s[..|prefix|][0] == s[0];
    }
  }

  /** `p` occurs in `s` at index `i`. */
  predicate OccursAt(s: string, p: string, i: nat) {
    i + |p| <= |s| && s[i..i + |p|] == p
  }

  /** `p` occurs somewhere in `s`. */
  ghost predicate IsInfix(p: string, s: string) {
    exists i: nat :: OccursAt(s, p, i)
  }

  // ---------------------------------------------------------------------------
  // Trimming

  /** `str::trim_start`: drops the leading whitespace. */
  function TrimStart(s: string): (r: string)
    ensures |r| <= |s| && r == s[|s| - |r|..]
    ensures r == [] || !IsSpace(r[0])
  {
    if s != [] && IsSpace(s[0]) then TrimStart(s[1..]) else s
  }

  /** `str::trim_end`: drops the trailing whitespace. */
  function TrimEnd(s: string): (r: string)
    ensures |r| <= |s| && r == s[..|r|]
    ensures r == [] || !IsSpace(r[|r| - 1])
  {
    if s != [] && IsSpace(s[|s| - 1]) then TrimEnd(s[..|s| - 1]) else s
  }

  /** `str::trim`. */
  function Trim(s: string): string {
    TrimEnd(TrimStart(s))
  }

  /** `str::trim_start_matches(c)` for a single character. */
  function TrimStartMatches(s: string, c: char): (r: string)
    ensures |r| <= |s| && r == s[|s| - |r|..]
    ensures r == [] || r[0] != c
  {
    if s != [] && s[0] == c then TrimStartMatches(s[1..], c) else s
  }

  /** Only whitespace is dropped at the start. */
  lemma {:induction false} TrimStartDropsSpaces(s: string)
    ensures forall i :: 0 <= i < |s| - |TrimStart(s)| ==> IsSpace(s[i])
  {
    if s != [] && IsSpace(s[0]) {
      TrimStartDropsSpaces(s[1..]);
      assert forall i :: 1 <= i < |s| - |TrimStart(s)| ==> s[i] == s[1..][i - 1];
    }
  }

  /** Only whitespace is dropped at the end. */
  lemma {:induction false} TrimEndDropsSpaces(s: string)
    ensures forall i :: |TrimEnd(s)| <= i < |s| ==> IsSpace(s[i])
  {
    if s != [] && IsSpace(s[|s| - 1]) {
      TrimEndDropsSpaces(s[..|s| - 1]);
    }
  }

  /** Only copies of `c` are dropped. */
  lemma {:induction false} TrimStartMatchesDrops(s: string, c: char)
    ensures forall i :: 0 <= i < |s| - |TrimStartMatches(s, c)| ==> s[i] == c
  {
    if s != [] && s[0] == c {
      TrimStartMatchesDrops(s[1..], c);
      assert TrimStartMatches(s, c) == TrimStartMatches(s[1..], c);
      forall i | 1 <= i < |s| - |TrimStartMatches(s, c)|
        ensures s[i] == c
      {
        assert s[i] == s[1..][i - 1];
      }
    }
  }

  /** A prefix of the trimmed text occurs where the leading whitespace ends. */
  lemma TrimmedPrefixOccurs(s: string, p: string)
    requires StartsWith(Trim(s), p)
    ensures OccursAt(s, p, |s| - |TrimStart(s)|)
  {
    var t := TrimStart(s);
    PrefixOfPrefixOfSuffix(s, |s| - |t|, t, TrimEnd(t), p);
  }

  /** A prefix of a prefix of the suffix from `k` occurs at `k`. */
  lemma PrefixOfPrefixOfSuffix(s: string, k: nat, t: string, u: string, p: string)
    requires k <= |s| && t == s[k..]
    requires |u| <= |t| && u == t[..|u|]
    requires StartsWith(u, p)
    ensures OccursAt(s, p, k)
  {
    assert forall j :: 0 <= j < |p| ==> p[j] == u[j] == t[j] == s[k + j];
  }

  /** Text that begins with a non-space character is left untouched at its start. */
  lemma {:induction false} TrimStartAppend(a: string, b: string)
    requires b != [] && !IsSpace(b[0])
    ensures TrimStart(a + b) == TrimStart(a) + b
  {
    if a == [] {
      assert a + b == b;
    } else {
      assert (a + b)[0] == a[0];
      if IsSpace(a[0]) {
        assert (a + b)[1..] == a[1..] + b;
        TrimStartAppend(a[1..], b);
        assert TrimStart(a + b) == TrimStart(a[1..] + b);
      }
    }
  }

  /** Text ending in a non-space character has nothing to trim at its end. */
  lemma TrimEndNonSpace(s: string)
    requires s != [] && !IsSpace(s[|s| - 1])
    ensures TrimEnd(s) == s
  {
  }

  /** Trimming keeps the first character that is not a space. */
  lemma TrimFirst(s: string)
    requires TrimStart(s) != []
    ensures Trim(s) != [] && Trim(s)[0] == TrimStart(s)[0]
  {
    var t := TrimStart(s);
    TrimEndDropsSpaces(t);
    assert Trim(s) == t[..|TrimEnd(t)|];
  }

  /** Trimming twice is trimming once. */
  lemma TrimIdempotent(s: string)
    ensures Trim(Trim(s)) == Trim(s)
  {
    var t := Trim(s);
    if t != [] {
      assert !IsSpace(t[|t| - 1]);
      assert TrimStart(s) != [] && t[0] == TrimStart(s)[0];
      assert TrimStart(t) == t;
    }
  }

  /** Trimming the start twice is trimming it once. */
  lemma TrimStartIdempotent(s: string)
    ensures TrimStart(TrimStart(s)) == TrimStart(s)
  {
  }

  /** Text whose first and last characters are not spaces survives a trim behind any prefix. */
  lemma TrimAppendNonSpace(a: string, b: string)
    requires b != [] && !IsSpace(b[0]) && !IsSpace(b[|b| - 1])
    ensures Trim(a + b) == TrimStart(a) + b
  {
    TrimStartAppend(a, b);
    var t := TrimStart(a) + b;
    assert t[|t| - 1] == b[|b| - 1];
    TrimEndNonSpace(t);
  }

  /** A text with no space at either end is its own trim. */
  lemma TrimUnpadded(s: string)
    requires s != [] && !IsSpace(s[0]) && !IsSpace(s[|s| - 1])
    ensures Trim(s) == s
  {
    assert TrimStart(s) == s;
    TrimEndNonSpace(s);
  }

  /** A text with no space at either end, padded with a newline on each side, trims back to itself. */
  lemma TrimPadded(s: string)
    requires s != [] && !IsSpace(s[0]) && !IsSpace(s[|s| - 1])
    ensures Trim("\n" + s + "\n") == s
  {
    var u := s + "\n";
    var t := "\n" + u;
    assert t == "\n" + s + "\n";
    assert IsSpace(t[0]) && t[1..] == u;
    assert u[0] == s[0];
    assert TrimStart(t) == u;
    assert IsSpace(u[|u| - 1]) && u[..|u| - 1] == s;
    TrimEndNonSpace(s);
    assert TrimEnd(u) == s;
  }

  /** The leading character run is unaffected by what follows when the next character differs. */
  lemma TrimStartMatchesAppend(a: string, c: char, b: string)
    requires b != [] && b[0] != c
    ensures TrimStartMatches(a + b, c) == TrimStartMatches(a, c) + b
  {
    if a != [] && a[0] == c {
      assert (a + b)[1..] == a[1..] + b;
      TrimStartMatchesAppend(a[1..], c, b);
    } else if a == [] {
      assert a + b == b;
    }
  }

  // ---------------------------------------------------------------------------
  // Searching

  /** `str::find` for a single character: the first index of `c`. */
  function IndexOfChar(s: string, c: char): (r: Option<nat>)
    ensures r.Some? ==> r.value < |s| && s[r.value] == c && c !in s[..r.value]
    ensures r.None? <==> c !in s
  {
    if s == [] then None
    else if s[0] == c then Some(0)
    else match IndexOfChar(s[1..], c)
      case None => None
      case Some(k) => Some(k + 1)
  }

  /** `str::rfind` for a single character: the last index of `c`. */
  function LastIndexOfChar(s: string, c: char): (r: Option<nat>)
    ensures r.Some? ==> r.value < |s| && s[r.value] == c && c !in s[r.value + 1..]
    ensures r.None? <==> c !in s
  {
    if s == [] then None
    else if s[|s| - 1] == c then Some(|s| - 1)
    else
      assert s == s[..|s| - 1] + [s[|s| - 1]];
      LastIndexOfChar(s[..|s| - 1], c)
  }

  /** The first occurrence of `c` follows a prefix without it. */
  lemma IndexOfCharAt(a: string, c: char, b: string)
    requires c !in a
    ensures IndexOfChar(a + [c] + b, c) == Some(|a|)
  {
    var s := a + [c] + b;
    assert s[|a|] == c;
  }

  /** The last `c` is the one after which no `c` follows. */
  lemma {:induction false} LastIndexOfCharAt(a: string, c: char, b: string)
    requires c !in b
    ensures LastIndexOfChar(a + [c] + b, c) == Some(|a|)
    decreases |b|
  {
    var s := a + [c] + b;
    if b != [] {
      var b' := b[..|b| - 1];
      assert s[|s| - 1] == b[|b| - 1];
      assert s[..|s| - 1] == a + [c] + b';
      assert c !in b' by {
        assert forall j :: 0 <= j < |b'| ==> b'[j] == b[j];
      }
      LastIndexOfCharAt(a, c, b');
    } else {
      assert s[|s| - 1] == c;
    }
  }

  /** `str::find` searching from offset `k`. */
  function IndexOfFrom(s: string, p: string, k: nat): (r: Option<nat>)
    requires k <= |s|
    ensures r.Some? ==> k <= r.value && OccursAt(s, p, r.value)
    ensures r.Some? ==> forall i: nat :: k <= i < r.value ==> !OccursAt(s, p, i)
    ensures r.None? ==> forall i: nat :: k <= i ==> !OccursAt(s, p, i)
    decreases |s| - k
  {
    if k + |p| > |s| then None
    else if s[k..k + |p|] == p then Some(k)
    else if k == |s| then None
    else IndexOfFrom(s, p, k + 1)
  }

  lemma ConcatAssoc(a: string, b: string, c: string, d: string)
    ensures a + b + c + d == a + (b + c + d)
  {
  }

  lemma ConcatAssoc3(a: string, b: string, c: string)
    ensures a + b + c == a + (b + c)
  {
  }

  /** A character absent from a text is absent from every slice of it. */
  lemma NotInSlice(s: string, c: char, a: nat, b: nat)
    requires a <= b <= |s| && c !in s
    ensures c !in s[a..b]
  {
  }

  /** `str::find` for a pattern: the first index at which `p` occurs in `s`. */
  function IndexOf(s: string, p: string): (r: Option<nat>)
    ensures r.Some? ==> OccursAt(s, p, r.value)
    ensures r.Some? ==> forall i: nat :: i < r.value ==> !OccursAt(s, p, i)
    ensures r.None? <==> !IsInfix(p, s)
  {
    IndexOfFrom(s, p, 0)
  }

  /** An occurrence with none before it is the one `str::find` reports. */
  lemma IndexOfFirst(s: string, p: string, k: nat)
    requires OccursAt(s, p, k) && forall i: nat :: i < k ==> !OccursAt(s, p, i)
    ensures IndexOf(s, p) == Some(k)
  {
    assert IsInfix(p, s);
  }

  /** `str::contains`. */
  function Contains(s: string, p: string): (r: bool)
    ensures r <==> IsInfix(p, s)
  {
    IndexOf(s, p).Some?
  }

  // ---------------------------------------------------------------------------
  // Rewriting

  /**
   * `str::replace(p, rep)` for a non-empty pattern: occurrences are found from the
   * left, never overlap, and the text after a match is searched again.
   */
  function ReplaceAll(s: string, p: string, rep: string): (r: string)
    requires p != []
    decreases |s|
  {
    if |s| < |p| then s
    else if s[..|p|] == p then rep + ReplaceAll(s[|p|..], p, rep)
    else [s[0]] + ReplaceAll(s[1..], p, rep)
  }

  /** Text without the pattern is left as it is. */
  lemma {:induction false} ReplaceAllAbsent(s: string, p: string, rep: string)
    requires p != [] && !IsInfix(p, s)
    ensures ReplaceAll(s, p, rep) == s
    decreases |s|
  {
    if |s| >= |p| {
      assert !OccursAt(s, p, 0);
      NotInfixTail(p, s);
      ReplaceAllAbsent(s[1..], p, rep);
      assert [s[0]] + s[1..] == s;
    }
  }

  /** A replacement at least as long as the pattern never shortens the text. */
  lemma {:induction false} ReplaceAllLonger(s: string, p: string, rep: string)
    requires p != [] && |rep| >= |p|
    ensures |ReplaceAll(s, p, rep)| >= |s|
    decreases |s|
  {
    if |s| >= |p| {
      if s[..|p|] == p {
        ReplaceAllLonger(s[|p|..], p, rep);
      } else {
        ReplaceAllLonger(s[1..], p, rep);
      }
    }
  }

  /** A character in neither the text nor the replacement is not in the result. */
  lemma {:induction false} ReplaceAllKeepsOut(s: string, p: string, rep: string, c: char)
    requires p != [] && c !in s && c !in rep
    ensures c !in ReplaceAll(s, p, rep)
    decreases |s|
  {
    if |s| >= |p| {
      if s[..|p|] == p {
        assert forall i :: 0 <= i < |s[|p|..]| ==> s[|p|..][i] == s[|p| + i];
        ReplaceAllKeepsOut(s[|p|..], p, rep, c);
      } else {
        assert forall i :: 0 <= i < |s[1..]| ==> s[1..][i] == s[1 + i];
        ReplaceAllKeepsOut(s[1..], p, rep, c);
      }
    }
  }

  /** A text missing one of the pattern's characters does not hold the pattern. */
  lemma NotInfixByChar(p: string, s: string, c: char)
    requires c in p && c !in s
    ensures !IsInfix(p, s)
  {
    var j :| 0 <= j < |p| && p[j] == c;
    forall i: nat
      ensures !OccursAt(s, p, i)
    {
      if i + |p| <= |s| {
        assert s[i..i + |p|][j] == s[i + j];
      }
    }
  }

  /** Absence of `p` in `s` carries over to the tail of `s`. */
  lemma NotInfixTail(p: string, s: string)
    requires s != []
    ensures !IsInfix(p, s) ==> !IsInfix(p, s[1..])
  {
    if IsInfix(p, s[1..]) {
      var i: nat :| OccursAt(s[1..], p, i);
      assert s[i + 1..i + 1 + |p|] == s[1..][i..i + |p|];
      assert OccursAt(s, p, i + 1);
    }
  }

  /** Replacing a pattern inside exactly that pattern yields the replacement. */
  lemma ReplaceAllSelf(p: string, rep: string)
    requires p != []
    ensures ReplaceAll(p, p, rep) == rep
  {
    assert p[|p|..] == [];
  }

  /** A match at the very start is replaced, and the search resumes after it. */
  lemma ReplaceAllAtStart(p: string, b: string, rep: string)
    requires p != []
    ensures ReplaceAll(p + b, p, rep) == rep + ReplaceAll(b, p, rep)
  {
    assert (p + b)[..|p|] == p;
    assert (p + b)[|p|..] == b;
  }

  /** Without a match at the start, the first character is copied. */
  lemma ReplaceAllNoMatchAtStart(s: string, p: string, rep: string)
    requires p != [] && s != [] && !OccursAt(s, p, 0)
    ensures ReplaceAll(s, p, rep) == [s[0]] + ReplaceAll(s[1..], p, rep)
  {
  }

  /** An occurrence in the tail is an occurrence one position further in the whole. */
  lemma OccursAtTail(s: string, p: string, i: nat)
    requires s != []
    ensures OccursAt(s[1..], p, i) <==> OccursAt(s, p, i + 1)
  {
    if i + |p| <= |s[1..]| {
      assert s[1..][i..i + |p|] == s[i + 1..i + 1 + |p|];
    }
  }

  /** The absence of a match in the prefix carries over to the prefix's tail. */
  lemma NoMatchInTail(a: string, b: string, p: string)
    requires a != []
    requires forall i: nat :: i < |a| ==> !OccursAt(a + b, p, i)
    ensures forall i: nat :: i < |a| - 1 ==> !OccursAt(a[1..] + b, p, i)
  {
    assert (a + b)[1..] == a[1..] + b;
    forall i: nat | i < |a| - 1
      ensures !OccursAt(a[1..] + b, p, i)
    {
      OccursAtTail(a + b, p, i);
    }
  }

  /** A prefix in which no match starts is copied unchanged. */
  lemma {:induction false} ReplaceAllSkip(a: string, b: string, p: string, rep: string)
    requires p != []
    requires forall i: nat :: i < |a| ==> !OccursAt(a + b, p, i)
    ensures ReplaceAll(a + b, p, rep) == a + ReplaceAll(b, p, rep)
    decreases |a|
  {
    if a == [] {
      assert a + b == b;
    } else {
      var s := a + b;
      assert !OccursAt(s, p, 0);
      ReplaceAllNoMatchAtStart(s, p, rep);
      assert s[1..] == a[1..] + b;
      NoMatchInTail(a, b, p);
      ReplaceAllSkip(a[1..], b, p, rep);
      assert [s[0]] + a[1..] == a;
    }
  }

  /** No occurrence of `p` in `a + b` starts inside `a` and ends inside `b`. */
  ghost predicate NoMatchAcross(a: string, b: string, p: string) {
    forall i: nat :: i < |a| < i + |p| ==> !OccursAt(a + b, p, i)
  }

  /** A boundary whose last character on the left is not in `p` is crossed by no match. */
  lemma LastCharBlocks(a: string, b: string, p: string)
    requires a != [] && a[|a| - 1] !in p
    ensures NoMatchAcross(a, b, p)
  {
    forall i: nat | i < |a| < i + |p|
      ensures !OccursAt(a + b, p, i)
    {
      assert (a + b)[|a| - 1] == a[|a| - 1];
    }
  }

  /** A boundary whose first character on the right is not in `p` is crossed by no match. */
  lemma FirstCharBlocks(a: string, b: string, p: string)
    requires b != [] && b[0] !in p
    ensures NoMatchAcross(a, b, p)
  {
    forall i: nat | i < |a| < i + |p|
      ensures !OccursAt(a + b, p, i)
    {
      assert (a + b)[|a|] == b[0];
    }
  }

  /** Dropping a prefix of the left part keeps the boundary free of matches. */
  lemma NoMatchAcrossDrop(a: string, b: string, p: string, k: nat)
    requires k <= |a| && NoMatchAcross(a, b, p)
    ensures NoMatchAcross(a[k..], b, p)
  {
    assert a[k..] + b == (a + b)[k..];
    forall i: nat | i < |a[k..]| < i + |p|
      ensures !OccursAt(a[k..] + b, p, i)
    {
      if i + |p| <= |a[k..] + b| {
        assert (a + b)[k..][i..i + |p|] == (a + b)[k + i..k + i + |p|];
      }
      assert !OccursAt(a + b, p, k + i);
    }
  }

  /** A match at the start of `a + b` that does not cross into `b` is a match at the start of `a`. */
  lemma ReplaceAllMatchStep(a: string, b: string, p: string, rep: string)
    requires p != [] && a != [] && NoMatchAcross(a, b, p) && OccursAt(a + b, p, 0)
    ensures |p| <= |a|
    ensures ReplaceAll(a + b, p, rep) == rep + ReplaceAll(a[|p|..] + b, p, rep)
    ensures ReplaceAll(a, p, rep) == rep + ReplaceAll(a[|p|..], p, rep)
  {
    assert a[..|p|] == (a + b)[..|p|];
    assert (a + b)[|p|..] == a[|p|..] + b;
  }

  /** Without a match at the start of `a + b`, the first character of `a` is copied. */
  lemma ReplaceAllCopyStep(a: string, b: string, p: string, rep: string)
    requires p != [] && a != [] && !OccursAt(a + b, p, 0)
    ensures ReplaceAll(a + b, p, rep) == [a[0]] + ReplaceAll(a[1..] + b, p, rep)
    ensures ReplaceAll(a, p, rep) == [a[0]] + ReplaceAll(a[1..], p, rep)
  {
    assert (a + b)[1..] == a[1..] + b;
    if |a| < |p| {
      assert ReplaceAll(a[1..], p, rep) == a[1..];
      assert [a[0]] + a[1..] == a;
    } else {
      assert a[..|p|] == (a + b)[..|p|];
    }
  }

  /** Replacement distributes over a concatenation that no match crosses. */
  lemma {:induction false} ReplaceAllAppend(a: string, b: string, p: string, rep: string)
    requires p != [] && NoMatchAcross(a, b, p)
    ensures ReplaceAll(a + b, p, rep) == ReplaceAll(a, p, rep) + ReplaceAll(b, p, rep)
    decreases |a|
  {
    if a == [] {
      assert a + b == b;
    } else if OccursAt(a + b, p, 0) {
      ReplaceAllMatchStep(a, b, p, rep);
      NoMatchAcrossDrop(a, b, p, |p|);
      ReplaceAllAppend(a[|p|..], b, p, rep);
      ConcatAssoc3(rep, ReplaceAll(a[|p|..], p, rep), ReplaceAll(b, p, rep));
    } else {
      ReplaceAllCopyStep(a, b, p, rep);
      NoMatchAcrossDrop(a, b, p, 1);
      ReplaceAllAppend(a[1..], b, p, rep);
      ConcatAssoc3([a[0]], ReplaceAll(a[1..], p, rep), ReplaceAll(b, p, rep));
    }
  }

  /** A last character outside the pattern stays the last character. */
  lemma ReplaceAllKeepsLast(a: string, p: string, rep: string)
    requires p != [] && a != [] && a[|a| - 1] !in p
    ensures var r := ReplaceAll(a, p, rep); r != [] && r[|r| - 1] == a[|a| - 1]
  {
    var c := [a[|a| - 1]];
    assert a == a[..|a| - 1] + c;
    FirstCharBlocks(a[..|a| - 1], c, p);
    ReplaceAllAppend(a[..|a| - 1], c, p, rep);
    if |p| == 1 {
      assert c[..1] != p;
      assert c[1..] == [];
    }
    assert ReplaceAll(c, p, rep) == c;
  }
  /** Two rounds of replacement distribute over a concatenation whose left part ends outside both patterns. */
  lemma ReplaceTwiceAppend(a: string, b: string, p1: string, r1: string, p2: string, r2: string)
    requires p1 != [] && p2 != [] && a != [] && a[|a| - 1] !in p1 && a[|a| - 1] !in p2
    ensures ReplaceAll(ReplaceAll(a + b, p1, r1), p2, r2)
      == ReplaceAll(ReplaceAll(a, p1, r1), p2, r2) + ReplaceAll(ReplaceAll(b, p1, r1), p2, r2)
  {
    LastCharBlocks(a, b, p1);
    ReplaceAllAppend(a, b, p1, r1);
    var a1, b1 := ReplaceAll(a, p1, r1), ReplaceAll(b, p1, r1);
    ReplaceAllKeepsLast(a, p1, r1);
    LastCharBlocks(a1, b1, p2);
    ReplaceAllAppend(a1, b1, p2, r2);
  }


  /** `str::replace(a, b)` for single characters: every `a` becomes `b`. */
  function ReplaceChar(s: string, a: char, b: char): (r: string)
    ensures |r| == |s|
    ensures forall i :: 0 <= i < |s| ==> r[i] == (if s[i] == a then b else s[i])
  {
    seq(|s|, i requires 0 <= i < |s| => if s[i] == a then b else s[i])
  }

  function ToLowerChar(c: char): char {
    if IsAsciiUpper(c) then (c as int + 32) as char else c
  }

  /** `str::to_lowercase`, restricted to ASCII. */
  function ToLower(s: string): (r: string)
    ensures |r| == |s|
    ensures forall i :: 0 <= i < |s| ==> r[i] == ToLowerChar(s[i])
  {
    seq(|s|, i requires 0 <= i < |s| => ToLowerChar(s[i]))
  }

  // ---------------------------------------------------------------------------
  // Lines

  /**
   * `str::lines` for '\n'-separated text: the pieces between newlines, where a
   * final newline does not start an extra empty line.
   */
  function Lines(s: string): (r: seq<string>)
    ensures forall i :: 0 <= i < |r| ==> '\n' !in r[i]
    ensures s == [] <==> r == []
    decreases |s|
  {
    if s == [] then []
    else match IndexOfChar(s, '\n')
      case None => [s]
      case Some(k) => [s[..k]] + Lines(s[k + 1..])
  }

  /** The text read back from lines each followed by '\n'. */
  function JoinLines(ls: seq<string>): string {
    if ls == [] then [] else ls[0] + "\n" + JoinLines(ls[1..])
  }

  /** Joining splits over concatenation of the line lists. */
  lemma {:induction false} JoinLinesAppend(a: seq<string>, b: seq<string>)
    ensures JoinLines(a + b) == JoinLines(a) + JoinLines(b)
  {
    if a == [] {
      assert a + b == b;
    } else {
      assert (a + b)[1..] == a[1..] + b;
      JoinLinesAppend(a[1..], b);
    }
  }

  /** Text without a newline is one line. */
  lemma LinesSingle(s: string)
    requires s != [] && '\n' !in s
    ensures Lines(s) == [s]
  {
  }

  /** Splitting a terminated line off the front of a text. */
  lemma LinesCons(x: string, y: string)
    requires '\n' !in x
    ensures Lines(x + "\n" + y) == [x] + Lines(y)
  {
    var s := x + "\n" + y;
    assert s[|x|] == '\n';
    assert s[..|x|] == x;
    var k := IndexOfChar(s, '\n');
    assert k.Some?;
    assert k.value == |x|;
    assert s[|x| + 1..] == y;
  }

  /** `Lines` undoes `JoinLines` on newline-free lines. */
  lemma {:induction false} LinesOfJoinLines(ls: seq<string>)
    requires forall i :: 0 <= i < |ls| ==> '\n' !in ls[i]
    ensures Lines(JoinLines(ls)) == ls
  {
    if ls != [] {
      LinesCons(ls[0], JoinLines(ls[1..]));
      LinesOfJoinLines(ls[1..]);
    }
  }

  // ---------------------------------------------------------------------------
  // Comparison (`Ord for str`: lexicographic by character)

  datatype Ordering = Less | Equal | Greater {
    /** `Ordering::reverse`. */
    function Reverse(): Ordering {
      match this
      case Less => Greater
      case Equal => Equal
      case Greater => Less
    }
  }

  function CompareStrings(a: string, b: string): Ordering {
    if a == [] && b == [] then Equal
    else if a == [] then Less
    else if b == [] then Greater
    else if a[0] < b[0] then Less
    else if a[0] > b[0] then Greater
    else CompareStrings(a[1..], b[1..])
  }

  lemma {:induction false} CompareStringsEqual(a: string, b: string)
    ensures CompareStrings(a, b) == Equal <==> a == b
  {
    if a != [] && b != [] && a[0] == b[0] {
      CompareStringsEqual(a[1..], b[1..]);
      if a[1..] == b[1..] {
        assert a == [a[0]] + a[1..] && b == [b[0]] + b[1..];
      }
    }
  }

  lemma {:induction false} CompareStringsReverse(a: string, b: string)
    ensures CompareStrings(b, a) == CompareStrings(a, b).Reverse()
  {
    if a != [] && b != [] && a[0] == b[0] {
      CompareStringsReverse(a[1..], b[1..]);
    }
  }

  /** "Not greater than" is transitive. */
  lemma {:induction false} CompareStringsTransitive(a: string, b: string, c: string)
    requires CompareStrings(a, b) != Greater && CompareStrings(b, c) != Greater
    ensures CompareStrings(a, c) != Greater
  {
    if a != [] && b != [] && c != [] && a[0] == b[0] && b[0] == c[0] {
      CompareStringsTransitive(a[1..], b[1..], c[1..]);
    }
  }

  // ---------------------------------------------------------------------------
  // Decimal numerals (`usize::to_string`)

  function DigitChar(d: nat): (c: char)
    requires d < 10
    ensures IsDigit(c)
  {
    ('0' as int + d) as char
  }

  function DigitValue(c: char): (d: nat)
    requires IsDigit(c)
    ensures d < 10
  {
    c as int - '0' as int
  }

  /** The decimal numeral of `n`, without leading zeros. */
  function Decimal(n: nat): (r: string)
    ensures |r| >= 1 && AllDigits(r)
    ensures |r| > 1 ==> r[0] != '0'
  {
    if n < 10 then [DigitChar(n)] else Decimal(n / 10) + [DigitChar(n % 10)]
  }

  /** The value of a string of decimal digits. */
  function DecimalValue(s: string): nat
    requires AllDigits(s)
  {
    if s == [] then 0 else DecimalValue(s[..|s| - 1]) * 10 + DigitValue(s[|s| - 1])
  }

  /** Reading a numeral back gives the number it was written from. */
  lemma {:induction false} DecimalRoundTrip(n: nat)
    ensures DecimalValue(Decimal(n)) == n
  {
    if n >= 10 {
      var s := Decimal(n);
      assert s[..|s| - 1] == Decimal(n / 10);
      DecimalRoundTrip(n / 10);
    }
  }

  /** Distinct numbers are written differently. */
  lemma DecimalInjective(m: nat, n: nat)
    requires Decimal(m) == Decimal(n)
    ensures m == n
  {
    DecimalRoundTrip(m);
    DecimalRoundTrip(n);
  }

  /** The last `width` decimal digits of `n`, zero-padded (`{:0width}` formatting). */
  function FixedDigits(n: nat, width: nat): (r: string)
    ensures |r| == width && AllDigits(r)
  {
    if width == 0 then [] else FixedDigits(n / 10, width - 1) + [DigitChar(n % 10)]
  }

  /** A digit string is the zero-padded numeral of its own value. */
  lemma {:induction false} FixedDigitsOfValue(s: string)
    requires AllDigits(s)
    ensures FixedDigits(DecimalValue(s), |s|) == s
  {
    if s != [] {
      var init := s[..|s| - 1];
      FixedDigitsOfValue(init);
      var v := DecimalValue(s);
      assert v / 10 == DecimalValue(init);
      assert v % 10 == DigitValue(s[|s| - 1]);
      assert s == init + [s[|s| - 1]];
    }
  }

  function Pow10(k: nat): (r: nat)
    ensures r >= 1
  {
    if k == 0 then 1 else 10 * Pow10(k - 1)
  }

  /** A `k`-digit string denotes a number below 10^k. */
  lemma {:induction false} DecimalValueBound(s: string)
    requires AllDigits(s)
    ensures DecimalValue(s) < Pow10(|s|)
  {
    if s != [] {
      DecimalValueBound(s[..|s| - 1]);
    }
  }

  /** Zero-padded digits of a small enough number read back as that number. */
  lemma {:induction false} ValueOfFixedDigits(n: nat, width: nat)
    requires n < Pow10(width)
    ensures DecimalValue(FixedDigits(n, width)) == n
  {
    if width > 0 {
      var s := FixedDigits(n, width);
      var q, d := n / 10, n % 10;
      assert n == q * 10 + d;
      assert q < Pow10(width - 1) by {
        assert n < 10 * Pow10(width - 1);
      }
      assert s[..|s| - 1] == FixedDigits(q, width - 1);
      assert DigitValue(s[|s| - 1]) == d;
      ValueOfFixedDigits(q, width - 1);
    }
  }
}
