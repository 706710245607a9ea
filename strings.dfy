/**
 * The slice of Python's str behaviour the solver's text handling uses:
 * character classes, substring search, strip(), replace(), split(), join(),
 * count() and decimal conversion. Letters and word characters are ASCII.
 */
module Strings {
  import opened Wrappers

  predicate IsUpper(c: char) { 'A' <= c <= 'Z' }
  predicate IsLower(c: char) { 'a' <= c <= 'z' }
  predicate IsDigit(c: char) { '0' <= c <= '9' }
  predicate IsAlnum(c: char) { IsUpper(c) || IsLower(c) || IsDigit(c) }

  /** The regex class \w, restricted to ASCII. */
  predicate IsWordChar(c: char) { IsAlnum(c) || c == '_' }

  /** str.isspace(): what str.strip() removes and what the regex \s matches. */
  predicate IsSpace(c: char) {
    || c == ' ' || '\t' <= c <= '\r' || '\U{1C}' <= c <= '\U{1F}'
    || c == '\U{85}' || c == '\U{A0}' || c == '\U{1680}' || '\U{2000}' <= c <= '\U{200A}'
    || c == '\U{2028}' || c == '\U{2029}' || c == '\U{202F}' || c == '\U{205F}' || c == '\U{3000}'
  }

  function LowerChar(c: char): char {
    if IsUpper(c) then (c as int + 32) as char else c
  }

  function UpperChar(c: char): char {
    if IsLower(c) then (c as int - 32) as char else c
  }

  /** str.lower() on ASCII letters. */
  function Lower(s: string): (r: string)
    ensures |r| == |s| && forall i :: 0 <= i < |s| ==> r[i] == LowerChar(s[i])
  {
    seq(|s|, i requires 0 <= i < |s| => LowerChar(s[i]))
  }

  /** str.upper() on ASCII letters. */
  function Upper(s: string): (r: string)
    ensures |r| == |s| && forall i :: 0 <= i < |s| ==> r[i] == UpperChar(s[i])
  {
    seq(|s|, i requires 0 <= i < |s| => UpperChar(s[i]))
  }

  predicate StartsWith(s: string, p: string) { |p| <= |s| && s[..|p|] == p }

  predicate EndsWith(s: string, p: string) { |p| <= |s| && s[|s| - |p|..] == p }

  /** p occurs in s starting at index i. */
  predicate OccursAt(s: string, p: string, i: int) {
    0 <= i && i + |p| <= |s| && s[i..i + |p|] == p
  }

  /** str.find(p, k): the first occurrence of p at or after k (see FindIsFirst, FindNone). */
  function Find(s: string, p: string, k: nat): (r: Option<nat>)
    requires k <= |s|
    decreases |s| - k
    ensures r.Some? ==> k <= r.value && OccursAt(s, p, r.value)
  {
    if OccursAt(s, p, k) then Some(k)
    else if k == |s| then None
    else Find(s, p, k + 1)
  }

  lemma {:induction false} FindIsFirst(s: string, p: string, k: nat, j: int)
    requires k <= |s| && Find(s, p, k).Some? && k <= j < Find(s, p, k).value
    ensures !OccursAt(s, p, j)
    decreases |s| - k
  {
    if j > k {
      FindIsFirst(s, p, k + 1, j);
    }
  }

  lemma {:induction false} FindNone(s: string, p: string, k: nat, j: int)
    requires k <= |s| && Find(s, p, k).None? && k <= j
    ensures !OccursAt(s, p, j)
    decreases |s| - k
  {
    if j > k && k < |s| {
      FindNone(s, p, k + 1, j);
    }
  }

  /** An occurrence with none between k and it is what find from k reports. */
  lemma {:induction false} FindAt(s: string, p: string, k: nat, j: nat)
    requires k <= j && OccursAt(s, p, j)
    requires forall m :: k <= m < j ==> !OccursAt(s, p, m)
    ensures Find(s, p, k) == Some(j)
    decreases j - k
  {
    if k < j {
      FindAt(s, p, k + 1, j);
    }
  }

  /** The index of the first c in s (see FirstIndexOfSpec). */
  function FirstIndexOf(s: string, c: char): (r: Option<nat>)
    ensures r.Some? ==> r.value < |s| && s[r.value] == c
  {
    if s == [] then None
    else if s[0] == c then Some(0)
    else
      match FirstIndexOf(s[1..], c)
      case None => None
      case Some(i) => Some(i + 1)
  }

  /** No index before the first holds c; there is none exactly when c is absent. */
  lemma {:induction false} FirstIndexOfSpec(s: string, c: char)
    ensures FirstIndexOf(s, c).Some? ==> forall k :: 0 <= k < FirstIndexOf(s, c).value ==> s[k] != c
    ensures FirstIndexOf(s, c).None? <==> c !in s
    decreases |s|
  {
    if s != [] && s[0] != c {
      FirstIndexOfSpec(s[1..], c);
      assert forall k :: 0 < k < |s| ==> s[k] == s[1..][k - 1];
      assert s == [s[0]] + s[1..];
    }
  }

  /** An index holding c with no c before it is the first index of c. */
  lemma {:induction false} FirstIndexOfAt(s: string, c: char, i: nat)
    requires i < |s| && s[i] == c
    requires forall k :: 0 <= k < i ==> s[k] != c
    ensures FirstIndexOf(s, c) == Some(i)
  {
    if i > 0 {
      FirstIndexOfAt(s[1..], c, i - 1);
    }
  }

  /** The index of the last c in s (see LastIndexOfSpec). */
  function LastIndexOf(s: string, c: char): (r: Option<nat>)
    ensures r.Some? ==> r.value < |s| && s[r.value] == c
  {
    if s == [] then None
    else if s[|s| - 1] == c then Some(|s| - 1)
    else LastIndexOf(s[..|s| - 1], c)
  }

  /** No index after the last holds c; there is none exactly when c is absent. */
  lemma {:induction false} LastIndexOfSpec(s: string, c: char)
    ensures LastIndexOf(s, c).Some? ==> forall k :: LastIndexOf(s, c).value < k < |s| ==> s[k] != c
    ensures LastIndexOf(s, c).None? <==> c !in s
    decreases |s|
  {
    if s != [] && s[|s| - 1] != c {
      LastIndexOfSpec(s[..|s| - 1], c);
      assert forall k :: 0 <= k < |s| - 1 ==> s[k] == s[..|s| - 1][k];
      assert s == s[..|s| - 1] + [s[|s| - 1]];
    }
  }

  /** Python's `p in s`. */
  predicate Contains(s: string, p: string) {
    Find(s, p, 0).Some?
  }

  lemma {:induction false} ContainsIntro(s: string, p: string, i: int)
    requires OccursAt(s, p, i)
    ensures Contains(s, p)
  {
    if !Contains(s, p) {
      FindNone(s, p, 0, i);
    }
  }

  lemma {:induction false} CharOccurs(s: string, i: int)
    requires 0 <= i < |s|
    ensures OccursAt(s, [s[i]], i) && Contains(s, [s[i]])
  {
    assert s[i..i + 1] == [s[i]];
    ContainsIntro(s, [s[i]], i);
  }

  lemma {:induction false} SliceOccurrence(s: string, lo: int, hi: int, q: string, j: int)
    requires 0 <= lo <= hi <= |s|
    requires OccursAt(s[lo..hi], q, j)
    ensures OccursAt(s, q, lo + j)
  {
    var u, v := s[lo..hi][j..j + |q|], s[lo + j..lo + j + |q|];
    assert forall k | 0 <= k < |u| :: u[k] == v[k];
    assert u == v;
  }

  /** A slice of a string without q has no q either. */
  lemma {:induction false} SliceAvoids(s: string, lo: int, hi: int, q: string)
    requires 0 <= lo <= hi <= |s|
    requires !Contains(s, q)
    ensures !Contains(s[lo..hi], q)
  {
    if Contains(s[lo..hi], q) {
      SliceOccurrence(s, lo, hi, q, Find(s[lo..hi], q, 0).value);
      ContainsIntro(s, q, lo + Find(s[lo..hi], q, 0).value);
    }
  }

  /** The length of the longest run of characters satisfying p that starts at i. */
  function Run(s: string, i: nat, p: char -> bool): (n: nat)
    requires i <= |s|
    ensures i + n <= |s|
    ensures forall k :: i <= k < i + n ==> p(s[k])
    ensures i + n < |s| ==> !p(s[i + n])
    decreases |s| - i
  {
    if i < |s| && p(s[i]) then 1 + Run(s, i + 1, p) else 0
  }

  /** A qualifying character at j extends the run from j + 1 by one. */
  lemma {:induction false} RunStep(s: string, j: nat, p: char -> bool)
    requires j < |s|
    ensures p(s[j]) ==> Run(s, j, p) == 1 + Run(s, j + 1, p)
  {
  }

  /** str.count(c). */
  function CountChar(s: string, c: char): nat {
    if s == [] then 0 else (if s[0] == c then 1 else 0) + CountChar(s[1..], c)
  }

  function StripLeft(s: string): string {
    if s != [] && IsSpace(s[0]) then StripLeft(s[1..]) else s
  }

  function StripRight(s: string): string {
    if s != [] && IsSpace(s[|s| - 1]) then StripRight(s[..|s| - 1]) else s
  }

  /** lstrip() drops exactly the leading whitespace. */
  lemma {:induction false} StripLeftSpec(s: string)
    ensures |StripLeft(s)| <= |s| && StripLeft(s) == s[|s| - |StripLeft(s)|..]
    ensures forall i :: 0 <= i < |s| - |StripLeft(s)| ==> IsSpace(s[i])
    ensures StripLeft(s) == [] || !IsSpace(StripLeft(s)[0])
    decreases |s|
  {
    if s != [] && IsSpace(s[0]) {
      StripLeftSpec(s[1..]);
      assert forall i :: 1 <= i < |s| ==> s[i] == s[1..][i - 1];
    }
  }

  /** rstrip() drops exactly the trailing whitespace. */
  lemma {:induction false} StripRightSpec(s: string)
    ensures |StripRight(s)| <= |s| && StripRight(s) == s[..|StripRight(s)|]
    ensures forall i :: |StripRight(s)| <= i < |s| ==> IsSpace(s[i])
    ensures StripRight(s) == [] || !IsSpace(StripRight(s)[|StripRight(s)| - 1])
    decreases |s|
  {
    if s != [] && IsSpace(s[|s| - 1]) {
      StripRightSpec(s[..|s| - 1]);
      assert forall i :: 0 <= i < |s| - 1 ==> s[i] == s[..|s| - 1][i];
    }
  }

  /** r is s with the whitespace before index i and after i + |r| cut off. */
  ghost predicate StrippedAt(s: string, r: string, i: int) {
    && 0 <= i && i + |r| <= |s| && s[i..i + |r|] == r
    && (forall k :: 0 <= k < i ==> IsSpace(s[k]))
    && (forall k :: i + |r| <= k < |s| ==> IsSpace(s[k]))
  }

  /** str.strip(): whitespace cut from both ends. */
  function Strip(s: string): string {
    StripRight(StripLeft(s))
  }

  /** strip() leaves the slice of s between its leading and its trailing whitespace. */
  lemma {:induction false} StripSpec(s: string)
    ensures var r := Strip(s); r == [] || (!IsSpace(r[0]) && !IsSpace(r[|r| - 1]))
    ensures StrippedAt(s, Strip(s), |s| - |StripLeft(s)|)
  {
    StripLeftSpec(s);
    StripRightSpec(StripLeft(s));
    StripCompose(s, StripLeft(s), Strip(s));
  }

  /** Cutting leading whitespace (giving l) and then trailing whitespace (giving r) leaves r in place in s. */
  lemma {:induction false} StripCompose(s: string, l: string, r: string)
    requires |l| <= |s| && l == s[|s| - |l|..] && forall i :: 0 <= i < |s| - |l| ==> IsSpace(s[i])
    requires |r| <= |l| && r == l[..|r|] && forall i :: |r| <= i < |l| ==> IsSpace(l[i])
    ensures StrippedAt(s, r, |s| - |l|)
  {
    var i := |s| - |l|;
    assert forall k :: 0 <= k < |r| ==> r[k] == s[i + k];
    assert forall k :: i + |r| <= k < |s| ==> s[k] == l[k - i];
  }

  lemma {:induction false} StripNoop(s: string)
    requires s == [] || (!IsSpace(s[0]) && !IsSpace(s[|s| - 1]))
    ensures Strip(s) == s
  {
  }

  /** strip() adds no character. */
  lemma {:induction false} StripKeepsOut(s: string, c: char)
    requires c !in s
    ensures c !in Strip(s)
  {
    StripSpec(s);
    var r, i := Strip(s), |s| - |StripLeft(s)|;
    assert forall k :: 0 <= k < |r| ==> r[k] == s[i + k];
  }

  lemma {:induction false} StripIsSubstring(s: string)
    ensures Contains(s, Strip(s))
  {
    StripSpec(s);
    ContainsIntro(s, Strip(s), |s| - |StripLeft(s)|);
  }

  /** str.replace(p, n): every occurrence, found left to right without overlap, replaced. */
  function Replace(s: string, p: string, n: string): (r: string)
    requires p != []
    decreases |s|
  {
    match Find(s, p, 0)
    case None => s
    case Some(i) => s[..i] + n + Replace(s[i + |p|..], p, n)
  }

  /** Without an occurrence of p, replace changes nothing. */
  lemma {:induction false} ReplaceAbsent(s: string, p: string, n: string)
    requires p != [] && !Contains(s, p)
    ensures Replace(s, p, n) == s
  {
  }

  /** The part of s before the first occurrence of p contains no p. */
  lemma {:induction false} PrefixBeforeFirst(s: string, p: string, i: nat)
    requires p != [] && i <= |s| && Find(s, p, 0) == Some(i)
    ensures !Contains(s[..i], p)
  {
    if Contains(s[..i], p) {
      var j := Find(s[..i], p, 0).value;
      assert s[..i] == s[0..i];
      SliceOccurrence(s, 0, i, p, j);
      FindIsFirst(s, p, 0, j);
    }
  }

  /** Deleting a character with replace leaves none of it behind. */
  lemma {:induction false} ReplaceDeletesChar(s: string, c: char)
    ensures c !in Replace(s, [c], "")
    decreases |s|
  {
    match Find(s, [c], 0)
    case None =>
      if c in s {
        var k :| 0 <= k < |s| && s[k] == c;
        CharOccurs(s, k);
      }
    case Some(i) =>
      ReplaceDeletesChar(s[i + 1..], c);
      PrefixBeforeFirst(s, [c], i);
      if c in s[..i] {
        var k :| 0 <= k < i && s[..i][k] == c;
        CharOccurs(s[..i], k);
      }
  }

  /** An occurrence of q lies clear of every position holding a character q lacks. */
  lemma {:induction false} OccurrenceAvoids(s: string, q: string, i: int, k: int)
    requires OccursAt(s, q, i) && 0 <= k < |s| && s[k] !in q
    ensures k < i || i + |q| <= k
  {
  }

  /** A slice inside the left part of x + y is a slice of x. */
  lemma {:induction false} SliceOfLeft(x: string, y: string, i: nat, n: nat)
    requires i + n <= |x|
    ensures (x + y)[i..i + n] == x[i..i + n]
  {
    var u, v := (x + y)[i..i + n], x[i..i + n];
    assert forall k :: 0 <= k < n ==> u[k] == v[k];
  }

  /** A slice inside the right part of x + y is a slice of y. */
  lemma {:induction false} SliceOfRight(x: string, y: string, i: nat, n: nat)
    requires |x| <= i && i + n <= |x| + |y|
    ensures (x + y)[i..i + n] == y[i - |x|..i - |x| + n]
  {
    var u, v := (x + y)[i..i + n], y[i - |x|..i - |x| + n];
    assert forall k :: 0 <= k < n ==> u[k] == v[k];
  }

  /** q cannot straddle a character it does not contain. */
  lemma {:induction false} NoOccurrenceAcross(a: string, c: char, b: string, q: string)
    requires q != [] && c !in q
    requires !Contains(a, q) && !Contains(b, q)
    ensures !Contains(a + [c] + b, q)
  {
    var s := a + [c] + b;
    if Contains(s, q) {
      var i := Find(s, q, 0).value;
      assert s[|a|] == c;
      OccurrenceAvoids(s, q, i, |a|);
      if i + |q| <= |a| {
        SliceOfLeft(a, [c] + b, i, |q|);
        ContainsIntro(a, q, i);
      } else {
        SliceOfRight(a + [c], b, i, |q|);
        assert a + [c] + b == (a + [c]) + b;
        ContainsIntro(b, q, i - |a| - 1);
      }
    }
  }

  /**
   * Replacing p by a text fenced with a character c that q lacks creates no
   * occurrence of q, and removes every q when q is p itself.
   */
  lemma {:induction false} ReplaceKeepsOut(s: string, p: string, c: char, d: string, q: string)
    requires p != [] && q != [] && c !in q && !Contains(d, q)
    requires q == p || !Contains(s, q)
    ensures !Contains(Replace(s, p, [c] + d + [c]), q)
    decreases |s|
  {
    var n := [c] + d + [c];
    if Find(s, p, 0).Some? {
      var i := Find(s, p, 0).value;
      PiecesAvoid(s, p, q, i);
      ReplaceKeepsOut(s[i + |p|..], p, c, d, q);
      FencedJoinAvoids(s[..i], c, d, Replace(s[i + |p|..], p, n), q);
      ReplaceUnfold(s, p, n);
    }
  }

  /** Around the first p, neither side holds q (when q is p, or s has no q). */
  lemma {:induction false} PiecesAvoid(s: string, p: string, q: string, i: nat)
    requires p != [] && Find(s, p, 0) == Some(i)
    requires q == p || !Contains(s, q)
    ensures !Contains(s[..i], q)
    ensures q == p || !Contains(s[i + |p|..], q)
  {
    if q == p {
      PrefixBeforeFirst(s, p, i);
    } else {
      SliceAvoids(s, 0, i, q);
      assert s[0..i] == s[..i];
      SliceAvoids(s, i + |p|, |s|, q);
      assert s[i + |p|..|s|] == s[i + |p|..];
    }
  }

  /** Gluing q-free pieces with a text fenced by c, a character q lacks, makes no q. */
  lemma {:induction false} FencedJoinAvoids(pre: string, c: char, d: string, r: string, q: string)
    requires q != [] && c !in q
    requires !Contains(pre, q) && !Contains(d, q) && !Contains(r, q)
    ensures !Contains(pre + ([c] + d + [c]) + r, q)
  {
    NoOccurrenceAcross(pre, c, d, q);
    NoOccurrenceAcross(pre + [c] + d, c, r, q);
    assert pre + ([c] + d + [c]) + r == (pre + [c] + d) + [c] + r;
  }

  /** Replace rewrites the first occurrence and carries on after it. */
  lemma {:induction false} ReplaceUnfold(s: string, p: string, n: string)
    requires p != [] && Find(s, p, 0).Some?
    ensures var i := Find(s, p, 0).value; Replace(s, p, n) == s[..i] + n + Replace(s[i + |p|..], p, n)
  {
  }

  /** s with every c deleted, character by character. */
  function RemoveChar(s: string, c: char): (r: string)
    ensures c !in r && |r| <= |s|
    decreases |s|
  {
    if s == [] then [] else (if s[0] == c then [] else [s[0]]) + RemoveChar(s[1..], c)
  }

  /** Deleting from a concatenation deletes from each part. */
  lemma {:induction false} RemoveCharAppend(a: string, b: string, c: char)
    ensures RemoveChar(a + b, c) == RemoveChar(a, c) + RemoveChar(b, c)
    decreases |a|
  {
    if a == [] {
      assert a + b == b;
    } else {
      var head := if a[0] == c then [] else [a[0]];
      calc {
        RemoveChar(a + b, c);
        { assert (a + b)[0] == a[0] && (a + b)[1..] == a[1..] + b; }
        head + RemoveChar(a[1..] + b, c);
        { RemoveCharAppend(a[1..], b, c); }
        head + (RemoveChar(a[1..], c) + RemoveChar(b, c));
        RemoveChar(a, c) + RemoveChar(b, c);
      }
    }
  }

  /** A string without c is its own deletion. */
  lemma {:induction false} RemoveCharAbsent(s: string, c: char)
    requires c !in s
    ensures RemoveChar(s, c) == s
    decreases |s|
  {
    if s != [] {
      assert forall k :: 0 <= k < |s| - 1 ==> s[1..][k] == s[k + 1];
      RemoveCharAbsent(s[1..], c);
      assert s == [s[0]] + s[1..];
    }
  }

  /** replace(c, "") deletes exactly the occurrences of c and keeps the rest in order. */
  lemma {:induction false} ReplaceCharIsRemove(s: string, c: char)
    ensures Replace(s, [c], "") == RemoveChar(s, c)
    decreases |s|
  {
    if Find(s, [c], 0).Some? {
      var i := Find(s, [c], 0).value;
      calc {
        Replace(s, [c], "");
        { ReplaceUnfold(s, [c], ""); }
        s[..i] + "" + Replace(s[i + 1..], [c], "");
        { ReplaceCharIsRemove(s[i + 1..], c); assert s[..i] + "" == s[..i]; }
        s[..i] + RemoveChar(s[i + 1..], c);
        { RemoveAtFirst(s, c, i); }
        RemoveChar(s, c);
      }
    } else {
      FindCharAbsent(s, c);
      RemoveCharAbsent(s, c);
      ReplaceAbsent(s, [c], "");
    }
  }

  /** Without a find, the character is absent. */
  lemma {:induction false} FindCharAbsent(s: string, c: char)
    requires Find(s, [c], 0).None?
    ensures c !in s
  {
    if c in s {
      var k :| 0 <= k < |s| && s[k] == c;
      CharOccurs(s, k);
    }
  }

  /** Deleting c from s, split at its first c. */
  lemma {:induction false} RemoveAtFirst(s: string, c: char, i: nat)
    requires Find(s, [c], 0) == Some(i)
    ensures RemoveChar(s, c) == s[..i] + RemoveChar(s[i + 1..], c)
  {
    var a, rest := s[..i], s[i + 1..];
    PrefixBeforeFirst(s, [c], i);
    FindCharAbsent(a, c);
    assert s[i] == s[i..i + 1][0];
    calc {
      RemoveChar(s, c);
      { assert s == a + ([c] + rest); }
      RemoveChar(a + ([c] + rest), c);
      { RemoveCharAppend(a, [c] + rest, c); }
      RemoveChar(a, c) + RemoveChar([c] + rest, c);
      { RemoveCharAbsent(a, c); assert ([c] + rest)[1..] == rest; }
      a + RemoveChar(rest, c);
    }
  }

  /**
   * s splits at p into parts, read left to right without overlap: no
   * occurrence of p starts inside a part (reading on into the p after it),
   * and the last part has none. These are the pieces str.split(p) gives.
   */
  predicate SeparatedBy(parts: seq<string>, p: string) {
    && |parts| >= 1
    && (forall k, j :: 0 <= k < |parts| - 1 && 0 <= j < |parts[k]| ==> !OccursAt(parts[k] + p, p, j))
    && !Contains(parts[|parts| - 1], p)
  }

  /** The first p in a + p + b is the one after a when none starts inside a. */
  lemma {:induction false} FirstSeparator(a: string, p: string, b: string)
    requires forall j :: 0 <= j < |a| ==> !OccursAt(a + p, p, j)
    ensures Find(a + p + b, p, 0) == Some(|a|)
  {
    var s := a + p + b;
    assert s[|a|..|a| + |p|] == p;
    forall m | 0 <= m < |a|
      ensures !OccursAt(s, p, m)
    {
      assert !OccursAt(a + p, p, m);
      SliceOfLeft(a + p, b, m, |p|);
    }
    FindAt(s, p, 0, |a|);
  }

  /** str.replace(p, n) puts n between the pieces s splits into at p. */
  lemma {:induction false} ReplaceIsJoin(parts: seq<string>, p: string, n: string)
    requires p != [] && SeparatedBy(parts, p)
    ensures Replace(Join(parts, p), p, n) == Join(parts, n)
    decreases |parts|
  {
    if |parts| == 1 {
      ReplaceAbsent(parts[0], p, n);
    } else {
      var a, rest := parts[0], parts[1..];
      var s := Join(parts, p);
      assert s == a + p + Join(rest, p);
      assert SeparatedBy(rest, p) by {
        forall k, j | 0 <= k < |rest| - 1 && 0 <= j < |rest[k]|
          ensures !OccursAt(rest[k] + p, p, j)
        {
          assert rest[k] == parts[k + 1];
        }
        assert rest[|rest| - 1] == parts[|parts| - 1];
      }
      FirstSeparator(a, p, Join(rest, p));
      ReplaceUnfold(s, p, n);
      assert s[..|a|] == a;
      assert s[|a| + |p|..] == Join(rest, p);
      ReplaceIsJoin(rest, p, n);
    }
  }

  /** Every string splits at p into such pieces. */
  lemma {:induction false} SeparationExists(s: string, p: string) returns (parts: seq<string>)
    requires p != []
    ensures SeparatedBy(parts, p) && Join(parts, p) == s
    decreases |s|
  {
    if Find(s, p, 0).None? {
      parts := [s];
    } else {
      var i := Find(s, p, 0).value;
      var a := s[..i];
      var rest := SeparationExists(s[i + |p|..], p);
      parts := [a] + rest;
      assert s == (a + p) + s[i + |p|..];
      forall j | 0 <= j < |a|
        ensures !OccursAt(a + p, p, j)
      {
        SliceOfLeft(a + p, s[i + |p|..], j, |p|);
        FindIsFirst(s, p, 0, j);
      }
      assert forall k :: 1 <= k < |parts| ==> parts[k] == rest[k - 1];
      assert Join(parts, p) == a + p + Join(rest, p);
    }
  }

  /** sep.join(parts). */
  function Join(parts: seq<string>, sep: string): string {
    if parts == [] then ""
    else if |parts| == 1 then parts[0]
    else parts[0] + sep + Join(parts[1..], sep)
  }

  /** str.split(c): the pieces between the occurrences of c; joining them back gives s. */
  function Split(s: string, c: char): (parts: seq<string>)
    ensures |parts| >= 1
    ensures forall k :: 0 <= k < |parts| ==> c !in parts[k]
    ensures Join(parts, [c]) == s
    decreases |s|
  {
    match Find(s, [c], 0)
    case None =>
      assert c !in s by {
        if c in s {
          var k :| 0 <= k < |s| && s[k] == c;
          CharOccurs(s, k);
        }
      }
      [s]
    case Some(i) =>
      assert c !in s[..i] by {
        PrefixBeforeFirst(s, [c], i);
        if c in s[..i] {
          var k :| 0 <= k < i && s[..i][k] == c;
          CharOccurs(s[..i], k);
        }
      }
      assert s == s[..i] + [c] + s[i + 1..];
      [s[..i]] + Split(s[i + 1..], c)
  }

  /** A character find reports is in s. */
  lemma {:induction false} FindCharIn(s: string, c: char)
    ensures Find(s, [c], 0).Some? ==> c in s
  {
    if Find(s, [c], 0).Some? {
      var j := Find(s, [c], 0).value;
      assert s[j] == s[j..j + 1][0];
    }
  }

  /** A character absent from s is not found. */
  lemma {:induction false} FindNoChar(s: string, c: char)
    requires c !in s
    ensures Find(s, [c], 0).None?
  {
    FindCharIn(s, c);
  }

  /** The first occurrence of a character is where find reports it. */
  lemma {:induction false} FindFirstChar(s: string, c: char, i: int)
    requires 0 <= i < |s| && s[i] == c && c !in s[..i]
    ensures Find(s, [c], 0) == Some(i)
  {
    CharOccurs(s, i);
    var j := Find(s, [c], 0).value;
    if j < i {
    } else if j > i {
      FindIsFirst(s, [c], 0, i);
    }
  }

  /** Splitting a join of c-free pieces on c gives the pieces back. */
  lemma {:induction false} SplitOfJoin(pieces: seq<string>, c: char)
    requires |pieces| >= 1 && forall k :: 0 <= k < |pieces| ==> c !in pieces[k]
    ensures Split(Join(pieces, [c]), c) == pieces
    decreases |pieces|
  {
    var s := Join(pieces, [c]);
    if |pieces| == 1 {
      FindNoChar(s, c);
    } else {
      var p0 := pieces[0];
      var rest := Join(pieces[1..], [c]);
      assert s == p0 + [c] + rest;
      assert s[..|p0|] == p0;
      FindFirstChar(s, c, |p0|);
      assert s[|p0| + 1..] == rest;
      SplitOfJoin(pieces[1..], c);
      assert pieces == [p0] + pieces[1..];
    }
  }

  function DigitChar(d: nat): char
    requires d < 10
  {
    ('0' as int + d) as char
  }

  /** str(n) for a non-negative int. */
  function NatToString(n: nat): (r: string)
    ensures |r| >= 1 && forall i :: 0 <= i < |r| ==> IsDigit(r[i])
  {
    if n < 10 then [DigitChar(n)] else NatToString(n / 10) + [DigitChar(n % 10)]
  }

  predicate AllDigits(s: string) {
    forall i :: 0 <= i < |s| ==> IsDigit(s[i])
  }

  /** The value of a string of decimal digits. */
  function DigitsValue(s: string): nat
    requires AllDigits(s)
  {
    if s == [] then 0 else DigitsValue(s[..|s| - 1]) * 10 + (s[|s| - 1] as int - '0' as int)
  }

  lemma {:induction false} DigitsValueOfNatToString(n: nat)
    ensures DigitsValue(NatToString(n)) == n
  {
    if n >= 10 {
      var s := NatToString(n);
      assert s[..|s| - 1] == NatToString(n / 10);
      DigitsValueOfNatToString(n / 10);
    }
  }

  /** int(s) for ASCII decimal literals: surrounding whitespace, an optional sign, digits. */
  function ParseInt(s: string): Option<int> {
    var t := Strip(s);
    if t != [] && (t[0] == '+' || t[0] == '-') then
      if |t| > 1 && AllDigits(t[1..]) then
        var v: int := DigitsValue(t[1..]);
        Some(if t[0] == '-' then -v else v)
      else None
    else if t != [] && AllDigits(t) then Some(DigitsValue(t))
    else None
  }

  /** int(str(n)) == n. */
  lemma {:induction false} ParseIntOfNatToString(n: nat)
    ensures ParseInt(NatToString(n)) == Some(n)
  {
    var s := NatToString(n);
    StripNoop(s);
    DigitsValueOfNatToString(n);
  }
}
