/**
 * The text helpers of agent/quiz_solver.py: clean_code_fences,
 * extract_json_string and _extract_secret_from_text, each stated as the
 * regular-expression scan it performs.
 */
module QuizText {
  import opened Wrappers
  import opened Strings
  import opened Scan

  const Fence := "```"

  /**
   * re.findall(r'```[\s\S]*?```', s) from index pos: each match opens at the
   * next ``` and closes at the first ``` after it; the scan resumes after
   * the closing fence.
   */
  function Fences(s: string, pos: nat): (fs: seq<string>)
    requires pos <= |s|
    ensures forall k :: 0 <= k < |fs| ==> |fs[k]| >= 6 && StartsWith(fs[k], Fence) && EndsWith(fs[k], Fence)
    decreases |s| - pos
  {
    match Find(s, Fence, pos)
    case None => []
    case Some(i) =>
      match Find(s, Fence, i + 3)
      case None => []
      case Some(j) =>
        FenceSpan(s, i, j);
        [s[i..j + 3]] + Fences(s, j + 3)
  }

  /** From one fence to a later one, the span opens and closes with a fence. */
  lemma {:induction false} FenceSpan(s: string, i: nat, j: nat)
    requires OccursAt(s, Fence, i) && i + 3 <= j && OccursAt(s, Fence, j)
    ensures |s[i..j + 3]| >= 6 && StartsWith(s[i..j + 3], Fence) && EndsWith(s[i..j + 3], Fence)
  {
    var f := s[i..j + 3];
    assert f[..3] == s[i..i + 3];
    assert f[|f| - 3..] == s[j..j + 3];
  }

  /** max(fences, key=count('{')): the first of the fences with the most '{'. */
  function BestIndex(fs: seq<string>): (b: nat)
    requires |fs| >= 1
    ensures b < |fs|
    ensures forall k :: 0 <= k < |fs| ==> CountChar(fs[k], '{') <= CountChar(fs[b], '{')
    ensures forall k :: 0 <= k < b ==> CountChar(fs[k], '{') < CountChar(fs[b], '{')
    decreases |fs|
  {
    if |fs| == 1 then 0
    else
      var b := BestIndex(fs[..|fs| - 1]);
      if CountChar(fs[|fs| - 1], '{') > CountChar(fs[b], '{') then |fs| - 1 else b
  }

  /**
   * re.sub(r'^```\w*\n?', '', f): the opening fence, its language tag (the
   * whole run of word characters after it) and one newline go. What remains
   * is the end of f and still ends with the closing fence.
   */
  function StripOpening(f: string): (r: string)
    requires |f| >= 6 && StartsWith(f, Fence) && EndsWith(f, Fence)
    ensures |r| >= 3 && EndsWith(r, Fence)
    ensures 3 <= |f| - |r| && f[|f| - |r|..] == r
    ensures forall k :: 3 <= k < |f| - |r| ==> IsWordChar(f[k]) || (k == |f| - |r| - 1 && f[k] == '\n')
    ensures |f| - |r| == 3 || f[|f| - |r| - 1] != '\n' ==> !IsWordChar(r[0]) && r[0] != '\n'
  {
    var n := Run(f, 3, IsWordChar);
    TagRun(f, n);
    if f[3 + n] == '\n' then f[4 + n..] else f[3 + n..]
  }

  /** The language tag stops before the closing fence, whose backticks are not word characters. */
  lemma {:induction false} TagRun(f: string, n: nat)
    requires |f| >= 6 && EndsWith(f, Fence) && n == Run(f, 3, IsWordChar)
    ensures 3 + n <= |f| - 3 && !IsWordChar(f[3 + n])
    ensures f[3 + n] == '\n' ==> 4 + n <= |f| - 3
    ensures EndsWith(f[3 + n..], Fence)
    ensures f[3 + n] == '\n' ==> EndsWith(f[4 + n..], Fence)
  {
    assert f[|f| - 3..][0] == '`';
    assert !IsWordChar(f[|f| - 3]);
    assert f[3 + n..][|f[3 + n..]| - 3..] == f[|f| - 3..];
    if f[3 + n] == '\n' {
      assert f[4 + n..][|f[4 + n..]| - 3..] == f[|f| - 3..];
    }
  }

  /**
   * re.sub(r'\n?```$', '', x) on a text ending in ```: the fence and one
   * newline before it go, and nothing else.
   */
  function StripClosing(x: string): (r: string)
    requires EndsWith(x, Fence)
    ensures x == r + Fence || x == r + "\n" + Fence
    ensures x == r + Fence ==> r == [] || r[|r| - 1] != '\n'
  {
    var y := x[..|x| - 3];
    assert x == y + Fence;
    if y != [] && y[|y| - 1] == '\n' then
      assert y == y[..|y| - 1] + "\n";
      y[..|y| - 1]
    else y
  }

  /**
   * clean_code_fences: the trimmed inside of the fence with the most '{' when
   * there are fences; otherwise the text with every backtick deleted, trimmed.
   */
  function CleanCodeFences(text: string): (r: string)
    ensures text == "" ==> r == ""
    ensures Fences(text, 0) == [] ==> r == Strip(RemoveChar(text, '`'))
  {
    if text == "" then text
    else
      var fs := Fences(text, 0);
      if fs != [] then
        var best := fs[BestIndex(fs)];
        Strip(StripClosing(StripOpening(best)))
      else
        ReplaceCharIsRemove(text, '`');
        assert "`" == ['`'];
        Strip(Replace(text, "`", ""))
  }

  /**
   * With fences, the result is the trimmed inside of the first fence that
   * has the most '{'.
   */
  lemma {:induction false} CleanFencedBest(text: string, b: nat)
    requires var fs := Fences(text, 0);
      && b < |fs|
      && (forall k :: 0 <= k < |fs| ==> CountChar(fs[k], '{') <= CountChar(fs[b], '{'))
      && (forall k :: 0 <= k < b ==> CountChar(fs[k], '{') < CountChar(fs[b], '{'))
    ensures CleanCodeFences(text) == Strip(StripClosing(StripOpening(Fences(text, 0)[b])))
  {
    var fs := Fences(text, 0);
    BestIndexUnique(fs, b);
  }

  /** The index max() picks is the only first index with the largest count. */
  lemma {:induction false} BestIndexUnique(fs: seq<string>, b: nat)
    requires b < |fs|
    requires forall k :: 0 <= k < |fs| ==> CountChar(fs[k], '{') <= CountChar(fs[b], '{')
    requires forall k :: 0 <= k < b ==> CountChar(fs[k], '{') < CountChar(fs[b], '{')
    ensures BestIndex(fs) == b
  {
    var best := BestIndex(fs);
    assert CountChar(fs[best], '{') <= CountChar(fs[b], '{');
    assert CountChar(fs[b], '{') <= CountChar(fs[best], '{');
    assert !(b < best) && !(best < b);
  }

  /** Text without fences loses its backticks and is trimmed; without backticks it is only trimmed. */
  lemma {:induction false} CleanPlainText(text: string)
    requires Fences(text, 0) == []
    ensures CleanCodeFences(text) == Strip(RemoveChar(text, '`'))
    ensures '`' !in text ==> CleanCodeFences(text) == Strip(text)
  {
    if '`' !in text {
      RemoveCharAbsent(text, '`');
    }
  }

  /** Inline backticks go: "`42`" becomes "42". */
  lemma {:induction false} CleanInlineCode()
    ensures CleanCodeFences("`42`") == "42"
  {
    var s := "`42`";
    assert s[1] == '4' && s[2] == '2';
    assert Find(s, Fence, 4) == None;
    assert Find(s, Fence, 3) == None;
    assert !OccursAt(s, Fence, 2);
    assert Find(s, Fence, 2) == None;
    assert !OccursAt(s, Fence, 1);
    assert Find(s, Fence, 1) == None;
    assert !OccursAt(s, Fence, 0) by { assert s[0..3][1] == '4'; }
    assert Find(s, Fence, 0) == None;
    var t := "42";
    assert RemoveChar(s, '`') == t;
    assert !IsSpace(t[0]) && !IsSpace(t[|t| - 1]);
    assert StripLeft(t) == t;
    assert Strip(t) == t;
  }

  /** Only a backtick can start a fence. */
  lemma {:induction false} FenceStartsWithBacktick(s: string, j: nat)
    ensures OccursAt(s, Fence, j) ==> s[j] == '`'
  {
    if OccursAt(s, Fence, j) {
      assert s[j..j + 3][0] == s[j];
    }
  }

  /** The text between the fences of a single tagged block holds no backtick. */
  lemma {:induction false} SingleFenceInterior(lang: string, body: string)
    requires forall k :: 0 <= k < |lang| ==> IsWordChar(lang[k])
    requires '`' !in body
    ensures var text := Fence + lang + "\n" + body + "\n" + Fence;
      forall m :: 3 <= m < |text| - 3 ==> !OccursAt(text, Fence, m)
  {
    var text := Fence + lang + "\n" + body + "\n" + Fence;
    var mid := lang + "\n" + body + "\n";
    assert text == Fence + mid + Fence;
    forall k | 0 <= k < |mid|
      ensures mid[k] != '`'
    {
      if k < |lang| {
        assert mid[k] == lang[k];
      } else if |lang| < k < |lang| + 1 + |body| {
        assert mid[k] == body[k - |lang| - 1];
      }
    }
    forall m | 3 <= m < |text| - 3
      ensures !OccursAt(text, Fence, m)
    {
      FenceStartsWithBacktick(text, m);
      assert text[m] == mid[m - 3];
    }
  }

  /** A single tagged block is the one fence found. */
  lemma {:induction false} SingleFenceFound(lang: string, body: string)
    requires forall k :: 0 <= k < |lang| ==> IsWordChar(lang[k])
    requires '`' !in body
    ensures var text := Fence + lang + "\n" + body + "\n" + Fence;
      Fences(text, 0) == [text]
  {
    var text := Fence + lang + "\n" + body + "\n" + Fence;
    var close := |text| - 3;
    assert text[0..3] == Fence;
    FindAt(text, Fence, 0, 0);
    assert text[close..close + 3] == Fence;
    SingleFenceInterior(lang, body);
    FindAt(text, Fence, 3, close);
    assert Find(text, Fence, |text|).None? by {
      assert !OccursAt(text, Fence, |text|);
    }
    assert text[0..close + 3] == text;
  }

  /** Unwrapping a single tagged block leaves the body and the closing fence. */
  lemma {:induction false} SingleFenceOpening(lang: string, body: string)
    requires forall k :: 0 <= k < |lang| ==> IsWordChar(lang[k])
    ensures var text := Fence + lang + "\n" + body + "\n" + Fence;
      StripOpening(text) == body + "\n" + Fence
  {
    var rest := "\n" + body + "\n" + Fence;
    var text := Fence + lang + rest;
    assert text == Fence + lang + "\n" + body + "\n" + Fence;
    forall k | 3 <= k < 3 + |lang|
      ensures IsWordChar(text[k])
    {
      assert text[k] == lang[k - 3];
    }
    assert text[3 + |lang|] == '\n';
    RunFrom(text, 3, 3 + |lang|);
    assert text[4 + |lang|..] == body + "\n" + Fence;
  }

  /**
   * A reply that is one fenced block with a language tag is unwrapped
   * exactly: tag, newlines and fences go, and the body is trimmed.
   */
  lemma {:induction false} CleanSingleFence(lang: string, body: string)
    requires forall k :: 0 <= k < |lang| ==> IsWordChar(lang[k])
    requires '`' !in body
    ensures CleanCodeFences(Fence + lang + "\n" + body + "\n" + Fence) == Strip(body)
  {
    var text := Fence + lang + "\n" + body + "\n" + Fence;
    SingleFenceFound(lang, body);
    assert BestIndex([text]) == 0;
    SingleFenceOpening(lang, body);
    var x := body + "\n" + Fence;
    assert x[..|x| - 3] == body + "\n";
    assert (body + "\n")[..|body|] == body;
  }

  /** Word characters from i up to a non-word character at j make a run of length j - i. */
  lemma {:induction false} RunFrom(s: string, i: nat, j: nat)
    requires i <= j < |s| && !IsWordChar(s[j])
    requires forall k :: i <= k < j ==> IsWordChar(s[k])
    ensures Run(s, i, IsWordChar) == j - i
    decreases j - i
  {
    if i < j {
      RunFrom(s, i + 1, j);
    }
  }

  /**
   * The first '{' to the last '}' (or, failing that, '[' to ']'), as the
   * greedy search r'(\{[\s\S]*\})' finds it when started at index i.
   */
  function GroupAt(s: string, open: char, close: char, i: nat): Option<string> {
    if i < |s| && s[i] == open then
      match LastIndexOf(s, close)
      case Some(k) => if k > i then Some(s[i..k + 1]) else None
      case None => None
    else None
  }

  function GroupMatcher(s: string, open: char, close: char): nat -> Option<string> {
    (i: nat) => GroupAt(s, open, close, i)
  }

  /** re.search for an open...close group: the leftmost start that has a later close. */
  function SearchGroup(s: string, open: char, close: char): Option<string> {
    match FirstSome(GroupMatcher(s, open, close), 0, |s|)
    case Some(i) => GroupAt(s, open, close, i)
    case None => None
  }

  /** s has an `open` before its last `close`. */
  predicate HasPair(s: string, open: char, close: char) {
    FirstIndexOf(s, open).Some? && LastIndexOf(s, close).Some?
    && FirstIndexOf(s, open).value < LastIndexOf(s, close).value
  }

  /** The greedy search spans from the first `open` to the last `close`, when such a pair exists. */
  lemma {:induction false} SearchGroupSpan(s: string, open: char, close: char)
    ensures HasPair(s, open, close) ==>
      SearchGroup(s, open, close) == Some(s[FirstIndexOf(s, open).value..LastIndexOf(s, close).value + 1])
    ensures !HasPair(s, open, close) ==> SearchGroup(s, open, close).None?
  {
    var f := GroupMatcher(s, open, close);
    FirstIndexOfSpec(s, open);
    if HasPair(s, open, close) {
      var first := FirstIndexOf(s, open).value;
      FirstSomeAt(f, 0, |s|, first);
    } else {
      FirstSomeAllNone(f, 0, |s|);
    }
  }

  /** extract_json_string: the '{'...'}' group, else the '['...']' group, trimmed; None for empty text. */
  function ExtractJsonString(text: string): (r: Option<string>)
    ensures text == "" ==> r.None?
  {
    if text == "" then None
    else
      match SearchGroup(text, '{', '}')
      case Some(g) => Some(Strip(g))
      case None =>
        match SearchGroup(text, '[', ']')
        case Some(g) => Some(Strip(g))
        case None => None
  }

  /** The group found by the search is already trimmed. */
  lemma {:induction false} GroupSpanTrimmed(s: string, open: char, close: char)
    requires HasPair(s, open, close) && !IsSpace(open) && !IsSpace(close)
    ensures var i, k := FirstIndexOf(s, open).value, LastIndexOf(s, close).value;
      Strip(s[i..k + 1]) == s[i..k + 1] && Contains(s, s[i..k + 1])
  {
    var i, k := FirstIndexOf(s, open).value, LastIndexOf(s, close).value;
    assert i <= k < |s| && s[i] == open && s[k] == close;
    TrimmedSpan(s, i, k);
  }

  /** A span that starts and ends with non-space characters is its own strip() and occurs in s. */
  lemma {:induction false} TrimmedSpan(s: string, i: nat, k: nat)
    requires i <= k < |s| && !IsSpace(s[i]) && !IsSpace(s[k])
    ensures Strip(s[i..k + 1]) == s[i..k + 1] && Contains(s, s[i..k + 1])
  {
    var g := s[i..k + 1];
    assert g[0] == s[i] && g[|g| - 1] == s[k];
    StripNoop(g);
    ContainsIntro(s, g, i);
  }

  /** The object span wins whenever there is one, even after an earlier '['. */
  lemma {:induction false} ExtractJsonObject(text: string)
    requires HasPair(text, '{', '}')
    ensures ExtractJsonString(text) == Some(text[FirstIndexOf(text, '{').value..LastIndexOf(text, '}').value + 1])
    ensures Contains(text, ExtractJsonString(text).value)
  {
    SearchGroupSpan(text, '{', '}');
    GroupSpanTrimmed(text, '{', '}');
  }

  /** Without an object span, the array span is taken. */
  lemma {:induction false} ExtractJsonArray(text: string)
    requires !HasPair(text, '{', '}') && HasPair(text, '[', ']')
    ensures ExtractJsonString(text) == Some(text[FirstIndexOf(text, '[').value..LastIndexOf(text, ']').value + 1])
    ensures Contains(text, ExtractJsonString(text).value)
  {
    SearchGroupSpan(text, '{', '}');
    SearchGroupSpan(text, '[', ']');
    GroupSpanTrimmed(text, '[', ']');
  }

  /** With neither span, nothing is extracted. */
  lemma {:induction false} ExtractJsonNothing(text: string)
    requires !HasPair(text, '{', '}') && !HasPair(text, '[', ']')
    ensures ExtractJsonString(text).None?
  {
    SearchGroupSpan(text, '{', '}');
    SearchGroupSpan(text, '[', ']');
  }

  /** [A-Z0-9]. */
  predicate IsUpperOrDigit(c: char) { IsUpper(c) || IsDigit(c) }

  /** [A-Z0-9]{6,} at index i, greedy: the whole run when it is at least 6 long. */
  function CodeAt(s: string, i: nat): (r: Option<string>)
    ensures r.Some? ==> |r.value| >= 6
  {
    if i > |s| then None
    else
      var n := Run(s, i, IsUpperOrDigit);
      if n >= 6 then Some(s[i..i + n]) else None
  }

  function CodeMatcher(s: string): nat -> Option<string> {
    (i: nat) => CodeAt(s, i)
  }

  /** _extract_secret_from_text: the leftmost run of 6 or more [A-Z0-9], or "UNKNOWN". */
  function ExtractSecretFromText(text: string): (r: string)
    ensures |r| >= 6
  {
    match FirstSome(CodeMatcher(text), 0, |text|)
    case Some(i) => CodeAt(text, i).value
    case None => "UNKNOWN"
  }

  /**
   * The code found is a whole maximal run: it starts a run, takes all of it,
   * and every earlier run is shorter than 6.
   */
  lemma {:induction false} ExtractSecretIsMaximalRun(text: string)
    requires FirstSome(CodeMatcher(text), 0, |text|).Some?
    ensures var i := FirstSome(CodeMatcher(text), 0, |text|).value;
      && ExtractSecretFromText(text) == text[i..i + |ExtractSecretFromText(text)|]
      && (i == 0 || !IsUpperOrDigit(text[i - 1]))
      && (i + |ExtractSecretFromText(text)| == |text| || !IsUpperOrDigit(text[i + |ExtractSecretFromText(text)|]))
      && forall j :: 0 <= j < i ==> Run(text, j, IsUpperOrDigit) < 6
  {
    var f := CodeMatcher(text);
    var i := FirstSome(f, 0, |text|).value;
    assert ExtractSecretFromText(text) == CodeAt(text, i).value;
    CodeAtWholeRun(text, i);
    EarlierRunsShort(text, i);
    if i > 0 {
      RunStep(text, i - 1, IsUpperOrDigit);
    }
  }

  /** Before the first code, every run of [A-Z0-9] is shorter than 6. */
  lemma {:induction false} EarlierRunsShort(text: string, i: nat)
    requires FirstSome(CodeMatcher(text), 0, |text|) == Some(i)
    ensures forall j :: 0 <= j < i ==> Run(text, j, IsUpperOrDigit) < 6
  {
    forall j | 0 <= j < i
      ensures Run(text, j, IsUpperOrDigit) < 6
    {
      FirstSomeIsFirst(CodeMatcher(text), 0, |text|, j);
    }
  }

  /** A code found at i is the whole run there, ending at the string's end or a character outside the class. */
  lemma {:induction false} CodeAtWholeRun(s: string, i: nat)
    requires CodeAt(s, i).Some?
    ensures var v := CodeAt(s, i).value;
      i + |v| <= |s| && v == s[i..i + |v|] && (i + |v| == |s| || !IsUpperOrDigit(s[i + |v|]))
  {
  }

  /** With no run of 6, the answer is "UNKNOWN". */
  lemma {:induction false} ExtractSecretUnknown(text: string)
    requires forall j :: 0 <= j <= |text| ==> Run(text, j, IsUpperOrDigit) < 6
    ensures ExtractSecretFromText(text) == "UNKNOWN"
  {
    FirstSomeAllNone(CodeMatcher(text), 0, |text|);
  }
}
