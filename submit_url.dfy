/**
 * Where the answer goes: the submit URL read from the quiz page's HTML
 * (form action, a fetch('.../submit') call in a script, or a submit-url
 * meta tag), the fallback to the language model's instructions, the checks
 * made on that value, and urljoin against the quiz page's URL.
 */
module SubmitUrl {
  import opened Wrappers
  import opened Strings
  import opened Json
  import opened Oracles
  import opened Scan

  /** The action of the first <form> that has an action attribute (soup.find("form", action=True)). */
  function FormAction(forms: seq<Form>): (r: Option<string>)
    ensures r.None? <==> forall k :: 0 <= k < |forms| ==> forms[k].action.None?
    ensures r.Some? ==> exists k :: 0 <= k < |forms| && forms[k].action == r
  {
    if forms == [] then None
    else if forms[0].action.Some? then forms[0].action
    else
      var r := FormAction(forms[1..]);
      assert forall k :: 1 <= k < |forms| ==> forms[k] == forms[1..][k - 1];
      r
  }

  /** The first <meta name="submit-url"> of the page. */
  function SubmitMeta(metas: seq<Meta>): (r: Option<Meta>)
    ensures r.Some? ==> r.value in metas && r.value.name == Some("submit-url")
    ensures r.None? <==> forall k :: 0 <= k < |metas| ==> metas[k].name != Some("submit-url")
  {
    if metas == [] then None
    else if metas[0].name == Some("submit-url") then Some(metas[0])
    else
      var r := SubmitMeta(metas[1..]);
      assert forall k :: 1 <= k < |metas| ==> metas[k] == metas[1..][k - 1];
      r
  }

  predicate IsQuoteMark(c: char) { c == '\'' || c == '"' }

  predicate NotQuoteMark(c: char) { !IsQuoteMark(c) }

  /**
   * The regex fetch\(\s*['"]([^'"]+/submit)['"] tried at index i: the
   * whitespace run is taken whole (a quote cannot be whitespace), and the
   * group is the whole quote-free run, which must end with /submit, have
   * at least one character before it, and be followed by a quote.
   */
  function FetchAt(s: string, i: nat): Option<string> {
    if OccursAt(s, "fetch(", i) then QuotedFrom(s, i + 6 + Run(s, i + 6, IsSpace)) else None
  }

  /** The quoted group when a quote opens at j. */
  function QuotedFrom(s: string, j: nat): Option<string> {
    if j < |s| && IsQuoteMark(s[j]) then SubmitGroup(s, j + 1, j + 1 + Run(s, j + 1, NotQuoteMark)) else None
  }

  /** The quote-free run s[a..e], when a closing quote follows it and it ends with /submit. */
  function SubmitGroup(s: string, a: nat, e: nat): Option<string>
    requires a <= e <= |s|
  {
    if e < |s| && e - a >= 8 && EndsWith(s[a..e], "/submit") then Some(s[a..e]) else None
  }

  /** u is a quote-free piece of s, at least eight long, ending with /submit. */
  predicate SubmitPiece(s: string, u: string) {
    && |u| >= 8 && EndsWith(u, "/submit")
    && (forall k :: 0 <= k < |u| ==> NotQuoteMark(u[k]))
    && Contains(s, u)
  }

  /** A match of the fetch pattern is a quote-free piece of s, at least eight long, ending with /submit. */
  lemma {:induction false} FetchAtSound(s: string, i: nat)
    ensures FetchAt(s, i).Some? ==> SubmitPiece(s, FetchAt(s, i).value)
  {
    if OccursAt(s, "fetch(", i) {
      QuotedFromSound(s, i + 6 + Run(s, i + 6, IsSpace));
    }
  }

  lemma {:induction false} QuotedFromSound(s: string, j: nat)
    ensures QuotedFrom(s, j).Some? ==> SubmitPiece(s, QuotedFrom(s, j).value)
  {
    if j < |s| && IsQuoteMark(s[j]) {
      SubmitGroupSound(s, j + 1, j + 1 + Run(s, j + 1, NotQuoteMark));
    }
  }

  lemma {:induction false} SubmitGroupSound(s: string, a: nat, e: nat)
    requires a <= |s| && e == a + Run(s, a, NotQuoteMark)
    ensures SubmitGroup(s, a, e).Some? ==> SubmitPiece(s, SubmitGroup(s, a, e).value)
  {
    if SubmitGroup(s, a, e).Some? {
      assert forall k :: 0 <= k < e - a ==> NotQuoteMark(s[a..e][k]);
      ContainsIntro(s, s[a..e], a);
    }
  }

  function FetchMatcher(s: string): nat -> Option<string> {
    (i: nat) => FetchAt(s, i)
  }

  /** re.search of the fetch pattern over the scripts' text. */
  function FetchTarget(scripts: string): (r: Option<string>)
    ensures r.Some? ==> EndsWith(r.value, "/submit") && Contains(scripts, r.value)
  {
    match FirstSome(FetchMatcher(scripts), 0, |scripts|)
    case Some(i) => FetchAtSound(scripts, i); FetchAt(scripts, i)
    case None => None
  }

  /**
   * _extract_submit_url_from_html: a non-empty form action (stripped), else
   * the fetch target in the scripts joined by newlines, else the non-empty
   * content of the submit-url meta (stripped), else None.
   */
  function ExtractSubmitUrlFromHtml(doc: Document): (r: Option<string>)
    ensures r.None? ==>
      (FormAction(doc.forms).None? || FormAction(doc.forms).value == "")
      && FetchTarget(Join(doc.scripts, "\n")).None?
    ensures (r.Some? && (FormAction(doc.forms).None? || FormAction(doc.forms).value == "")
      && FetchTarget(Join(doc.scripts, "\n")).None?) ==>
      SubmitMeta(doc.metas).Some? && SubmitMeta(doc.metas).value.content.Some?
      && r.value == Strip(SubmitMeta(doc.metas).value.content.value)
  {
    var action := FormAction(doc.forms);
    if action.Some? && action.value != "" then Some(Strip(action.value))
    else
      match FetchTarget(Join(doc.scripts, "\n"))
      case Some(u) => Some(u)
      case None =>
        match SubmitMeta(doc.metas)
        case Some(m) => if m.content.Some? && m.content.value != "" then Some(Strip(m.content.value)) else None
        case None => None
  }

  /**
   * Without a non-empty form action a fetch target in the scripts comes
   * before the meta; and nothing is found exactly when there is no
   * non-empty action, no fetch target and no non-empty meta content.
   */
  lemma {:induction false} ExtractSubmitUrlOrder(doc: Document)
    ensures var noAction := FormAction(doc.forms).None? || FormAction(doc.forms).value == "";
      noAction && FetchTarget(Join(doc.scripts, "\n")).Some? ==>
        ExtractSubmitUrlFromHtml(doc) == FetchTarget(Join(doc.scripts, "\n"))
    ensures ExtractSubmitUrlFromHtml(doc).None? <==>
      && (FormAction(doc.forms).None? || FormAction(doc.forms).value == "")
      && FetchTarget(Join(doc.scripts, "\n")).None?
      && (SubmitMeta(doc.metas).None? || SubmitMeta(doc.metas).value.content.None?
          || SubmitMeta(doc.metas).value.content.value == "")
  {
  }

  /** A non-empty form action decides, whatever the scripts and metas say. */
  lemma {:induction false} FormActionWins(doc: Document, scripts: seq<string>, metas: seq<Meta>)
    requires FormAction(doc.forms).Some? && FormAction(doc.forms).value != ""
    ensures ExtractSubmitUrlFromHtml(doc) == Some(Strip(FormAction(doc.forms).value))
    ensures ExtractSubmitUrlFromHtml(Document(doc.forms, scripts, metas)) == ExtractSubmitUrlFromHtml(doc)
  {
  }

  /** The fetch pattern at index 0, given where the opening quote (j) and the closing quote (e) are. */
  lemma {:induction false} FetchAtQuotes(s: string, j: nat, e: nat)
    requires OccursAt(s, "fetch(", 0) && 6 <= j < e < |s|
    requires 6 + Run(s, 6, IsSpace) == j && IsQuoteMark(s[j])
    requires j + 1 + Run(s, j + 1, NotQuoteMark) == e
    requires e - (j + 1) >= 8 && EndsWith(s[j + 1..e], "/submit")
    ensures FetchAt(s, 0) == Some(s[j + 1..e])
  {
    QuotedFromAt(s, j, e);
    SubmitGroupAt(s, j + 1, e);
  }

  /** With the opening quote at j and the closing one at e, the group tried is s[j + 1..e]. */
  lemma {:induction false} QuotedFromAt(s: string, j: nat, e: nat)
    requires j < |s| && IsQuoteMark(s[j])
    requires j + 1 + Run(s, j + 1, NotQuoteMark) == e
    ensures QuotedFrom(s, j) == SubmitGroup(s, j + 1, e)
  {
  }

  lemma {:induction false} SubmitGroupAt(s: string, a: nat, e: nat)
    requires a <= e < |s|
    requires e - a >= 8 && EndsWith(s[a..e], "/submit")
    ensures SubmitGroup(s, a, e) == Some(s[a..e])
  {
  }

  /** The fetch pattern tried at the start of a call fetch( '<url>' reads the url. */
  lemma {:induction false} FetchAtCall(ws: string, q: char, url: string, q2: char, rest: string)
    requires forall k :: 0 <= k < |ws| ==> IsSpace(ws[k])
    requires IsQuoteMark(q) && IsQuoteMark(q2)
    requires forall k :: 0 <= k < |url| ==> NotQuoteMark(url[k])
    requires |url| >= 8 && EndsWith(url, "/submit")
    ensures FetchAt("fetch(" + ws + [q] + url + [q2] + rest, 0) == Some(url)
  {
    var s := "fetch(" + ws + [q] + url + [q2] + rest;
    var j, e := 6 + |ws|, 7 + |ws| + |url|;
    CallLayout(s, ws, q, url, q2, rest);
    FetchAtLaidOut(s, j, url);
  }

  /** The fetch pattern at index 0 when whitespace runs to a quote at j and url is quoted after it. */
  lemma {:induction false} FetchAtLaidOut(s: string, j: nat, url: string)
    requires OccursAt(s, "fetch(", 0) && 6 <= j && j + 1 + |url| < |s|
    requires forall k :: 6 <= k < j ==> IsSpace(s[k])
    requires IsQuoteMark(s[j]) && IsQuoteMark(s[j + 1 + |url|])
    requires s[j + 1..j + 1 + |url|] == url
    requires forall k :: 0 <= k < |url| ==> NotQuoteMark(url[k])
    requires |url| >= 8 && EndsWith(url, "/submit")
    ensures FetchAt(s, 0) == Some(url)
  {
    var e := j + 1 + |url|;
    assert forall k :: j + 1 <= k < e ==> s[k] == url[k - (j + 1)];
    RunExact(s, 6, j, IsSpace);
    RunExact(s, j + 1, e, NotQuoteMark);
    FetchAtQuotes(s, j, e);
  }

  /** Where the pieces of a call fetch( '<url>' sit in its text. */
  lemma {:induction false} CallLayout(s: string, ws: string, q: char, url: string, q2: char, rest: string)
    requires s == "fetch(" + ws + [q] + url + [q2] + rest
    ensures OccursAt(s, "fetch(", 0) && s[6 + |ws|] == q && s[7 + |ws| + |url|] == q2
    ensures forall k :: 6 <= k < 6 + |ws| ==> s[k] == ws[k - 6]
    ensures s[7 + |ws|..7 + |ws| + |url|] == url
  {
    assert s[0..6] == "fetch(";
  }

  /** A script that starts with a call fetch( '<url>' to a url ending in /submit yields that url. */
  lemma {:induction false} FetchCallFound(ws: string, q: char, url: string, q2: char, rest: string)
    requires forall k :: 0 <= k < |ws| ==> IsSpace(ws[k])
    requires IsQuoteMark(q) && IsQuoteMark(q2)
    requires forall k :: 0 <= k < |url| ==> NotQuoteMark(url[k])
    requires |url| >= 8 && EndsWith(url, "/submit")
    ensures FetchTarget("fetch(" + ws + [q] + url + [q2] + rest) == Some(url)
  {
    var s := "fetch(" + ws + [q] + url + [q2] + rest;
    FetchAtCall(ws, q, url, q2, rest);
    FirstSomeAt(FetchMatcher(s), 0, |s|, 0);
  }

  /** A run that stops at j when everything from i to j qualifies and s[j] does not. */
  lemma {:induction false} RunExact(s: string, i: nat, j: nat, p: char -> bool)
    requires i <= j < |s| && !p(s[j])
    requires forall k :: i <= k < j ==> p(s[k])
    ensures Run(s, i, p) == j - i
    decreases j - i
  {
    if i < j {
      RunExact(s, i + 1, j, p);
    }
  }

  /**
   * The URL the answer is posted to, before validation: the HTML one when it
   * is non-empty, else instructions.get("submit_url"), which raises when the
   * instructions are not a dict.
   */
  function ChooseSubmitUrl(htmlUrl: Option<string>, instructions: Json): (r: Result<Json, Error>)
    ensures htmlUrl.Some? && htmlUrl.value != "" ==> r == Success(JString(htmlUrl.value))
    ensures (htmlUrl.None? || htmlUrl.value == "") && instructions.JObject? ==>
      r == Success(if "submit_url" in instructions.fields then instructions.fields["submit_url"] else JNull)
    ensures (htmlUrl.None? || htmlUrl.value == "") && !instructions.JObject? ==>
      r == Failure(NoAttribute(TypeName(instructions), "get"))
  {
    if htmlUrl.Some? && htmlUrl.value != "" then Success(JString(htmlUrl.value))
    else if instructions.JObject? then Success(Get(instructions.fields, "submit_url"))
    else Failure(NoAttribute(TypeName(instructions), "get"))
  }

  /** One of the words that mark a URL the model made up. */
  predicate HasBogusToken(s: string) {
    Contains(s, "origin") || Contains(s, "+") || Contains(s, "current")
  }

  /**
   * The checks solve_single_quiz makes before urljoin: present and not
   * "none", free of the made-up-URL words, and a string (urljoin refuses
   * anything else).
   */
  function ValidateSubmitUrl(u: Json): (r: Result<string, Error>)
    ensures r.Success? <==>
      u.JString? && u.s != "" && Lower(u.s) != "none" && !HasBogusToken(Lower(u.s))
    ensures r.Success? ==> u == JString(r.value)
    ensures !Truthy(u) ==> r == Failure(ValueError("No submit_url found in HTML or LLM output: " + ScalarStr(u).value))
  {
    match ScalarStr(u)
    case None =>
      Failure(TypeError("Cannot mix str and non-str arguments"))
    case Some(text) =>
      if !Truthy(u) || Lower(text) == "none" then
        Failure(ValueError("No submit_url found in HTML or LLM output: " + text))
      else if HasBogusToken(Lower(text)) then
        Failure(ValueError("Invalid submit_url returned by LLM: " + text))
      else if !u.JString? then
        Failure(TypeError("Cannot mix str and non-str arguments"))
      else
        Success(u.s)
  }

  /** A placeholder such as "origin + /submit" is refused, whatever its case. */
  lemma {:induction false} PlaceholderRejected(s: string)
    requires Contains(Lower(s), "origin") && Lower(s) != "none"
    ensures ValidateSubmitUrl(JString(s)) == Failure(ValueError("Invalid submit_url returned by LLM: " + s))
  {
    assert |Lower(s)| == |s|;
  }

  predicate IsSchemeChar(c: char) { IsAlnum(c) || c == '+' || c == '-' || c == '.' }

  /** The length of the scheme urlsplit finds: letters first, then scheme characters up to the first ':'. */
  function SchemeLength(s: string): (r: Option<nat>)
    ensures r.Some? ==> 0 < r.value < |s| && s[r.value] == ':'
  {
    match FirstIndexOf(s, ':')
    case None => None
    case Some(i) =>
      if i > 0 && (IsUpper(s[0]) || IsLower(s[0])) && forall k :: 0 <= k < i ==> IsSchemeChar(s[k]) then Some(i)
      else None
  }

  /** The base's scheme with its colon, lower-cased ("" when it has none). */
  function SchemePart(base: string): string {
    match SchemeLength(base)
    case Some(i) => Lower(base[..i]) + ":"
    case None => ""
  }

  /** What follows the scheme's colon. */
  function AfterScheme(base: string): (r: string)
    ensures |r| <= |base|
  {
    match SchemeLength(base)
    case Some(i) => base[i + 1..]
    case None => base
  }

  predicate NotNetlocEnd(c: char) { c != '/' && c != '?' && c != '#' }

  predicate NotPathEnd(c: char) { c != '?' && c != '#' }

  /** Scheme and network location of the base, as urlunparse writes them back. */
  function Authority(base: string): string {
    var rest := AfterScheme(base);
    if StartsWith(rest, "//") then SchemePart(base) + "//" + rest[2..2 + Run(rest, 2, NotNetlocEnd)]
    else SchemePart(base)
  }

  /** The base's path: after the network location, up to the query or fragment. */
  function PathOf(base: string): string {
    var rest := AfterScheme(base);
    var p := if StartsWith(rest, "//") then rest[2 + Run(rest, 2, NotNetlocEnd)..] else rest;
    p[..Run(p, 0, NotPathEnd)]
  }

  /** The directory of a path: up to and including its last '/'; "/" for the empty path. */
  function Directory(path: string): (r: string)
    ensures StartsWith(path, r) || r == "/"
  {
    match LastIndexOf(path, '/')
    case Some(k) => path[..k + 1]
    case None => if path == "" then "/" else ""
  }

  /**
   * urljoin(base, ref): a reference with a scheme stands alone, "//host..."
   * takes the base's scheme, "/path" the base's scheme and host, and
   * anything else replaces the last segment of the base's path.
   */
  function UrlJoin(base: string, ref: string): (r: string)
    ensures EndsWith(r, ref)
    ensures base != "" && SchemeLength(ref).Some? ==> r == ref
    ensures base == "" ==> r == ref
  {
    if base == "" then ref
    else if ref == "" then base
    else if SchemeLength(ref).Some? then ref
    else if StartsWith(ref, "//") then SchemePart(base) + ref
    else if StartsWith(ref, "/") then Authority(base) + ref
    else Authority(base) + Directory(PathOf(base)) + ref
  }

  /** A URL that starts with "https:" has the scheme https. */
  lemma {:induction false} HttpsScheme(base: string)
    requires StartsWith(base, "https:")
    ensures SchemePart(base) == "https:" && AfterScheme(base) == base[6..]
  {
    assert base[..6] == "https:";
    FirstIndexOfAt(base, ':', 5);
    assert base[..5] == "https";
    assert Lower("https") == "https";
  }

  /** The network location runs to the end of the host. */
  lemma {:induction false} HostRun(rest: string, host: string, path: string)
    requires rest == "//" + host + path
    requires forall k :: 0 <= k < |host| ==> NotNetlocEnd(host[k])
    requires path == "" || path[0] == '/'
    ensures Run(rest, 2, NotNetlocEnd) == |host|
  {
    assert forall k :: 2 <= k < 2 + |host| ==> rest[k] == host[k - 2];
    if path == "" {
      RunToEnd(rest, 2, NotNetlocEnd);
    } else {
      assert rest[2 + |host|] == '/';
      RunExact(rest, 2, 2 + |host|, NotNetlocEnd);
    }
  }

  /** An https URL's authority is its scheme and host. */
  lemma {:induction false} HttpsAuthority(host: string, path: string)
    requires host != [] && forall k :: 0 <= k < |host| ==> NotNetlocEnd(host[k])
    requires path == "" || path[0] == '/'
    ensures Authority("https://" + host + path) == "https://" + host
  {
    var base := "https://" + host + path;
    assert base[..6] == "https:";
    HttpsScheme(base);
    var rest := base[6..];
    assert rest == "//" + host + path;
    assert rest[..2] == "//";
    HostRun(rest, host, path);
    assert rest[2..2 + |host|] == host;
    assert Authority(base) == "https:" + "//" + host;
  }

  /** A root-relative submit path keeps the quiz page's scheme and host. */
  lemma {:induction false} UrlJoinRootRelative(host: string, path: string, ref: string)
    requires host != [] && forall k :: 0 <= k < |host| ==> NotNetlocEnd(host[k])
    requires path == "" || path[0] == '/'
    requires |ref| >= 1 && ref[0] == '/' && !StartsWith(ref, "//")
    ensures UrlJoin("https://" + host + path, ref) == "https://" + host + ref
  {
    HttpsAuthority(host, path);
    assert !(IsUpper(ref[0]) || IsLower(ref[0]));
    assert SchemeLength(ref).None?;
    assert StartsWith(ref, "/") by {
      assert ref[..1] == "/";
    }
  }

  /** A run that reaches the end of the string. */
  lemma {:induction false} RunToEnd(s: string, i: nat, p: char -> bool)
    requires i <= |s|
    requires forall k :: i <= k < |s| ==> p(s[k])
    ensures Run(s, i, p) == |s| - i
    decreases |s| - i
  {
    if i < |s| {
      RunToEnd(s, i + 1, p);
    }
  }
}
