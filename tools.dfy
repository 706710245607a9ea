/**
 * agent/tools.py: page fetching with the `atob("…")` de-obfuscation pass, and
 * the content-type dispatch of fetch_data. Base64 (section 4 of RFC 4648) and
 * UTF-8 decoding are partial oracles of the World.
 */
module Tools {
  import opened Wrappers
  import opened Json
  import opened Strings
  import opened Oracles

  /** The class [A-Za-z0-9+/=] of the atob pattern. */
  predicate IsB64Char(c: char) { IsAlnum(c) || c == '+' || c == '/' || c == '=' }

  /** The class ['"`] of the atob pattern. */
  predicate IsQuote(c: char) { c == '\'' || c == '"' || c == '`' }

  /**
   * The pattern atob\(['"`]([A-Za-z0-9+/=]+)['"`]\) at index i: the length of
   * its payload, which starts at i + 6. The greedy payload run can only end
   * at the first character outside the alphabet.
   */
  function AtobMatchAt(s: string, i: nat): (r: Option<nat>)
    requires i <= |s|
    ensures r.Some? ==> r.value >= 1 && i + 8 + r.value <= |s|
  {
    if OccursAt(s, "atob(", i) && i + 5 < |s| && IsQuote(s[i + 5]) then
      var n := Run(s, i + 6, IsB64Char);
      if n >= 1 && i + 7 + n < |s| && IsQuote(s[i + 6 + n]) && s[i + 7 + n] == ')' then Some(n) else None
    else None
  }

  /** re.findall of the atob pattern from index i: the payloads, left to right, without overlap. */
  function AtobPayloads(s: string, i: nat): (payloads: seq<string>)
    requires i <= |s|
    ensures forall k :: 0 <= k < |payloads| ==> payloads[k] != ""
    ensures forall k, j :: 0 <= k < |payloads| && 0 <= j < |payloads[k]| ==> IsB64Char(payloads[k][j])
    decreases |s| - i
  {
    match AtobMatchAt(s, i)
    case Some(n) => [s[i + 6..i + 6 + n]] + AtobPayloads(s, i + 8 + n)
    case None => if i == |s| then [] else AtobPayloads(s, i + 1)
  }

  function DqCall(e: string): string { "atob(\"" + e + "\")" }
  function SqCall(e: string): string { "atob('" + e + "')" }
  function BqCall(e: string): string { "atob(`" + e + "`)" }

  /**
   * One turn of the decoding loop: when the payload decodes, the three
   * matching-quote spellings of its call are replaced by the decoded text in
   * backticks; otherwise the text is left as it is.
   */
  function DecodeStep(w: World, s: string, e: string): (r: string)
    ensures w.b64DecodeText(e).None? ==> r == s
    ensures w.b64DecodeText(e).Some? && w.utf8Decode(w.b64DecodeText(e).value).None? ==> r == s
    ensures !Contains(s, DqCall(e)) && !Contains(s, SqCall(e)) && !Contains(s, BqCall(e)) ==> r == s
  {
    match w.b64DecodeText(e)
    case None => s
    case Some(bytes) =>
      match w.utf8Decode(bytes)
      case None => s
      case Some(d) =>
        var n := "`" + d + "`";
        Replace(Replace(Replace(s, DqCall(e), n), SqCall(e), n), BqCall(e), n)
  }

  /**
   * One decoding turn rewrites the text round by round: each round splits it
   * at the leftmost, non-overlapping occurrences of one spelling of the call
   * (the parts are the text between them) and joins the parts back with the
   * decoded text in backticks.
   */
  lemma {:induction false} DecodeStepRewrites(w: World, s: string, e: string,
                                              dqParts: seq<string>, sqParts: seq<string>, bqParts: seq<string>)
    requires w.b64DecodeText(e).Some? && w.utf8Decode(w.b64DecodeText(e).value).Some?
    requires var n := "`" + w.utf8Decode(w.b64DecodeText(e).value).value + "`";
      && SeparatedBy(dqParts, DqCall(e)) && Join(dqParts, DqCall(e)) == s
      && SeparatedBy(sqParts, SqCall(e)) && Join(sqParts, SqCall(e)) == Join(dqParts, n)
      && SeparatedBy(bqParts, BqCall(e)) && Join(bqParts, BqCall(e)) == Join(sqParts, n)
    ensures DecodeStep(w, s, e) == Join(bqParts, "`" + w.utf8Decode(w.b64DecodeText(e).value).value + "`")
  {
    var n := "`" + w.utf8Decode(w.b64DecodeText(e).value).value + "`";
    ReplaceIsJoin(dqParts, DqCall(e), n);
    ReplaceIsJoin(sqParts, SqCall(e), n);
    ReplaceIsJoin(bqParts, BqCall(e), n);
  }

  /** The decoding loop over a list of payloads. */
  function DecodeAll(w: World, s: string, payloads: seq<string>): string
    decreases |payloads|
  {
    if payloads == [] then s else DecodeAll(w, DecodeStep(w, s, payloads[0]), payloads[1..])
  }

  /** _decode_atob_content as a function of the page. */
  function DecodedAtob(w: World, html: string): string {
    DecodeAll(w, html, AtobPayloads(html, 0))
  }

  /** _decode_atob_content: the loop over the findall matches, rewriting the page. */
  method DecodeAtobContent(w: World, html: string) returns (decodedHtml: string)
    ensures decodedHtml == DecodedAtob(w, html)
  {
    var matches := AtobPayloads(html, 0);
    decodedHtml := html;
    var i := 0;
    while i < |matches|
      invariant 0 <= i <= |matches|
      invariant DecodeAll(w, decodedHtml, matches[i..]) == DecodedAtob(w, html)
    {
      var encoded := matches[i];
      match w.b64DecodeText(encoded) {
        case Some(bytes) =>
          match w.utf8Decode(bytes) {
            case Some(decoded) =>
              var n := "`" + decoded + "`";
              decodedHtml := Replace(decodedHtml, DqCall(encoded), n);
              decodedHtml := Replace(decodedHtml, SqCall(encoded), n);
              decodedHtml := Replace(decodedHtml, BqCall(encoded), n);
            case None =>
          }
        case None =>
      }
      assert matches[i..][1..] == matches[i + 1..];
      i := i + 1;
    }
  }

  /** Without any "atob(" the pattern finds nothing. */
  lemma {:induction false} NoAtobNoPayloads(s: string, i: nat)
    requires i <= |s| && !Contains(s, "atob(")
    ensures AtobPayloads(s, i) == []
    decreases |s| - i
  {
    FindNone(s, "atob(", 0, i);
    if i < |s| {
      NoAtobNoPayloads(s, i + 1);
    }
  }

  /** Where the pattern matches nowhere from i on, findall returns nothing. */
  lemma {:induction false} NoMatchNoPayloads(s: string, i: nat)
    requires i <= |s|
    requires forall j :: i <= j <= |s| ==> AtobMatchAt(s, j).None?
    ensures AtobPayloads(s, i) == []
    decreases |s| - i
  {
    if i < |s| {
      NoMatchNoPayloads(s, i + 1);
    }
  }

  /** A page where the atob pattern matches nowhere is returned unchanged by the decoder. */
  lemma {:induction false} DecodedAtobWithoutMatches(w: World, html: string)
    requires forall i :: 0 <= i <= |html| ==> AtobMatchAt(html, i).None?
    ensures DecodedAtob(w, html) == html
  {
    NoMatchNoPayloads(html, 0);
  }

  /** In particular a page without an atob( call is returned unchanged. */
  lemma {:induction false} DecodedAtobWithoutCalls(w: World, html: string)
    requires !Contains(html, "atob(")
    ensures DecodedAtob(w, html) == html
  {
    forall i | 0 <= i <= |html|
      ensures AtobMatchAt(html, i).None?
    {
      FindNone(html, "atob(", 0, i);
    }
    DecodedAtobWithoutMatches(w, html);
  }

  /** A payload that fails to decode is skipped; the later payloads are still processed. */
  lemma {:induction false} FailedPayloadSkipped(w: World, s: string, e: string, rest: seq<string>)
    requires w.b64DecodeText(e).None? || w.utf8Decode(w.b64DecodeText(e).value).None?
    ensures DecodeAll(w, s, [e] + rest) == DecodeAll(w, s, rest)
  {
    assert ([e] + rest)[1..] == rest;
  }

  /**
   * A payload that decodes to d (with d not itself spelling the call) leaves
   * no double- or single-quoted call of it behind: every occurrence was
   * replaced.
   */
  lemma {:induction false} DecodeStepRemovesQuotedCalls(w: World, s: string, e: string)
    requires forall j :: 0 <= j < |e| ==> IsB64Char(e[j])
    requires w.b64DecodeText(e).Some? && w.utf8Decode(w.b64DecodeText(e).value).Some?
    requires !Contains(w.utf8Decode(w.b64DecodeText(e).value).value, DqCall(e))
    requires !Contains(w.utf8Decode(w.b64DecodeText(e).value).value, SqCall(e))
    ensures !Contains(DecodeStep(w, s, e), DqCall(e))
    ensures !Contains(DecodeStep(w, s, e), SqCall(e))
  {
    var d := w.utf8Decode(w.b64DecodeText(e).value).value;
    var n := "`" + d + "`";
    assert n == ['`'] + d + ['`'];
    var dq, sq, bq := DqCall(e), SqCall(e), BqCall(e);
    assert '`' !in dq && '`' !in sq by {
      assert forall j :: 0 <= j < |e| ==> e[j] != '`';
    }
    var s1 := Replace(s, dq, n);
    ReplaceKeepsOut(s, dq, '`', d, dq);
    var s2 := Replace(s1, sq, n);
    ReplaceKeepsOut(s1, sq, '`', d, dq);
    ReplaceKeepsOut(s1, sq, '`', d, sq);
    ReplaceKeepsOut(s2, bq, '`', d, dq);
    ReplaceKeepsOut(s2, bq, '`', d, sq);
  }

  /** A call whose quotes do not match, atob('QQ=="), is found by the pattern but never rewritten. */
  lemma {:induction false} MismatchedQuotesUntouched(w: World)
    ensures AtobPayloads("atob('QQ==\")", 0) == ["QQ=="]
    ensures DecodedAtob(w, "atob('QQ==\")") == "atob('QQ==\")"
  {
    var s := "atob('QQ==\")";
    assert OccursAt(s, "atob(", 0);
    assert Run(s, 10, IsB64Char) == 0;
    assert Run(s, 6, IsB64Char) == 4;
    assert AtobMatchAt(s, 0) == Some(4);
    assert AtobPayloads(s, 12) == [];
    assert s[6..10] == "QQ==";
    var e := "QQ==";
    assert s[0..12][5] != DqCall(e)[5] && s[0..12][10] != SqCall(e)[10] && s[0..12][5] != BqCall(e)[5];
    NotContains(s, DqCall(e));
    NotContains(s, SqCall(e));
    NotContains(s, BqCall(e));
    assert DecodeStep(w, s, e) == s;
    assert ["QQ=="][1..] == [];
  }

  /** fetch_page: GET, status check, then the decoder when the page mentions atob( or btoa(. */
  function FetchPage(w: World, url: string): (r: Result<string, Error>)
    ensures w.httpGet(url).Failure? ==> r == Failure(w.httpGet(url).error)
    ensures w.httpGet(url).Success? && !(200 <= w.httpGet(url).value.status < 300) ==> r.Failure? && r.error.HttpStatusError?
  {
    match w.httpGet(url)
    case Failure(e) => Failure(e)
    case Success(resp) =>
      match RaiseForStatus(resp)
      case Failure(e) => Failure(e)
      case Success(_) =>
        var content := resp.text;
        if Contains(content, "atob(") || Contains(content, "btoa(") then Success(DecodedAtob(w, content))
        else Success(content)
  }

  /** The decoding loop consults only the base64 and UTF-8 decoders. */
  lemma {:induction false} DecodeAllSameDecoders(w1: World, w2: World, s: string, payloads: seq<string>)
    requires w1.b64DecodeText == w2.b64DecodeText && w1.utf8Decode == w2.utf8Decode
    ensures DecodeAll(w1, s, payloads) == DecodeAll(w2, s, payloads)
    decreases |payloads|
  {
    if payloads != [] {
      assert DecodeStep(w1, s, payloads[0]) == DecodeStep(w2, s, payloads[0]);
      DecodeAllSameDecoders(w1, w2, DecodeStep(w1, s, payloads[0]), payloads[1..]);
    }
  }

  /** fetch_page consults only GET and the decoders: every other service may answer anything. */
  lemma {:induction false} FetchPageSameServices(w1: World, w2: World, url: string)
    requires w1.httpGet == w2.httpGet
    requires w1.b64DecodeText == w2.b64DecodeText && w1.utf8Decode == w2.utf8Decode
    ensures FetchPage(w1, url) == FetchPage(w2, url)
  {
    if w1.httpGet(url).Success? {
      DecodeAllSameDecoders(w1, w2, w1.httpGet(url).value.text, AtobPayloads(w1.httpGet(url).value.text, 0));
    }
  }

  /** A successful fetch of a page without atob( calls returns the body exactly. */
  lemma {:induction false} FetchPageVerbatim(w: World, url: string)
    requires w.httpGet(url).Success? && 200 <= w.httpGet(url).value.status < 300
    requires !Contains(w.httpGet(url).value.text, "atob(")
    ensures FetchPage(w, url) == Success(w.httpGet(url).value.text)
  {
    DecodedAtobWithoutCalls(w, w.httpGet(url).value.text);
  }

  /** A successful fetch of a page with an atob( call returns the decoded page. */
  lemma {:induction false} FetchPageDecodes(w: World, url: string)
    requires w.httpGet(url).Success? && 200 <= w.httpGet(url).value.status < 300
    requires Contains(w.httpGet(url).value.text, "atob(")
    ensures FetchPage(w, url) == Success(DecodedAtob(w, w.httpGet(url).value.text))
  {
  }

  /** How fetch_data treats a body, by Content-Type. */
  datatype ContentKind = JsonBody | PdfBody | CsvBody | ExcelBody | TextBody

  /** The content-type dispatch: json, then pdf, then csv or text/plain, then excel or spreadsheet. */
  function ContentKindOf(contentType: string): (k: ContentKind)
    ensures k == JsonBody <==> Contains(contentType, "json")
    ensures k == PdfBody <==> !Contains(contentType, "json") && Contains(contentType, "pdf")
    ensures k == CsvBody <==>
      !Contains(contentType, "json") && !Contains(contentType, "pdf")
      && (Contains(contentType, "csv") || Contains(contentType, "text/plain"))
    ensures k == ExcelBody <==>
      !Contains(contentType, "json") && !Contains(contentType, "pdf")
      && !Contains(contentType, "csv") && !Contains(contentType, "text/plain")
      && (Contains(contentType, "excel") || Contains(contentType, "spreadsheet"))
    ensures k == TextBody <==>
      !Contains(contentType, "json") && !Contains(contentType, "pdf")
      && !Contains(contentType, "csv") && !Contains(contentType, "text/plain")
      && !Contains(contentType, "excel") && !Contains(contentType, "spreadsheet")
  {
    if Contains(contentType, "json") then JsonBody
    else if Contains(contentType, "pdf") then PdfBody
    else if Contains(contentType, "csv") || Contains(contentType, "text/plain") then CsvBody
    else if Contains(contentType, "excel") || Contains(contentType, "spreadsheet") then ExcelBody
    else TextBody
  }

  /** Content types that mention several kinds go to the earliest in the order. */
  lemma {:induction false} ContentKindJsonFirst()
    ensures ContentKindOf("text/plain+json") == JsonBody
  {
    assert OccursAt("text/plain+json", "json", 11);
    ContainsIntro("text/plain+json", "json", 11);
  }

  /** A CSV body is not mistaken for JSON or PDF. */
  lemma {:induction false} ContentKindCsv()
    ensures ContentKindOf("text/csv") == CsvBody
  {
    assert OccursAt("text/csv", "csv", 5);
    ContainsIntro("text/csv", "csv", 5);
    NotContains("text/csv", "json");
    NotContains("text/csv", "pdf");
  }

  /** A short literal check that a pattern is absent, position by position. */
  lemma {:induction false} NotContains(s: string, p: string)
    requires |p| >= 1 && forall i :: 0 <= i < |s| ==> s[i] != p[0] || !OccursAt(s, p, i)
    ensures !Contains(s, p)
  {
    FoundStartsWith(s, p);
  }

  lemma {:induction false} FoundStartsWith(s: string, p: string)
    requires |p| >= 1
    ensures Contains(s, p) ==> OccursAt(s, p, Find(s, p, 0).value) && s[Find(s, p, 0).value] == p[0]
  {
    if Contains(s, p) {
      var i := Find(s, p, 0).value;
      assert s[i..i + |p|][0] == s[i];
    }
  }

  /** What fetch_data hands back: parsed JSON, bytes for the file handler, or the text. */
  datatype Fetched = ParsedJson(value: Json) | FileBytes(kind: ContentKind, content: seq<byte>) | PageText(text: string)

  /** fetch_data: GET, status check, then the body as its content type says. */
  function FetchData(w: World, url: string): (r: Result<Fetched, Error>)
    ensures r.Success? ==> w.httpGet(url).Success? && 200 <= w.httpGet(url).value.status < 300
    ensures r.Success? && r.value.FileBytes? ==>
      r.value.content == w.httpGet(url).value.content && r.value.kind in {PdfBody, CsvBody, ExcelBody}
    ensures r.Success? && r.value.PageText? ==> ContentKindOf(w.httpGet(url).value.contentType) == TextBody
    ensures r.Success? && r.value.ParsedJson? ==> ContentKindOf(w.httpGet(url).value.contentType) == JsonBody
    ensures r.Success? && r.value.FileBytes? ==> r.value.kind == ContentKindOf(w.httpGet(url).value.contentType)
    ensures r.Success? && r.value.PageText? ==> r.value.text == w.httpGet(url).value.text
    ensures r.Success? && r.value.ParsedJson? ==> w.httpGet(url).value.json == Success(r.value.value)
    ensures var g := w.httpGet(url);
      g.Success? && 200 <= g.value.status < 300 ==>
        if ContentKindOf(g.value.contentType) == JsonBody then r.Success? <==> g.value.json.Success?
        else r.Success?
  {
    match w.httpGet(url)
    case Failure(e) => Failure(e)
    case Success(resp) =>
      match RaiseForStatus(resp)
      case Failure(e) => Failure(e)
      case Success(_) =>
        match ContentKindOf(resp.contentType)
        case JsonBody =>
          (match resp.json
           case Success(j) => Success(ParsedJson(j))
           case Failure(e) => Failure(e))
        case TextBody => Success(PageText(resp.text))
        case kind => Success(FileBytes(kind, resp.content))
  }
}
