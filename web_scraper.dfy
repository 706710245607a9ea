/**
 * utils/web_scraper.py: the secret-token rules of scrape_text over a page's
 * visible text, the choice between base64 and plain HTML bodies, the
 * row-by-row assembly of scrape_table, and the method dispatch of fetch_api.
 */
module WebScraper {
  import opened Wrappers
  import opened Json
  import opened Strings
  import opened Oracles
  import opened Scan

  /** The byte '<'. */
  const LessThan: byte := 60

  /**
   * The HTML scrape_text works on: a body without '<' is taken for base64 and
   * decoded (errors ignored in the UTF-8 step); when base64 decoding raises,
   * or the body has a '<', the raw bytes are decoded instead.
   */
  function BodyHtml(w: World, content: seq<byte>): (html: string)
    ensures LessThan in content ==> html == w.utf8DecodeIgnore(content)
    ensures LessThan !in content && w.b64DecodeBytes(content).Some? ==>
      html == w.utf8DecodeIgnore(w.b64DecodeBytes(content).value)
    ensures w.b64DecodeBytes(content).None? ==> html == w.utf8DecodeIgnore(content)
  {
    if LessThan !in content then
      match w.b64DecodeBytes(content)
      case Some(decoded) => w.utf8DecodeIgnore(decoded)
      case None => w.utf8DecodeIgnore(content)
    else w.utf8DecodeIgnore(content)
  }

  /** A body with a '<' is read as HTML whatever base64 decoding would make of it. */
  lemma {:induction false} HtmlBodyNotDecoded(w1: World, w2: World, content: seq<byte>)
    requires LessThan in content
    requires w1.utf8DecodeIgnore(content) == w2.utf8DecodeIgnore(content)
    ensures BodyHtml(w1, content) == BodyHtml(w2, content)
  {
  }

  /** \b before index i, with ASCII word characters. */
  predicate BoundaryBefore(s: string, i: nat)
    requires i <= |s|
  {
    i == 0 || !IsWordChar(s[i - 1])
  }

  /**
   * \b[A-Za-z0-9]{4,30}\b at index i. A match must start a word and take the
   * whole alphanumeric run, which must be 4 to 30 long and not run on into '_'.
   */
  function TokenAt(s: string, i: nat): (r: Option<string>)
    ensures r.Some? ==> i + |r.value| <= |s| && s[i..i + |r.value|] == r.value
    ensures r.Some? ==> 4 <= |r.value| <= 30 && forall k :: 0 <= k < |r.value| ==> IsAlnum(r.value[k])
  {
    if i > |s| then None
    else
      var n := Run(s, i, IsAlnum);
      if BoundaryBefore(s, i) && 4 <= n <= 30 && (i + n == |s| || !IsWordChar(s[i + n])) then Some(s[i..i + n])
      else None
  }

  /** [Ss]ecret[^A-Za-z0-9]*([A-Za-z0-9]{4,30}) at index i: the captured code. */
  function SecretAt(s: string, i: nat): (r: Option<string>)
    ensures r.Some? ==> 4 <= |r.value| <= 30 && forall k :: 0 <= k < |r.value| ==> IsAlnum(r.value[k])
  {
    if i + 6 <= |s| && (s[i] == 'S' || s[i] == 's') && s[i + 1..i + 6] == "ecret" then
      var j := i + 6 + Run(s, i + 6, c => !IsAlnum(c));
      var n := Run(s, j, IsAlnum);
      if n >= 4 then Some(s[j..j + if n < 30 then n else 30]) else None
    else None
  }

  function TokenMatcher(s: string): nat -> Option<string> {
    (i: nat) => TokenAt(s, i)
  }

  function SecretMatcher(s: string): nat -> Option<string> {
    (i: nat) => SecretAt(s, i)
  }

  /**
   * The code scrape_text reports for a page's visible text: the leftmost
   * word-bounded token, else the leftmost "Secret…CODE" code, else "UNKNOWN".
   * Either way an alphanumeric string of 4 to 30 characters.
   */
  function SelectToken(text: string): (r: string)
    ensures 4 <= |r| <= 30 && forall k :: 0 <= k < |r| ==> IsAlnum(r[k])
  {
    match FirstSome(TokenMatcher(text), 0, |text|)
    case Some(i) => TokenAt(text, i).value
    case None =>
      match FirstSome(SecretMatcher(text), 0, |text|)
      case Some(i) => SecretAt(text, i).value
      case None => "UNKNOWN"
  }

  /** The first word-bounded token wins, and it is a piece of the text. */
  lemma {:induction false} SelectFirstToken(text: string, i: nat)
    requires TokenAt(text, i).Some?
    requires forall j: nat :: j < i ==> TokenAt(text, j).None?
    ensures SelectToken(text) == TokenAt(text, i).value
    ensures Contains(text, SelectToken(text))
  {
    assert i <= |text|;
    FirstSomeAt(TokenMatcher(text), 0, |text|, i);
    ContainsIntro(text, TokenAt(text, i).value, i);
  }

  /** The "Secret" rule is only consulted when there is no word-bounded token at all. */
  lemma {:induction false} SelectSecretRule(text: string, i: nat)
    requires forall j: nat :: TokenAt(text, j).None?
    requires SecretAt(text, i).Some?
    requires forall j: nat :: j < i ==> SecretAt(text, j).None?
    ensures SelectToken(text) == SecretAt(text, i).value
  {
    assert i + 6 <= |text|;
    FirstSomeAt(SecretMatcher(text), 0, |text|, i);
  }

  /** Neither rule matches: the answer is "UNKNOWN". */
  lemma {:induction false} SelectUnknown(text: string)
    requires forall j: nat :: TokenAt(text, j).None? && SecretAt(text, j).None?
    ensures SelectToken(text) == "UNKNOWN"
  {
  }

  /** scrape_text: GET (no status check), choose the HTML, select the code from its visible text. */
  function ScrapeText(w: World, url: string): (r: Result<string, Error>)
    ensures w.httpGet(url).Failure? <==> r.Failure?
    ensures r.Success? ==> r.value == SelectToken(w.visibleText(BodyHtml(w, w.httpGet(url).value.content)))
  {
    match w.httpGet(url)
    case Failure(e) => Failure(e)
    case Success(resp) => Success(SelectToken(w.visibleText(BodyHtml(w, resp.content))))
  }

  /** A scraped row: header-to-cell pairs when the table has <th> cells, else the cells. */
  datatype Row = DictRow(fields: map<string, string>) | ListRow(cells: seq<string>)

  /** dict(zip(headers, cells)) built onto m: pairs by position, stopping at the shorter list. */
  function ZipInto(m: map<string, string>, headers: seq<string>, cells: seq<string>): map<string, string>
    decreases |headers|
  {
    if headers == [] || cells == [] then m
    else ZipInto(m[headers[0] := cells[0]], headers[1..], cells[1..])
  }

  function ZipDict(headers: seq<string>, cells: seq<string>): map<string, string> {
    ZipInto(map[], headers, cells)
  }

  /** The keys are the headers that found a cell. */
  lemma {:induction false} ZipIntoKeys(m: map<string, string>, headers: seq<string>, cells: seq<string>, k: string)
    ensures k in ZipInto(m, headers, cells) <==>
      k in m || exists i :: 0 <= i < |headers| && i < |cells| && headers[i] == k
    decreases |headers|
  {
    if headers != [] && cells != [] {
      ZipIntoKeys(m[headers[0] := cells[0]], headers[1..], cells[1..], k);
      if exists i :: 0 <= i < |headers| && i < |cells| && headers[i] == k {
        var i :| 0 <= i < |headers| && i < |cells| && headers[i] == k;
        if i > 0 {
          assert headers[1..][i - 1] == k;
        }
      }
    }
  }

  /** A header that does not recur later maps to its own cell: the last duplicate wins. */
  lemma {:induction false} ZipIntoValue(m: map<string, string>, headers: seq<string>, cells: seq<string>, i: nat)
    requires i < |headers| && i < |cells|
    requires forall j :: i < j < |headers| && j < |cells| ==> headers[j] != headers[i]
    ensures headers[i] in ZipInto(m, headers, cells)
    ensures ZipInto(m, headers, cells)[headers[i]] == cells[i]
    decreases |headers|
  {
    if i == 0 {
      ZipIntoUntouched(m[headers[0] := cells[0]], headers[1..], cells[1..], headers[0]);
    } else {
      ZipIntoValue(m[headers[0] := cells[0]], headers[1..], cells[1..], i - 1);
    }
  }

  lemma {:induction false} ZipIntoUntouched(m: map<string, string>, headers: seq<string>, cells: seq<string>, k: string)
    requires k in m
    requires forall j :: 0 <= j < |headers| && j < |cells| ==> headers[j] != k
    ensures k in ZipInto(m, headers, cells) && ZipInto(m, headers, cells)[k] == m[k]
    decreases |headers|
  {
    if headers != [] && cells != [] {
      assert headers[0] != k;
      ZipIntoUntouched(m[headers[0] := cells[0]], headers[1..], cells[1..], k);
    }
  }

  /** The rows scraped from a table's <tr> list (after the first): rows without cells are dropped. */
  function RowsOf(headers: seq<string>, trs: seq<seq<string>>): seq<Row>
    decreases |trs|
  {
    if trs == [] then []
    else
      var first :=
        if trs[0] == [] then []
        else if headers != [] then [DictRow(ZipDict(headers, trs[0]))]
        else [ListRow(trs[0])];
      first + RowsOf(headers, trs[1..])
  }

  /** At most one row per <tr>, and a dict row exactly when the table has headers. */
  lemma {:induction false} RowsOfShape(headers: seq<string>, trs: seq<seq<string>>)
    ensures |RowsOf(headers, trs)| <= |trs|
    ensures forall k :: 0 <= k < |RowsOf(headers, trs)| ==> (RowsOf(headers, trs)[k].DictRow? <==> headers != [])
    decreases |trs|
  {
    if trs != [] {
      RowsOfShape(headers, trs[1..]);
      var first := RowsOf(headers, trs[..1]);
      assert trs[..1] + trs[1..] == trs;
      RowsOfAppend(headers, trs[..1], trs[1..]);
      assert trs[..1][1..] == [];
    }
  }

  /** The rows of one table: its first <tr> is skipped. */
  function TableRows(t: Table): seq<Row> {
    if t.rows == [] then [] else RowsOf(t.headers, t.rows[1..])
  }

  /** A table whose <tr> rows all have cells yields one row per <tr> but the first, in order. */
  lemma {:induction false} RowsOfAllFilled(headers: seq<string>, trs: seq<seq<string>>)
    requires forall k :: 0 <= k < |trs| ==> trs[k] != []
    ensures |RowsOf(headers, trs)| == |trs|
    ensures forall k :: 0 <= k < |trs| ==>
      RowsOf(headers, trs)[k] == if headers != [] then DictRow(ZipDict(headers, trs[k])) else ListRow(trs[k])
    decreases |trs|
  {
    if trs != [] {
      RowsOfAllFilled(headers, trs[1..]);
      forall k | 0 < k < |trs|
        ensures RowsOf(headers, trs)[k] == RowsOf(headers, trs[1..])[k - 1]
      {
      }
    }
  }

  /** Rows without <td> cells contribute nothing. */
  lemma {:induction false} RowsOfSkipsEmpty(headers: seq<string>, trs: seq<seq<string>>, k: nat)
    requires k < |trs| && trs[k] == []
    ensures RowsOf(headers, trs) == RowsOf(headers, trs[..k]) + RowsOf(headers, trs[k + 1..])
  {
    RowsOfAppend(headers, trs[..k], trs[k..]);
    assert trs[..k] + trs[k..] == trs;
    assert trs[k..][1..] == trs[k + 1..];
  }

  lemma {:induction false} RowsOfAppend(headers: seq<string>, xs: seq<seq<string>>, ys: seq<seq<string>>)
    ensures RowsOf(headers, xs + ys) == RowsOf(headers, xs) + RowsOf(headers, ys)
    decreases |xs|
  {
    if xs == [] {
      assert xs + ys == ys;
    } else {
      assert (xs + ys)[1..] == xs[1..] + ys;
      RowsOfAppend(headers, xs[1..], ys);
    }
  }

  /** RowsOf from index r: the row of trs[r], if it has cells, then the rest. */
  lemma {:induction false} RowsOfStep(headers: seq<string>, trs: seq<seq<string>>, r: nat)
    requires r < |trs|
    ensures RowsOf(headers, trs[r..]) ==
      (if trs[r] == [] then [] else if headers != [] then [DictRow(ZipDict(headers, trs[r]))] else [ListRow(trs[r])])
      + RowsOf(headers, trs[r + 1..])
  {
    assert trs[r..][1..] == trs[r + 1..];
  }

  /** The nested loops of scrape_table: one list of rows per table, in document order. */
  method AssembleTables(tables: seq<Table>) returns (result: seq<seq<Row>>)
    ensures |result| == |tables|
    ensures forall i :: 0 <= i < |tables| ==> result[i] == TableRows(tables[i])
  {
    result := [];
    var t := 0;
    while t < |tables|
      invariant 0 <= t <= |tables|
      invariant |result| == t
      invariant forall i :: 0 <= i < t ==> result[i] == TableRows(tables[i])
    {
      var table := tables[t];
      var rows: seq<Row> := [];
      var headers := table.headers;
      var trs := if table.rows == [] then [] else table.rows[1..];
      var r := 0;
      assert trs[r..] == trs;
      while r < |trs|
        invariant 0 <= r <= |trs|
        invariant rows + RowsOf(headers, trs[r..]) == RowsOf(headers, trs)
      {
        var cells := trs[r];
        RowsOfStep(headers, trs, r);
        if cells != [] {
          if headers != [] {
            rows := rows + [DictRow(ZipDict(headers, cells))];
          } else {
            rows := rows + [ListRow(cells)];
          }
        }
        r := r + 1;
      }
      assert trs[r..] == [];
      assert rows == RowsOf(headers, trs) == TableRows(table);
      result := result + [rows];
      t := t + 1;
    }
  }

  /** scrape_table: GET, status check, parse the tables, assemble their rows. */
  method ScrapeTable(w: World, url: string) returns (r: Result<seq<seq<Row>>, Error>)
    ensures r.Success? <==> w.httpGet(url).Success? && 200 <= w.httpGet(url).value.status < 300
    ensures r.Success? ==>
      var tables := w.parseTables(w.httpGet(url).value.text);
      |r.value| == |tables| && forall i :: 0 <= i < |tables| ==> r.value[i] == TableRows(tables[i])
  {
    match w.httpGet(url) {
      case Failure(e) =>
        return Failure(e);
      case Success(resp) =>
        if !(200 <= resp.status < 300) {
          return Failure(HttpStatusError(resp.status, resp.statusErrorText));
        }
        var rows := AssembleTables(w.parseTables(resp.text));
        return Success(rows);
    }
  }

  /**
   * fetch_api: GET or POST chosen case-insensitively, then a status check and
   * the JSON body; any other method is refused before a request is made.
   * `body` is the json argument (JNull when not given).
   */
  function FetchApi(w: World, url: string, verb: string, body: Json): (r: Result<Json, Error>)
    ensures Upper(verb) != "GET" && Upper(verb) != "POST" ==>
      r == Failure(ValueError("Unsupported method: " + verb))
    ensures Upper(verb) == "GET" ==> r == ApiReply(w.httpGet(url))
    ensures Upper(verb) == "POST" ==> r == ApiReply(w.httpPost(url, body))
  {
    if Upper(verb) == "GET" then ApiReply(w.httpGet(url))
    else if Upper(verb) == "POST" then ApiReply(w.httpPost(url, body))
    else Failure(ValueError("Unsupported method: " + verb))
  }

  /** raise_for_status() then resp.json(). */
  function ApiReply(resp: Result<HttpResponse, Error>): (r: Result<Json, Error>)
    ensures r.Success? ==> resp.Success? && 200 <= resp.value.status < 300 && resp.value.json == r
  {
    match resp
    case Failure(e) => Failure(e)
    case Success(res) =>
      if 200 <= res.status < 300 then res.json
      else Failure(HttpStatusError(res.status, res.statusErrorText))
  }

  /** The method name is case-insensitive. */
  lemma {:induction false} FetchApiCaseInsensitive(w: World, url: string, body: Json)
    ensures FetchApi(w, url, "get", body) == FetchApi(w, url, "GET", body)
    ensures FetchApi(w, url, "Post", body) == FetchApi(w, url, "POST", body)
  {
    assert Upper("get") == "GET";
    assert Upper("GET") == "GET";
    assert Upper("Post") == "POST";
    assert Upper("POST") == "POST";
  }

  /** An unsupported method fails the same way whatever the network would have answered. */
  lemma {:induction false} FetchApiRefusesWithoutRequest(w1: World, w2: World, url: string, verb: string, body: Json)
    requires Upper(verb) != "GET" && Upper(verb) != "POST"
    ensures FetchApi(w1, url, verb, body) == FetchApi(w2, url, verb, body)
  {
  }
}
