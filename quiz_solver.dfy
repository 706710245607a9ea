/**
 * agent/quiz_solver.py: the QuizSolver that walks a chain of quiz pages.
 * For each page it fetches the HTML, asks the language model to read the
 * instructions, settles the submit URL, computes an answer through one of
 * four routes (the demo answer, a scraped secret code, a CSV sum, or the
 * language model) and posts it; the server's reply names the next quiz.
 */
module QuizSolver {
  import opened Wrappers
  import opened Strings
  import opened Json
  import opened Oracles
  import opened Scan
  import opened QuizText
  import opened SubmitUrl
  import Tools
  import WebScraper
  import Config

  /** The chain stops after this many quizzes. */
  const MaxQuizzes: nat := 10

  /** parse_quiz only shows the model the first 12000 characters of the page. */
  const SampleLength: nat := 12000

  /** The start of the page given to the model. */
  function Sample(html: string): (r: string)
    ensures |r| <= SampleLength && StartsWith(html, r)
    ensures |html| <= SampleLength ==> r == html
  {
    if |html| <= SampleLength then html else html[..SampleLength]
  }

  /**
   * parse_quiz: ask the model, trim and unfence its reply, and parse it as
   * JSON; failing that, parse the first {...} (or [...]) span of the reply.
   */
  function ParseQuiz(w: World, html: string): (r: Result<Json, Error>)
    ensures w.chat(Sample(html)).Failure? ==> r == Failure(w.chat(Sample(html)).error)
    ensures w.chat(Sample(html)).Success? && r.Failure? ==>
      r.error == ValueError("Could not parse quiz instructions from LLM response")
  {
    match w.chat(Sample(html))
    case Failure(e) => Failure(e)
    case Success(reply) =>
      var response := CleanCodeFences(Strip(reply));
      match w.jsonLoads(response)
      case Some(parsed) => Success(parsed)
      case None =>
        var fallback := ExtractJsonString(response);
        if fallback.Some? && fallback.value != "" && w.jsonLoads(fallback.value).Some? then
          Success(w.jsonLoads(fallback.value).value)
        else
          Failure(ValueError("Could not parse quiz instructions from LLM response"))
  }

  /** Only the first 12000 characters of the page reach the model. */
  lemma {:induction false} ParseQuizReadsSample(w: World, html1: string, html2: string)
    requires Sample(html1) == Sample(html2)
    ensures ParseQuiz(w, html1) == ParseQuiz(w, html2)
  {
  }

  /** A reply that is JSON once unfenced is taken as it is. */
  lemma {:induction false} ParseQuizDirect(w: World, html: string, reply: string)
    requires w.chat(Sample(html)) == Success(reply)
    requires w.jsonLoads(CleanCodeFences(Strip(reply))).Some?
    ensures ParseQuiz(w, html) == Success(w.jsonLoads(CleanCodeFences(Strip(reply))).value)
  {
  }

  /** The regex base64,([A-Za-z0-9+/=]+) tried at index i. */
  function Base64At(s: string, i: nat): (r: Option<string>)
    ensures r.Some? ==> r.value != [] && forall k :: 0 <= k < |r.value| ==> Tools.IsB64Char(r.value[k])
  {
    if OccursAt(s, "base64,", i) then
      var n := Run(s, i + 7, Tools.IsB64Char);
      if n >= 1 then Some(s[i + 7..i + 7 + n]) else None
    else None
  }

  function Base64Matcher(s: string): nat -> Option<string> {
    (i: nat) => Base64At(s, i)
  }

  /** re.search of the base64 pattern: the payload after the first "base64," that has one. */
  function Base64Payload(s: string): (r: Option<string>)
    ensures r.Some? ==> r.value != [] && forall k :: 0 <= k < |r.value| ==> Tools.IsB64Char(r.value[k])
  {
    match FirstSome(Base64Matcher(s), 0, |s|)
    case Some(i) => Base64At(s, i)
    case None => None
  }

  /** A payload is only ever found after a "base64," marker. */
  lemma {:induction false} Base64PayloadNeedsMarker(s: string)
    ensures Base64Payload(s).Some? ==> Contains(s, "base64,")
  {
    var first := FirstSome(Base64Matcher(s), 0, |s|);
    if first.Some? {
      ContainsIntro(s, "base64,", first.value);
    }
  }

  /** The error raised when current_quiz_url is read before the first submission set it. */
  const NoCurrentUrl: Error := NoAttribute("QuizSolver", "current_quiz_url")

  /** The scrape route: the secret code in the text of the page at current_quiz_url. */
  function ScrapeSecret(w: World, cur: Option<string>): (r: Result<Json, Error>)
    ensures cur.None? ==> r == Failure(NoCurrentUrl)
    ensures r.Success? ==> r.value.JString? && |r.value.s| >= 6
  {
    match cur
    case None => Failure(NoCurrentUrl)
    case Some(url) =>
      match WebScraper.ScrapeText(w, url)
      case Failure(e) => Failure(e)
      case Success(text) =>
        var secret := ExtractSecretFromText(text);
        Success(JString(if secret != "" then secret else "UNKNOWN"))
  }

  /** The scrape route answers the secret found in the scraped text, or passes the scraper's failure on. */
  lemma {:induction false} ScrapeSecretValue(w: World, url: string)
    ensures var r := ScrapeSecret(w, Some(url));
      var scraped := WebScraper.ScrapeText(w, url);
      && (scraped.Failure? ==> r == Failure(scraped.error))
      && (scraped.Success? ==> r == Success(JString(ExtractSecretFromText(scraped.value))))
  {
  }

  /**
   * The CSV route: the page at current_quiz_url carries the file as a
   * base64 data URI; "error" when there is none or it does not decode,
   * else the JSON text {"sum": total}.
   */
  function CsvAnswer(w: World, cur: Option<string>): (r: Result<Json, Error>)
    ensures cur.None? ==> r == Failure(NoCurrentUrl)
    ensures (cur.Some? && Tools.FetchPage(w, cur.value).Success?
      && Base64Payload(Tools.FetchPage(w, cur.value).value).None?) ==> r == Success(JString("error"))
    ensures r.Success? ==> r.value.JString? && (r.value.s == "error" || StartsWith(r.value.s, "{\"sum\": "))
  {
    match cur
    case None => Failure(NoCurrentUrl)
    case Some(url) =>
      match Tools.FetchPage(w, url)
      case Failure(e) => Failure(e)
      case Success(page) =>
        match Base64Payload(page)
        case None => Success(JString("error"))
        case Some(encoded) =>
          match w.b64DecodeText(encoded)
          case None => Success(JString("error"))
          case Some(csvBytes) =>
            match w.csvSum(csvBytes)
            case Failure(e) => Failure(e)
            case Success(total) => Success(JString("{\"sum\": " + total + "}"))
  }

  /**
   * The CSV route's answer once the page is fetched: "error" exactly when no
   * payload decodes, else the sum text, or the summing failure.
   */
  lemma {:induction false} CsvAnswerValue(w: World, url: string)
    requires Tools.FetchPage(w, url).Success?
    ensures var r := CsvAnswer(w, Some(url));
      var payload := Base64Payload(Tools.FetchPage(w, url).value);
      var csvBytes := if payload.Some? then w.b64DecodeText(payload.value) else None;
      && (r == Success(JString("error")) <==> csvBytes.None?)
      && (csvBytes.Some? && w.csvSum(csvBytes.value).Success? ==>
            r == Success(JString("{\"sum\": " + w.csvSum(csvBytes.value).value + "}")))
      && (csvBytes.Some? && w.csvSum(csvBytes.value).Failure? ==> r == Failure(w.csvSum(csvBytes.value).error))
  {
  }

  /** A failed fetch of the CSV page is passed on. */
  lemma {:induction false} CsvAnswerFetchFails(w: World, url: string)
    requires Tools.FetchPage(w, url).Failure?
    ensures CsvAnswer(w, Some(url)) == Failure(Tools.FetchPage(w, url).error)
  {
  }

  /** What the model's answer becomes: parsed JSON (or {"status": "ok"}) for json, else a clean string. */
  function ShapeAnswer(w: World, format: string, raw: string): (r: Json)
    ensures Lower(format) == "json" ==> r == StatusOk || exists js :: w.jsonLoads(js) == Some(r)
    ensures Lower(format) != "json" ==> r.JString? && r.s != "" && Lower(r.s) != "none"
  {
    var answer := Strip(CleanCodeFences(raw));
    if Lower(format) == "json" then
      var js := ExtractJsonString(answer);
      if js.Some? && js.value != "" && w.jsonLoads(js.value).Some? then w.jsonLoads(js.value).value
      else StatusOk
    else if answer == "" || Lower(answer) == "none" then JString("ok")
    else JString(answer)
  }

  /**
   * The shaped answer in terms of the cleaned reply a: for json the parse of
   * the span extract_json_string finds (or {"status": "ok"}), otherwise a
   * itself unless it is empty or "none".
   */
  lemma {:induction false} ShapeAnswerValue(w: World, format: string, raw: string)
    ensures var r := ShapeAnswer(w, format, raw);
      var a := Strip(CleanCodeFences(raw));
      Lower(format) != "json" ==> r == (if a != "" && Lower(a) != "none" then JString(a) else JString("ok"))
    ensures var r := ShapeAnswer(w, format, raw);
      var js := ExtractJsonString(Strip(CleanCodeFences(raw)));
      Lower(format) == "json" ==>
        && (js.None? ==> r == StatusOk)
        && (r != StatusOk ==> js.Some? && w.jsonLoads(js.value) == Some(r))
        && (js.Some? && js.value != "" && w.jsonLoads(js.value).Some? ==> r == w.jsonLoads(js.value).value)
  {
  }

  /** For json, an answer holding a {...} span that parses is the parse of that span. */
  lemma {:induction false} ShapeAnswerObject(w: World, format: string, raw: string, answer: string)
    requires Lower(format) == "json" && answer == Strip(CleanCodeFences(raw))
    requires HasPair(answer, '{', '}')
    requires w.jsonLoads(answer[FirstIndexOf(answer, '{').value..LastIndexOf(answer, '}').value + 1]).Some?
    ensures ShapeAnswer(w, format, raw) ==
      w.jsonLoads(answer[FirstIndexOf(answer, '{').value..LastIndexOf(answer, '}').value + 1]).value
  {
    ExtractJsonObject(answer);
    assert answer[FirstIndexOf(answer, '{').value] == '{';
  }

  /** The language-model route of execute_solution. */
  function ModelAnswer(w: World, task: Json, format: string): (r: Result<Json, Error>)
    ensures w.generateAnswer(task, format).Failure? ==> r == Failure(w.generateAnswer(task, format).error)
    ensures w.generateAnswer(task, format).Success? ==> r == Success(ShapeAnswer(w, format, w.generateAnswer(task, format).value))
  {
    match w.generateAnswer(task, format)
    case Failure(e) => Failure(e)
    case Success(raw) => Success(ShapeAnswer(w, format, raw))
  }

  /** The demo quiz: a payload template whose answer is "anything you want". */
  predicate IsDemo(m: map<string, Json>) {
    var pt := GetOr(m, "payload_template", JObject(map[]));
    pt.JObject? && Get(pt.fields, "answer") == JString("anything you want")
  }

  /**
   * execute_solution: the demo answer, else the scrape route for a "string"
   * answer whose task mentions scraping, else the CSV route for a .csv data
   * source, else the language model. `cur` is the solver's current_quiz_url.
   */
  function ExecuteSolution(w: World, cur: Option<string>, instructions: Json): (r: Result<Json, Error>)
    ensures !instructions.JObject? ==> r == Failure(NoAttribute(TypeName(instructions), "get"))
    ensures instructions.JObject? && IsDemo(instructions.fields) ==> r == Success(JString("ok"))
  {
    if !instructions.JObject? then Failure(NoAttribute(TypeName(instructions), "get"))
    else
      var m := instructions.fields;
      var task := GetOr(m, "task", JString(""));
      var dataSource := GetOr(m, "data_source", JString(""));
      var format := GetOr(m, "answer_format", JString("string"));
      if IsDemo(m) then Success(JString("ok"))
      else if !format.JString? then Failure(NoAttribute(TypeName(format), "lower"))
      else if Lower(format.s) == "string" && !task.JString? then Failure(NoAttribute(TypeName(task), "lower"))
      else if Lower(format.s) == "string" && Contains(Lower(task.s), "scrape") then ScrapeSecret(w, cur)
      else if dataSource.JString? && EndsWith(dataSource.s, ".csv") then CsvAnswer(w, cur)
      else ModelAnswer(w, task, format.s)
  }

  /** The instructions reach the language model: none of the first three routes applies. */
  predicate TakesModelRoute(instructions: Json) {
    && instructions.JObject?
    && var m := instructions.fields;
    && var task := GetOr(m, "task", JString(""));
    && var dataSource := GetOr(m, "data_source", JString(""));
    && var format := GetOr(m, "answer_format", JString("string"));
    && !IsDemo(m)
    && format.JString?
    && (Lower(format.s) == "string" ==> task.JString? && !Contains(Lower(task.s), "scrape"))
    && !(dataSource.JString? && EndsWith(dataSource.s, ".csv"))
  }

  /** On the first quiz current_quiz_url is not yet set, so a scrape task fails. */
  lemma {:induction false} FirstScrapeFails(w: World, m: map<string, Json>)
    requires !IsDemo(m)
    requires var format := GetOr(m, "answer_format", JString("string"));
      format.JString? && Lower(format.s) == "string"
    requires var task := GetOr(m, "task", JString(""));
      task.JString? && Contains(Lower(task.s), "scrape")
    ensures ExecuteSolution(w, None, JObject(m)) == Failure(NoCurrentUrl)
  {
    ScrapeRouteTaken(w, None, m);
  }

  /** A "string" answer (the default) for a task that mentions scraping comes from the scrape route. */
  lemma {:induction false} ScrapeRouteTaken(w: World, cur: Option<string>, m: map<string, Json>)
    requires !IsDemo(m)
    requires var format := GetOr(m, "answer_format", JString("string"));
      format.JString? && Lower(format.s) == "string"
    requires var task := GetOr(m, "task", JString(""));
      task.JString? && Contains(Lower(task.s), "scrape")
    ensures ExecuteSolution(w, cur, JObject(m)) == ScrapeSecret(w, cur)
  {
  }

  /** A .csv data source on a page without a base64 data URI answers "error". */
  lemma {:induction false} CsvWithoutMarker(w: World, url: string, m: map<string, Json>)
    requires !IsDemo(m)
    requires var format := GetOr(m, "answer_format", JString("string"));
      var task := GetOr(m, "task", JString(""));
      format.JString? && (Lower(format.s) == "string" ==> task.JString? && !Contains(Lower(task.s), "scrape"))
    requires var source := GetOr(m, "data_source", JString(""));
      source.JString? && EndsWith(source.s, ".csv")
    requires Tools.FetchPage(w, url).Success? && !Contains(Tools.FetchPage(w, url).value, "base64,")
    ensures ExecuteSolution(w, Some(url), JObject(m)) == Success(JString("error"))
  {
    Base64PayloadNeedsMarker(Tools.FetchPage(w, url).value);
  }

  /** Outside the json format the model route never submits an empty string or "none". */
  lemma {:induction false} ModelRouteAnswerIsClean(w: World, cur: Option<string>, instructions: Json)
    requires TakesModelRoute(instructions)
    requires Lower(GetOr(instructions.fields, "answer_format", JString("string")).s) != "json"
    ensures var r := ExecuteSolution(w, cur, instructions);
      r.Success? ==> r.value.JString? && r.value.s != "" && Lower(r.value.s) != "none"
  {
  }

  /**
   * The client the repository constructs (agent/llm_client.py) defines chat,
   * chat_with_tools and estimate_tokens but no generate_answer: this world
   * answers the model route as that client does.
   */
  function RepositoryClient(w: World): World {
    w.(generateAnswer := (task: Json, format: string) => Failure(NoAttribute("LLMClient", "generate_answer")))
  }

  /** With the repository's client every instruction that reaches the model route fails. */
  lemma {:induction false} ModelRouteFailsAsWritten(w: World, cur: Option<string>, instructions: Json)
    requires TakesModelRoute(instructions)
    ensures ExecuteSolution(RepositoryClient(w), cur, instructions) == Failure(NoAttribute("LLMClient", "generate_answer"))
  {
  }

  /** With a client that answers, the model route yields a submittable answer. */
  lemma {:induction false} ModelRouteAnswers(w: World, cur: Option<string>, instructions: Json)
    requires TakesModelRoute(instructions)
    requires var format := GetOr(instructions.fields, "answer_format", JString("string"));
      w.generateAnswer(GetOr(instructions.fields, "task", JString("")), format.s).Success?
    ensures ExecuteSolution(w, cur, instructions).Success?
  {
  }

  /** The server's verdict, as submit_answer hands it back. */
  datatype SubmitReply = SubmitReply(correct: Json, nextUrl: Json, message: Json)

  /** Python None for an unset credential. */
  function OptionalText(v: Option<string>): Json {
    if v.Some? then JString(v.value) else JNull
  }

  /** The JSON body of the submission. */
  function Payload(email: Option<string>, secret: Option<string>, quizUrl: string, answer: Json): Json {
    JObject(map["email" := OptionalText(email), "secret" := OptionalText(secret),
                "url" := JString(quizUrl), "answer" := answer])
  }

  /**
   * submit_answer: POST the payload, raise on a non-2xx status, and read
   * correct (default false), url and message (default "") from the reply.
   */
  function SubmitAnswer(w: World, email: Option<string>, secret: Option<string>, quizUrl: string,
                        submitUrl: string, answer: Json): (r: Result<SubmitReply, Error>)
    ensures var post := w.httpPost(submitUrl, Payload(email, secret, quizUrl, answer));
      r.Success? ==> (post.Success? && 200 <= post.value.status < 300 && post.value.json.Success?
        && post.value.json.value.JObject?)
    ensures var post := w.httpPost(submitUrl, Payload(email, secret, quizUrl, answer));
      post.Success? && !(200 <= post.value.status < 300) ==>
        r == Failure(HttpStatusError(post.value.status, post.value.statusErrorText))
    ensures var post := w.httpPost(submitUrl, Payload(email, secret, quizUrl, answer));
      r.Success? ==> r.value.nextUrl == Get(post.value.json.value.fields, "url")
  {
    match w.httpPost(submitUrl, Payload(email, secret, quizUrl, answer))
    case Failure(e) => Failure(e)
    case Success(resp) =>
      match RaiseForStatus(resp)
      case Failure(e) => Failure(e)
      case Success(_) =>
        match resp.json
        case Failure(e) => Failure(e)
        case Success(result) =>
          if !result.JObject? then Failure(NoAttribute(TypeName(result), "get"))
          else
            var f := result.fields;
            Success(SubmitReply(GetOr(f, "correct", JBool(false)), Get(f, "url"), GetOr(f, "message", JString(""))))
  }

  /** A reply without "correct" or "message" reads as not correct with an empty message. */
  lemma {:induction false} SubmitReplyDefaults(w: World, email: Option<string>, secret: Option<string>, quizUrl: string,
                            submitUrl: string, answer: Json)
    requires var post := w.httpPost(submitUrl, Payload(email, secret, quizUrl, answer));
      post.Success? && 200 <= post.value.status < 300 && post.value.json.Success?
      && post.value.json.value.JObject?
      && "correct" !in post.value.json.value.fields && "message" !in post.value.json.value.fields
    ensures var r := SubmitAnswer(w, email, secret, quizUrl, submitUrl, answer);
      r.Success? && r.value.correct == JBool(false) && r.value.message == JString("")
  {
  }

  /**
   * The submit URL for a fetched page: from the HTML or the instructions,
   * checked, and resolved against the quiz page's URL.
   */
  function ResolveSubmitUrl(w: World, quizUrl: string, page: string, instructions: Json): (r: Result<string, Error>)
    ensures r.Success? ==> exists s :: ValidateSubmitUrl(JString(s)) == Success(s) && r.value == UrlJoin(quizUrl, s)
  {
    match ChooseSubmitUrl(ExtractSubmitUrlFromHtml(w.parseDocument(page)), instructions)
    case Failure(e) => Failure(e)
    case Success(candidate) =>
      match ValidateSubmitUrl(candidate)
      case Failure(e) => Failure(e)
      case Success(s) => Success(UrlJoin(quizUrl, s))
  }

  /**
   * The submit URL is the chosen candidate, validated and joined to the quiz
   * URL; a failure carries the error of the stage that failed.
   */
  lemma {:induction false} ResolveSubmitUrlStages(w: World, quizUrl: string, page: string, instructions: Json)
    ensures var r := ResolveSubmitUrl(w, quizUrl, page, instructions);
      var c := ChooseSubmitUrl(ExtractSubmitUrlFromHtml(w.parseDocument(page)), instructions);
      && (r.Success? <==> c.Success? && ValidateSubmitUrl(c.value).Success?)
      && (r.Success? ==> r.value == UrlJoin(quizUrl, ValidateSubmitUrl(c.value).value))
      && (c.Failure? ==> r == Failure(c.error))
      && (c.Success? && ValidateSubmitUrl(c.value).Failure? ==> r == Failure(ValidateSubmitUrl(c.value).error))
  {
  }

  /**
   * solve_single_quiz, with the solver's current_quiz_url before and after:
   * the field is set to the quiz URL only once an answer has been computed,
   * just before it is submitted.
   */
  function SingleQuiz(w: World, email: Option<string>, secret: Option<string>, cur: Option<string>,
                      quizUrl: string): (r: (Result<SubmitReply, Error>, Option<string>))
    ensures r.1 == cur || r.1 == Some(quizUrl)
    ensures r.0.Success? ==> r.1 == Some(quizUrl)
  {
    match Tools.FetchPage(w, quizUrl)
    case Failure(e) => (Failure(e), cur)
    case Success(page) =>
      match ParseQuiz(w, page)
      case Failure(e) => (Failure(e), cur)
      case Success(instructions) =>
        match ResolveSubmitUrl(w, quizUrl, page, instructions)
        case Failure(e) => (Failure(e), cur)
        case Success(submitUrl) =>
          match ExecuteSolution(w, cur, instructions)
          case Failure(e) => (Failure(e), cur)
          case Success(answer) => (SubmitAnswer(w, email, secret, quizUrl, submitUrl, answer), Some(quizUrl))
  }

  /**
   * Once the page is fetched and read and the submit URL settled, the quiz
   * either fails with the answer's error, leaving current_quiz_url alone, or
   * posts the answer after setting it, whatever the server then replies.
   */
  lemma {:induction false} SingleQuizAnswers(w: World, email: Option<string>, secret: Option<string>, cur: Option<string>,
                                             quizUrl: string)
    requires Tools.FetchPage(w, quizUrl).Success?
    requires ParseQuiz(w, Tools.FetchPage(w, quizUrl).value).Success?
    requires ResolveSubmitUrl(w, quizUrl, Tools.FetchPage(w, quizUrl).value,
                              ParseQuiz(w, Tools.FetchPage(w, quizUrl).value).value).Success?
    ensures var page := Tools.FetchPage(w, quizUrl).value;
      var instructions := ParseQuiz(w, page).value;
      var submitUrl := ResolveSubmitUrl(w, quizUrl, page, instructions).value;
      var answer := ExecuteSolution(w, cur, instructions);
      && (answer.Failure? ==> SingleQuiz(w, email, secret, cur, quizUrl) == (Failure(answer.error), cur))
      && (answer.Success? ==> SingleQuiz(w, email, secret, cur, quizUrl)
                                == (SubmitAnswer(w, email, secret, quizUrl, submitUrl, answer.value), Some(quizUrl)))
  {
  }

  /**
   * The first quiz of a chain cannot be a "string" scrape task: with
   * current_quiz_url still unset, it fails before anything is posted.
   */
  lemma {:induction false} FirstQuizScrapeFails(w: World, email: Option<string>, secret: Option<string>, quizUrl: string,
                                                m: map<string, Json>)
    requires Tools.FetchPage(w, quizUrl).Success?
    requires ParseQuiz(w, Tools.FetchPage(w, quizUrl).value) == Success(JObject(m))
    requires ResolveSubmitUrl(w, quizUrl, Tools.FetchPage(w, quizUrl).value, JObject(m)).Success?
    requires !IsDemo(m)
    requires var format := GetOr(m, "answer_format", JString("string"));
      format.JString? && Lower(format.s) == "string"
    requires var task := GetOr(m, "task", JString(""));
      task.JString? && Contains(Lower(task.s), "scrape")
    ensures SingleQuiz(w, email, secret, None, quizUrl) == (Failure(NoCurrentUrl), None)
  {
    FirstScrapeFails(w, m);
    SingleQuizAnswers(w, email, secret, None, quizUrl);
  }

  /**
   * A submit URL that fails the checks stops the quiz before an answer is
   * computed or posted: neither the answering model nor the server is asked.
   */
  lemma {:induction false} InvalidSubmitUrlPostsNothing(w: World, email: Option<string>, secret: Option<string>, cur: Option<string>,
                                     quizUrl: string, g: (Json, string) -> Result<string, Error>,
                                     p: (string, Json) -> Result<HttpResponse, Error>)
    requires Tools.FetchPage(w, quizUrl).Success?
    requires ParseQuiz(w, Tools.FetchPage(w, quizUrl).value).Success?
    requires ResolveSubmitUrl(w, quizUrl, Tools.FetchPage(w, quizUrl).value,
                              ParseQuiz(w, Tools.FetchPage(w, quizUrl).value).value).Failure?
    ensures SingleQuiz(w.(generateAnswer := g, httpPost := p), email, secret, cur, quizUrl)
         == SingleQuiz(w, email, secret, cur, quizUrl)
    ensures SingleQuiz(w, email, secret, cur, quizUrl).1 == cur
  {
    var w2 := w.(generateAnswer := g, httpPost := p);
    Tools.FetchPageSameServices(w, w2, quizUrl);
    var page := Tools.FetchPage(w, quizUrl).value;
    assert ParseQuiz(w2, page) == ParseQuiz(w, page);
    var instructions := ParseQuiz(w, page).value;
    assert ResolveSubmitUrl(w2, quizUrl, page, instructions) == ResolveSubmitUrl(w, quizUrl, page, instructions);
  }

  /** One step of the chain: the current URL must be a string to be fetched. */
  function ChainStep(w: World, email: Option<string>, secret: Option<string>, cur: Option<string>,
                     url: Json): (r: (Result<SubmitReply, Error>, Option<string>))
    ensures url.JString? ==> r == SingleQuiz(w, email, secret, cur, url.s)
    ensures !url.JString? ==> r.0.Failure? && r.1 == cur
  {
    if url.JString? then SingleQuiz(w, email, secret, cur, url.s)
    else (Failure(TypeError("Invalid type for url. Expected str or httpx.URL, got " + TypeName(url))), cur)
  }

  /** The dictionary solve_quiz_chain returns. */
  datatype ChainReport = ChainReport(message: string, quizzesSolved: nat)

  function Completed(solved: nat): ChainReport {
    ChainReport("Successfully completed " + NatToString(solved) + " quiz(es)", solved)
  }

  function FailedAt(solved: nat, e: Error): ChainReport {
    ChainReport("Failed at quiz " + NatToString(solved + 1) + ": " + Describe(e), solved)
  }

  /** One quiz of the chain: from current_quiz_url and the URL to solve, the outcome and the new current_quiz_url. */
  type Step = (Option<string>, Json) -> (Result<SubmitReply, Error>, Option<string>)

  /** The solver's step. */
  function Stepper(w: World, email: Option<string>, secret: Option<string>): Step {
    (cur: Option<string>, url: Json) => ChainStep(w, email, secret, cur, url)
  }

  /**
   * solve_quiz_chain from the loop test, where `solved` quizzes are done,
   * `url` is next and `cur` is the solver's current_quiz_url. The test
   * `current_url and quizzes_solved < max_quizzes` short-circuits: ChainFrom
   * looks at the URL, ChainUnderLimit at the count, and ChainTry runs the
   * body of the loop. The last component of the decreases clauses never
   * decides termination; naming `cur` there keeps the verifier from
   * unfolding the whole chain whenever the count is a literal.
   */
  function ChainFrom(step: Step, cur: Option<string>, url: Json, solved: nat): (r: (ChainReport, Option<string>))
    decreases MaxQuizzes - solved, 2, cur
  {
    if !Truthy(url) then (Completed(solved), cur)
    else ChainUnderLimit(step, cur, url, solved)
  }

  function ChainUnderLimit(step: Step, cur: Option<string>, url: Json, solved: nat): (r: (ChainReport, Option<string>))
    decreases MaxQuizzes - solved, 1, cur
  {
    if solved >= MaxQuizzes then (Completed(solved), cur)
    else ChainTry(step, cur, url, solved)
  }

  /** The try block: the first failure ends the chain with its message; a success is counted and the loop goes on with the reply's next URL. */
  function ChainTry(step: Step, cur: Option<string>, url: Json, solved: nat): (r: (ChainReport, Option<string>))
    requires solved < MaxQuizzes
    decreases MaxQuizzes - solved, 0, cur
  {
    var (result, cur') := step(cur, url);
    match result
    case Failure(e) => (FailedAt(solved, e), cur')
    case Success(reply) => ChainFrom(step, cur', reply.nextUrl, solved + 1)
  }

  /** With a truthy URL and fewer than ten quizzes done, the loop body runs. */
  lemma {:induction false} ChainEntersBody(step: Step, cur: Option<string>, url: Json, solved: nat)
    requires Truthy(url) && solved < MaxQuizzes
    ensures ChainFrom(step, cur, url, solved) == ChainTry(step, cur, url, solved)
  {
  }

  /** The chain never solves more than ten quizzes nor fewer than it had, and reports one of its two messages. */
  lemma {:induction false} ChainBounded(step: Step, cur: Option<string>, url: Json, solved: nat)
    requires solved <= MaxQuizzes
    ensures var report := ChainFrom(step, cur, url, solved).0;
      solved <= report.quizzesSolved <= MaxQuizzes
      && (report == Completed(report.quizzesSolved)
          || exists e :: report == FailedAt(report.quizzesSolved, e))
    decreases MaxQuizzes - solved
  {
    if Truthy(url) && solved < MaxQuizzes {
      ChainEntersBody(step, cur, url, solved);
      var (result, cur') := step(cur, url);
      if result.Success? {
        ChainBounded(step, cur', result.value.nextUrl, solved + 1);
      } else {
        assert ChainFrom(step, cur, url, solved).0 == FailedAt(solved, result.error);
      }
    }
  }

  /** Each quiz solved in the chain is one whose step succeeded: from here, the count is the number of successful steps. */
  lemma {:induction false} ChainCountsSuccesses(step: Step, cur: Option<string>, url: Json, solved: nat)
    requires solved < MaxQuizzes && Truthy(url)
    ensures var report := ChainFrom(step, cur, url, solved).0;
      report.quizzesSolved == solved <==> step(cur, url).0.Failure?
  {
    ChainEntersBody(step, cur, url, solved);
    if step(cur, url).0.Success? {
      ChainBounded(step, step(cur, url).1, step(cur, url).0.value.nextUrl, solved + 1);
    }
  }

  /** An empty start URL solves nothing and reports success. */
  lemma {:induction false} EmptyChain(step: Step, cur: Option<string>)
    ensures ChainFrom(step, cur, JString(""), 0) == (ChainReport("Successfully completed 0 quiz(es)", 0), cur)
  {
    assert NatToString(0) == "0";
    assert Completed(0).message == "Successfully completed 0 quiz(es)";
  }

  /** A reply without a next URL ends the chain after that quiz. */
  lemma {:induction false} ChainEndsWithoutNextUrl(step: Step, cur: Option<string>, url: Json, solved: nat)
    requires Truthy(url) && solved < MaxQuizzes
    requires step(cur, url).0.Success? && !Truthy(step(cur, url).0.value.nextUrl)
    ensures ChainFrom(step, cur, url, solved) == (Completed(solved + 1), step(cur, url).1)
  {
    ChainEntersBody(step, cur, url, solved);
    assert ChainFrom(step, step(cur, url).1, step(cur, url).0.value.nextUrl, solved + 1) == (Completed(solved + 1), step(cur, url).1);
  }

  /** A failing quiz is reported with its 1-based position and the exception text. */
  lemma {:induction false} ChainReportsFailure(step: Step, cur: Option<string>, url: Json, solved: nat)
    requires Truthy(url) && solved < MaxQuizzes
    requires step(cur, url).0.Failure?
    ensures ChainFrom(step, cur, url, solved).0
         == ChainReport("Failed at quiz " + NatToString(solved + 1) + ": " + Describe(step(cur, url).0.error), solved)
  {
    ChainEntersBody(step, cur, url, solved);
  }

  /** Ten quizzes in a row are the end of the chain, whatever the tenth reply says. */
  lemma {:induction false} ChainStopsAtTen(step: Step, cur: Option<string>, url: Json)
    ensures ChainFrom(step, cur, url, MaxQuizzes) == (Completed(MaxQuizzes), cur)
  {
  }

  /** The solver: its credentials, the outside world it talks to, and the URL of the last quiz it submitted. */
  class QuizSolver {
    const w: World
    const email: Option<string>
    const secret: Option<string>
    /** current_quiz_url; None while the attribute has never been assigned. */
    var currentQuizUrl: Option<string>

    /** __init__: the credentials come from STUDENT_EMAIL and SECRET_KEY. */
    constructor(world: World, env: map<string, string>)
      ensures w == world
      ensures email == Config.GetEnv(env, "STUDENT_EMAIL") && secret == Config.GetEnv(env, "SECRET_KEY")
      ensures currentQuizUrl == None
    {
      w := world;
      email := Config.GetEnv(env, "STUDENT_EMAIL");
      secret := Config.GetEnv(env, "SECRET_KEY");
      currentQuizUrl := None;
    }

    /** solve_single_quiz: answer one quiz, recording its URL once the answer is ready. */
    method SolveSingleQuiz(quizUrl: string) returns (r: Result<SubmitReply, Error>)
      modifies this
      ensures (r, currentQuizUrl) == SingleQuiz(w, email, secret, old(currentQuizUrl), quizUrl)
    {
      var page := Tools.FetchPage(w, quizUrl);
      if page.Failure? {
        return Failure(page.error);
      }
      var instructions := ParseQuiz(w, page.value);
      if instructions.Failure? {
        return Failure(instructions.error);
      }
      var submitUrl := ResolveSubmitUrl(w, quizUrl, page.value, instructions.value);
      if submitUrl.Failure? {
        return Failure(submitUrl.error);
      }
      var answer := ExecuteSolution(w, currentQuizUrl, instructions.value);
      if answer.Failure? {
        return Failure(answer.error);
      }
      currentQuizUrl := Some(quizUrl);
      r := SubmitAnswer(w, email, secret, quizUrl, submitUrl.value, answer.value);
    }

    /**
     * The body of solve_quiz_chain's loop, once the count is under the
     * limit: the chain either ends with the failure report or goes on from
     * the reply's next URL. A URL that is not a string fails before any
     * request.
     */
    method SolveNext(url: Json, ghost solved: nat) returns (r: Result<SubmitReply, Error>)
      requires Truthy(url) && solved < MaxQuizzes
      modifies this
      ensures ChainFrom(Stepper(w, email, secret), old(currentQuizUrl), url, solved)
           == if r.Failure? then (FailedAt(solved, r.error), currentQuizUrl)
              else ChainFrom(Stepper(w, email, secret), currentQuizUrl, r.value.nextUrl, solved + 1)
    {
      ChainEntersBody(Stepper(w, email, secret), currentQuizUrl, url, solved);
      if url.JString? {
        r := SolveSingleQuiz(url.s);
      } else {
        r := Failure(TypeError("Invalid type for url. Expected str or httpx.URL, got " + TypeName(url)));
      }
    }

    /** solve_quiz_chain: follow next URLs until none is given, ten are done, or one fails. */
    method SolveQuizChain(initialUrl: string) returns (report: ChainReport)
      modifies this
      ensures (report, currentQuizUrl) == ChainFrom(Stepper(w, email, secret), old(currentQuizUrl), JString(initialUrl), 0)
    {
      var currentUrl := JString(initialUrl);
      var solved: nat := 0;
      ghost var step := Stepper(w, email, secret);
      ghost var target := ChainFrom(step, old(currentQuizUrl), JString(initialUrl), 0);
      while Truthy(currentUrl) && solved < MaxQuizzes
        invariant ChainFrom(step, currentQuizUrl, currentUrl, solved) == target
        decreases MaxQuizzes - solved
      {
        var result := SolveNext(currentUrl, solved);
        if result.Failure? {
          return FailedAt(solved, result.error);
        }
        solved := solved + 1;
        currentUrl := result.value.nextUrl;
        if !Truthy(currentUrl) {
          break;
        }
      }
      report := Completed(solved);
    }
  }
}
