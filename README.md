# llm-quiz-solver in Dafny

This project models the quiz-solving agent of llm-quiz-solver.

The agent is given the URL of a quiz page. It fetches the page and asks a language model to read the instructions. It then settles the URL the answer is submitted to and computes the answer by one of four routes:

- the demo answer `"ok"`;
- a secret code scraped from a page;
- the sum of a CSV file embedded in the page;
- the language model's answer.

It posts the answer, and the server's reply may name the next quiz. The chain stops after ten quizzes, at the first failure, or when no next URL comes back.

Beside that controller the model covers four more parts:

- the tool registry, with its `a=b&c=d` argument fallback;
- the `atob(...)` de-obfuscation of fetched pages and the content-type dispatch;
- the web scraper's token rule, base64-or-HTML choice, table assembly and method dispatch;
- the configuration check.

Everything outside the process is a field of a `World` value (`oracles.dfy`): HTTP, the language model, BeautifulSoup, `json.loads`, base64 and UTF-8 decoding, and the pandas CSV sum. Each is a total function that returns a `Result` or an `Option` where the real call can fail. Every property below therefore holds whatever those services answer. Python exceptions are values of the `Error` datatype. `str(e)` of an exception is `Describe`.

Layout:

| file | module | contents |
|---|---|---|
| `wrappers.dfy` | `Wrappers` | `Option` and `Result` |
| `json.dfy` | `Json` | decoded JSON values, truthiness, `dict.get`, `str()` of scalars |
| `strings.dfy` | `Strings` | `str` methods used by the code (find, strip, replace, split, join, lower/upper, int/str of naturals) |
| `scan.dfy` | `Scan` | leftmost-match search (`FirstSome`), the way `re.search` tries start positions |
| `oracles.dfy` | `Oracles` | exceptions, HTTP responses, parsed documents and tables, the `World` |
| `config.dfy` | `Config` | `config.py` |
| `tool_registry.dfy` | `ToolRegistry` | `agent/tool_registry.py`; the registry is a class whose fields `register` updates |
| `tools.dfy` | `Tools` | `agent/tools.py` |
| `web_scraper.dfy` | `WebScraper` | `utils/web_scraper.py` |
| `quiz_text.dfy` | `QuizText` | `clean_code_fences`, `extract_json_string`, `_extract_secret_from_text` |
| `submit_url.dfy` | `SubmitUrl` | `_extract_submit_url_from_html`, the submit-URL choice and checks, `urljoin` |
| `quiz_solver.dfy` | `QuizSolver` | `parse_quiz`, `execute_solution`, `submit_answer`, `solve_single_quiz`, `solve_quiz_chain` |

The solver keeps one piece of state, `current_quiz_url`. `solve_single_quiz` assigns it only after `execute_solution` has run, and `execute_solution` reads it on the scrape and CSV routes. Those routes therefore look at the previous quiz's page. On the first quiz the attribute does not exist yet, so they raise `AttributeError`. The model keeps this behaviour:

- The field is `QuizSolver.QuizSolver.currentQuizUrl : Option<string>`, with `None` while it was never assigned.
- `FirstScrapeFails` and `FirstQuizScrapeFails` state the first-quiz consequence.

`ChainFrom` is generic over the step function, so the chain lemmas hold for any step. It follows the loop test in its two halves: `ChainFrom` looks at the URL, `ChainUnderLimit` at the count, and `ChainTry` runs one pass of the loop body. The class method `SolveQuizChain` is proved equal to `ChainFrom` applied to the solver's own step.

## Model

| member | source | states |
|---|---|---|
| QuizText.Fences | agent/quiz_solver.py:30 | every fence `re.findall` returns is at least six characters long and opens and closes with three backticks |
| QuizText.BestIndex | agent/quiz_solver.py:33 | `max(..., key=count('{'))`: the chosen fence has the most `{`, and every earlier fence has strictly fewer (first of the ties) |
| QuizText.StripOpening | agent/quiz_solver.py:34 | the opening fence and then exactly the word characters of the tag and at most one newline are removed: everything removed after the fence is a word character or the final newline, and what is left starts with neither a word character nor, unless one newline was already taken, a newline; the rest is the end of the fence and still ends with the closing fence |
| QuizText.StripClosing | agent/quiz_solver.py:35 | only the closing fence and at most one newline before it are removed; when no newline is removed, the rest does not end in one |
| QuizText.CleanCodeFences | agent/quiz_solver.py:24-40 | empty input comes back unchanged; without fences the result is the text with every backtick deleted, then trimmed |
| QuizText.CleanPlainText | agent/quiz_solver.py:38-40 | for any text without fences, the result is the text with its backticks deleted and trimmed; without backticks it is only trimmed |
| QuizText.CleanFencedBest | agent/quiz_solver.py:30-36 | with fences, the result is the trimmed inside of the first fence with the most `{` (both fence ends removed) |
| QuizText.CleanInlineCode | agent/quiz_solver.py:38-40 | inline code loses its backticks: `` `42` `` becomes `42` |
| Strings.ReplaceCharIsRemove | agent/quiz_solver.py:39 | `replace('`', '')` equals the character-by-character deletion of every backtick |
| Strings.RemoveCharAppend | agent/quiz_solver.py:39 | deleting a character from a concatenation deletes it from each part |
| Strings.RemoveCharAbsent | agent/quiz_solver.py:39 | a text without the character is left unchanged |
| QuizText.CleanSingleFence | agent/quiz_solver.py:30-36 | a reply that is one fenced block ```` ```lang\nbody\n``` ```` becomes exactly `body.strip()` |
| QuizText.ExtractJsonString | agent/quiz_solver.py:45-46 | empty text yields None |
| QuizText.SearchGroupSpan | agent/quiz_solver.py:48 | the greedy search spans from the first opening bracket to the last closing one when such a pair exists, and finds nothing otherwise |
| QuizText.ExtractJsonObject | agent/quiz_solver.py:48-50 | with a `{` before a later `}`, the result is the span from the first `{` to the last `}`, even when a `[` comes earlier, and it is a substring of the text |
| QuizText.ExtractJsonArray | agent/quiz_solver.py:52-55 | without such a brace pair, the span from the first `[` to the last `]` is returned, and it is a substring of the text |
| QuizText.ExtractJsonNothing | agent/quiz_solver.py:57 | with neither pair the result is None |
| QuizText.CodeAt | agent/quiz_solver.py:373 | a match of `[A-Z0-9]{6,}` is at least six characters |
| QuizText.ExtractSecretFromText | agent/quiz_solver.py:367-374 | the result is never shorter than six characters (never empty) |
| QuizText.ExtractSecretIsMaximalRun | agent/quiz_solver.py:373-374 | the code returned is a whole maximal run of `[A-Z0-9]` in the text, and every run starting earlier is shorter than six |
| QuizText.ExtractSecretUnknown | agent/quiz_solver.py:374 | with no run of six, the result is `"UNKNOWN"` |
| SubmitUrl.FormAction | agent/quiz_solver.py:313 | an `action` attribute of one of the forms; None exactly when no form has one |
| SubmitUrl.SubmitMeta | agent/quiz_solver.py:324 | a meta of the page named `submit-url`; None exactly when the page has none |
| SubmitUrl.FetchAtSound | agent/quiz_solver.py:319 | a match of the `fetch(...)` pattern is a quote-free substring of the scripts, at least eight characters long and ending in `/submit` |
| SubmitUrl.FetchTarget | agent/quiz_solver.py:318-321 | the leftmost match over the joined scripts ends in `/submit` and occurs in them |
| SubmitUrl.ExtractSubmitUrlFromHtml | agent/quiz_solver.py:308-331 | None only when no form gives a non-empty action and no script matches; past those two, a result is the stripped content of the submit-url meta |
| SubmitUrl.ExtractSubmitUrlOrder | agent/quiz_solver.py:313-326 | without a non-empty form action a fetch target wins over the meta; None exactly when there is no non-empty action, no fetch target and no non-empty meta content |
| SubmitUrl.FormActionWins | agent/quiz_solver.py:313-315 | a non-empty form action is returned stripped, whatever the scripts and metas contain |
| SubmitUrl.FetchCallFound | agent/quiz_solver.py:319-321 | a script starting with `fetch(` followed by whitespace and a quoted, quote-free URL ending in `/submit` yields exactly that URL |
| SubmitUrl.ChooseSubmitUrl | agent/quiz_solver.py:116-123 | a non-empty HTML URL is used as is; otherwise the instructions' `submit_url` (None when absent), and `AttributeError` when the instructions are not a dict |
| SubmitUrl.ValidateSubmitUrl | agent/quiz_solver.py:125-133 | accepted exactly when the value is a non-empty string whose lower case is not `none` and contains none of `origin`, `+` and `current`; a falsy value raises the "No submit_url found" `ValueError` quoting its `str()` |
| SubmitUrl.PlaceholderRejected | agent/quiz_solver.py:129-130 | a URL whose lower case mentions `origin` raises the "Invalid submit_url" `ValueError`, whichever source it came from |
| SubmitUrl.SchemeLength | agent/quiz_solver.py:133 | a scheme found by `urlsplit` ends at a `:` inside the string |
| SubmitUrl.UrlJoin | agent/quiz_solver.py:133 | a reference with a scheme is returned unchanged and an empty base returns the reference; otherwise the result ends with the reference as the simplified join writes it |
| SubmitUrl.UrlJoinRootRelative | agent/quiz_solver.py:133 | joining `https://host/...` with `/path` gives `https://host/path` (scheme and authority kept) |
| QuizSolver.Sample | agent/quiz_solver.py:156 | the sample is a prefix of the page, at most 12000 characters, and the whole page when it is short |
| QuizSolver.ParseQuiz | agent/quiz_solver.py:149-200 | a failed model call is passed on; after a reply, the only failure is the "Could not parse quiz instructions" `ValueError` |
| QuizSolver.ParseQuizReadsSample | agent/quiz_solver.py:156-179 | two pages with the same first 12000 characters parse the same way |
| QuizSolver.ParseQuizDirect | agent/quiz_solver.py:180-188 | a reply that is JSON once trimmed and unfenced is returned as parsed |
| QuizSolver.Base64At | agent/quiz_solver.py:234 | a match of `base64,([A-Za-z0-9+/=]+)` captures a non-empty run of base64 characters |
| QuizSolver.Base64Payload | agent/quiz_solver.py:234 | the leftmost match's group is non-empty and all base64 characters |
| QuizSolver.Base64PayloadNeedsMarker | agent/quiz_solver.py:234-237 | a payload is found only in a page containing `base64,` |
| QuizSolver.ScrapeSecret | agent/quiz_solver.py:222-225 | raises `AttributeError` when `current_quiz_url` was never set; a result is a string of at least six characters |
| QuizSolver.ScrapeSecretValue | agent/quiz_solver.py:222-225 | the scrape route answers the secret extracted from the scraped text, or passes the scraper's failure on |
| QuizSolver.CsvAnswer | agent/quiz_solver.py:230-241 | raises `AttributeError` when `current_quiz_url` was never set; a fetched page without a payload gives `"error"`; a result is `"error"` or text starting `{"sum": ` |
| QuizSolver.CsvAnswerValue | agent/quiz_solver.py:232-241 | once the page is fetched, the answer is `"error"` exactly when no payload is found or it does not decode; otherwise `{"sum": total}` with the CSV total, or the summing failure |
| QuizSolver.CsvAnswerFetchFails | agent/quiz_solver.py:232 | a failed fetch of the page is passed on |
| QuizSolver.ShapeAnswer | agent/quiz_solver.py:266-286 | for format json, the result is a value JSON parsing produced or `{"status": "ok"}`; otherwise a non-empty string other than `none` |
| QuizSolver.ShapeAnswerValue | agent/quiz_solver.py:266-286 | with `a` the trimmed cleaned reply: outside json, `a` itself unless it is empty or `none`, then `"ok"`; for json, `{"status": "ok"}` when no span is extracted, any other result is the parse of the extracted span, and a non-empty span that parses gives its parse |
| QuizSolver.ShapeAnswerObject | agent/quiz_solver.py:273-280 | for json, a reply holding a `{…}` span that parses answers the parse of the span from the first `{` to the last `}` |
| QuizSolver.ModelAnswer | agent/quiz_solver.py:263-286 | a failed model call is passed on; an answer is shaped by `ShapeAnswer` |
| QuizSolver.ExecuteSolution | agent/quiz_solver.py:202-217 | non-dict instructions raise `AttributeError` on `.get`; a template whose answer is "anything you want" gives `"ok"` whatever else is set |
| QuizSolver.FirstScrapeFails | agent/quiz_solver.py:208-223 | before any submission, a task mentioning scrape with a "string" answer format, given or defaulted, fails with `AttributeError` on `current_quiz_url` |
| QuizSolver.ScrapeRouteTaken | agent/quiz_solver.py:208-225 | a non-demo task mentioning scrape whose answer format, given or defaulted, is "string" goes to the scrape route |
| QuizSolver.CsvWithoutMarker | agent/quiz_solver.py:208-237 | a `.csv` data source reached past the scrape test (any format, including the default "string" with a task not mentioning scrape) on a page with no `base64,` marker answers `"error"` |
| QuizSolver.ModelRouteAnswerIsClean | agent/quiz_solver.py:283-286 | outside the json format the model route's answer is a non-empty string other than `none`, whatever `current_quiz_url` holds |
| QuizSolver.ModelRouteFailsAsWritten | agent/quiz_solver.py:263 | with the repository's client, every instruction that reaches the model route fails with `AttributeError` on `generate_answer` |
| QuizSolver.ModelRouteAnswers | agent/quiz_solver.py:246-286 | with a client that answers, the model route always produces an answer |
| QuizSolver.SubmitAnswer | agent/quiz_solver.py:333-365 | success needs a 2xx reply whose JSON is a dict; a non-2xx status is raised as `HTTPStatusError`; `next_url` is the reply's `url` |
| QuizSolver.SubmitReplyDefaults | agent/quiz_solver.py:361-365 | a reply without `correct` or `message` reads as `False` and `""` |
| QuizSolver.ResolveSubmitUrl | agent/quiz_solver.py:115-133 | a resolved URL is `urljoin(quiz_url, s)` for a string `s` that passes the checks |
| QuizSolver.ResolveSubmitUrlStages | agent/quiz_solver.py:115-133 | succeeds exactly when a candidate is chosen and passes the checks, and is then `urljoin(quiz_url, candidate)`; a failure carries the error of the stage that failed |
| QuizSolver.SingleQuiz | agent/quiz_solver.py:102-147 | `current_quiz_url` is unchanged or becomes the quiz URL, and it is the quiz URL whenever the quiz succeeds |
| QuizSolver.SingleQuizAnswers | agent/quiz_solver.py:112-142 | once fetched, parsed and resolved, the answer is computed with the old `current_quiz_url`; its failure is raised with the field unchanged, and otherwise the field becomes the quiz URL and the result is the submission's, even when the POST fails |
| QuizSolver.FirstQuizScrapeFails | agent/quiz_solver.py:136-140 | a first quiz whose task is a "string" scrape fails with `AttributeError` on `current_quiz_url` and leaves it unset |
| QuizSolver.InvalidSubmitUrlPostsNothing | agent/quiz_solver.py:125-142 | when the submit URL fails its checks, the result does not depend on the answering model or the server, and `current_quiz_url` is unchanged |
| QuizSolver.ChainStep | agent/quiz_solver.py:84 | a string URL is solved by `solve_single_quiz`; any other value fails and leaves `current_quiz_url` alone |
| QuizSolver.ChainBounded | agent/quiz_solver.py:79-100 | `quizzes_solved` never exceeds 10, and the message is "Successfully completed N quiz(es)" or "Failed at quiz N+1: …" for the count N reported |
| QuizSolver.ChainCountsSuccesses | agent/quiz_solver.py:83-95 | a chain reports no progress from a point exactly when the step there fails |
| QuizSolver.EmptyChain | agent/quiz_solver.py:77-100 | an empty start URL runs no step and reports "Successfully completed 0 quiz(es)" |
| QuizSolver.ChainEndsWithoutNextUrl | agent/quiz_solver.py:85-89 | a successful step whose reply has no next URL ends the chain with that quiz counted |
| QuizSolver.ChainReportsFailure | agent/quiz_solver.py:90-95 | a failing step k ends the chain with `k-1` solved and "Failed at quiz k: " plus the exception text |
| QuizSolver.ChainStopsAtTen | agent/quiz_solver.py:79-81 | after ten quizzes the chain returns without another step |
| QuizSolver.QuizSolver.constructor | agent/quiz_solver.py:66-73 | email and secret come from STUDENT_EMAIL and SECRET_KEY; `current_quiz_url` is unset |
| QuizSolver.QuizSolver.SolveSingleQuiz | agent/quiz_solver.py:102-147 | result and new `current_quiz_url` are those of `SingleQuiz` from the old field value |
| QuizSolver.QuizSolver.SolveQuizChain | agent/quiz_solver.py:76-100 | the while loop's report and final field equal `ChainFrom` from the start URL (the bound of 10 is `ChainBounded`) |
| ToolRegistry.ParametersOrEmpty | agent/tool_registry.py:22 | `parameters or {}` |
| ToolRegistry.Assign | agent/tool_registry.py:66-68 | a part with `=` sets its key to the text after the first `=` and leaves every other key alone; a part without `=` changes nothing |
| ToolRegistry.StrippedParts | agent/tool_registry.py:64 | no more parts than pieces, and none of them empty |
| ToolRegistry.StrippedPartsSound | agent/tool_registry.py:64 | every part is the trimmed text of some piece |
| ToolRegistry.StrippedPartsComplete | agent/tool_registry.py:64 | every piece that is not blank appears, trimmed, among the parts |
| ToolRegistry.StrippedPartsAllKept | agent/tool_registry.py:64 | without blank pieces the parts are the pieces trimmed, position by position |
| ToolRegistry.StrippedPartsAppend | agent/tool_registry.py:64 | the comprehension keeps order: the parts of a concatenation are the parts of each half, in turn |
| ToolRegistry.AsJsonStrings | agent/tool_registry.py:68 | the parsed pairs become string arguments under the same keys |
| ToolRegistry.NormalizeArgs | agent/tool_registry.py:57-70 | a dict is used as is and another non-string gives `{}`; text that is not JSON takes the key=value fallback; JSON text succeeds exactly when it is an object, whose fields are then the arguments, and otherwise fails with the `TypeError` "argument after ** must be a mapping, not …" |
| ToolRegistry.AssignAllSnoc | agent/tool_registry.py:65-68 | the loop over parts is a left fold: one more part is one more assignment |
| ToolRegistry.AssignAllUntouched | agent/tool_registry.py:65-68 | a key no part names keeps its value |
| ToolRegistry.AssignAllKeys | agent/tool_registry.py:65-68 | the keys after the loop are the initial keys plus those the parts name |
| ToolRegistry.LastAssignmentWins | agent/tool_registry.py:65-68 | a later duplicate key overwrites an earlier one |
| ToolRegistry.AssignAllSplit | agent/tool_registry.py:65-68 | parsing two lists of parts in turn equals parsing their concatenation |
| ToolRegistry.KeyValueArgsKeys | agent/tool_registry.py:64-68 | the keys are exactly those of the trimmed, non-empty parts containing `=` |
| ToolRegistry.Registry.constructor | agent/tool_registry.py:12-13 | the table starts empty |
| ToolRegistry.Registry.RegisterFn | agent/tool_registry.py:29-36 | the entry for the name becomes the given description, parameters (or `{}`) and function, and others are unchanged; a new name goes last in the order |
| ToolRegistry.Registry.Register | agent/tool_registry.py:15-27 | as `RegisterFn`, and the decorator returns the function it was given |
| ToolRegistry.Registry.GetToolsForModel | agent/tool_registry.py:38-47 | one `{name, description, parameters}` per registered tool, in first-registration order, names distinct |
| ToolRegistry.Registry.ParseKeyValues | agent/tool_registry.py:64-68 | the loop computes `KeyValueArgs` |
| ToolRegistry.Registry.Execute | agent/tool_registry.py:49-76 | an unknown name raises `KeyError("Tool not found: …")` and calls nothing; otherwise the tool's function with the normalised arguments |
| Tools.AtobMatchAt | agent/tools.py:52 | a match at i has a non-empty payload and fits in the text |
| Tools.AtobPayloads | agent/tools.py:52-53 | every `re.findall` payload is non-empty and made of base64 characters |
| Tools.DecodeStep | agent/tools.py:57-64 | a payload that fails base64 or UTF-8 decoding changes nothing, nor does one whose calls do not occur |
| Tools.DecodeStepRewrites | agent/tools.py:58-62 | a decodable payload's turn splits the text at the leftmost non-overlapping double-quoted calls and joins the pieces with the decoded text in backticks, then does the same for the single-quoted and backtick calls |
| Strings.ReplaceIsJoin | agent/tools.py:60-62 | `replace(p, n)` of a text made of the pieces `split(p)` gives, joined by `p`, is those pieces joined by `n` |
| Strings.SeparationExists | agent/tools.py:60-62 | every text splits at `p` into such pieces, so the rewriting applies to any page |
| Tools.DecodeAtobContent | agent/tools.py:44-66 | the loop computes `DecodedAtob` of the page |
| Tools.NoAtobNoPayloads | agent/tools.py:52-53 | without `atob(` the pattern finds nothing |
| Tools.DecodedAtobWithoutCalls | agent/tools.py:52-66 | without `atob(` the page is returned unchanged |
| Tools.DecodedAtobWithoutMatches | agent/tools.py:52-66 | a page where the pattern matches at no position is returned unchanged |
| Tools.FailedPayloadSkipped | agent/tools.py:57-64 | a payload that fails to decode is skipped and the remaining ones are still processed |
| Tools.DecodeStepRemovesQuotedCalls | agent/tools.py:60-61 | after a decodable payload's step, no double- or single-quoted call with it remains |
| Tools.MismatchedQuotesUntouched | agent/tools.py:52-62 | `atob('QQ==")` matches the pattern but is left as it is |
| Tools.FetchPage | agent/tools.py:27-42 | a transport failure is passed on and a non-2xx status raises `HTTPStatusError` |
| Tools.DecodeAllSameDecoders | agent/tools.py:56-64 | the decoding loop consults only the base64 and UTF-8 decoders |
| Tools.FetchPageSameServices | agent/tools.py:27-42 | `fetch_page` consults only GET and the decoders |
| Tools.FetchPageVerbatim | agent/tools.py:38-42 | a page without `atob(` is returned as received |
| Tools.FetchPageDecodes | agent/tools.py:38-40 | a page with `atob(` is returned decoded |
| Tools.ContentKindOf | agent/tools.py:79-89 | each kind exactly when its words occur and no earlier kind's do, in the order json, pdf, csv or text/plain, excel or spreadsheet, else text |
| Tools.ContentKindJsonFirst | agent/tools.py:79-80 | `json` wins over `text/plain` in the same header |
| Tools.ContentKindCsv | agent/tools.py:83-84 | `text/csv` is a CSV body |
| Tools.FetchData | agent/tools.py:68-89 | success needs a 2xx reply; a 2xx reply succeeds unless its body is declared JSON and does not parse; file bytes carry the kind the content type selects and the body, text is the reply's text, and parsed JSON is the reply's JSON |
| WebScraper.BodyHtml | utils/web_scraper.py:31-39 | a body with a `<` byte is decoded as UTF-8; one without is base64-decoded first, falling back to the raw bytes when that fails |
| WebScraper.HtmlBodyNotDecoded | utils/web_scraper.py:36-37 | a body with `<` never goes through base64 |
| WebScraper.TokenAt | utils/web_scraper.py:46 | a match is a substring of 4 to 30 ASCII letters and digits |
| WebScraper.SecretAt | utils/web_scraper.py:51 | a match of the Secret rule is 4 to 30 ASCII letters and digits |
| WebScraper.SelectToken | utils/web_scraper.py:44-55 | the result is always 4 to 30 ASCII letters and digits |
| WebScraper.SelectFirstToken | utils/web_scraper.py:46-48 | the first word-bounded run of 4 to 30 letters and digits is returned, and it occurs in the text |
| WebScraper.SelectSecretRule | utils/web_scraper.py:50-53 | the Secret rule decides only when no such run exists |
| WebScraper.SelectUnknown | utils/web_scraper.py:55 | with neither rule matching, the result is `"UNKNOWN"` |
| WebScraper.ScrapeText | utils/web_scraper.py:20-55 | fails only when the GET fails; otherwise the token selected from the visible text of the chosen HTML |
| WebScraper.ZipIntoKeys | utils/web_scraper.py:77 | the keys are the headers that have a cell at their position |
| WebScraper.ZipIntoValue | utils/web_scraper.py:77 | a header maps to the cell of its last position within the shorter list |
| WebScraper.ZipIntoUntouched | utils/web_scraper.py:77 | keys no paired header names keep their value |
| WebScraper.RowsOfShape | utils/web_scraper.py:73-79 | at most one row per `<tr>`, a dict exactly when the table has headers |
| WebScraper.RowsOfAllFilled | utils/web_scraper.py:73-79 | when every row has cells, one row per `<tr>` at the same position |
| WebScraper.RowsOfSkipsEmpty | utils/web_scraper.py:75 | a row without `<td>` cells is skipped |
| WebScraper.RowsOfAppend | utils/web_scraper.py:73-79 | rows are assembled independently, in order |
| WebScraper.AssembleTables | utils/web_scraper.py:68-83 | the nested loops give one list per table, in document order, equal to its rows |
| WebScraper.ScrapeTable | utils/web_scraper.py:57-83 | succeeds exactly on a 2xx reply, with the tables of its text |
| WebScraper.FetchApi | utils/web_scraper.py:85-105 | GET and POST, any case, send the request; any other method raises `ValueError("Unsupported method: …")` |
| WebScraper.ApiReply | utils/web_scraper.py:104-105 | success needs a 2xx reply and is its JSON |
| WebScraper.FetchApiCaseInsensitive | utils/web_scraper.py:97-99 | `get` and `GET`, `Post` and `POST` behave alike |
| WebScraper.FetchApiRefusesWithoutRequest | utils/web_scraper.py:101-102 | an unsupported method fails the same way whatever the network would answer |
| Config.Missing | config.py:32-33 | names STUDENT_EMAIL exactly when it is unset or empty, and SECRET_KEY likewise, in that order |
| Config.Validate | config.py:30-42 | `True` exactly when both credentials and at least one model key are non-empty; missing credentials are reported first |
| Config.ValidateNeedsAKey | config.py:39-40 | with credentials but no model key, the "At least one LLM API key" error |
| Config.ValidateNamesBoth | config.py:35-36 | both credentials missing gives "Missing required config: STUDENT_EMAIL, SECRET_KEY" |
| Config.DebugDefault | config.py:21 | DEBUG is on exactly when the variable lower-cases to `true`; unset means off |
| Config.TimeoutDefault | config.py:22 | TIMEOUT_SECONDS defaults to 180 |
| Config.TimeoutFromEnv | config.py:22 | a decimal numeral in TIMEOUT_SECONDS is read as its value |

## Left out

- The other files are not part of this model: main.py (the HTTP front end), agent/llm_client.py, agent/prompts.py, utils/file_handler.py, utils/data_processor.py, utils/visualizer.py and run_all_tests.py. The first two are consulted only to establish which methods the language-model client offers.
- Async execution, timeouts, logging and client lifetimes are not modelled.
- HTTP, the language model, BeautifulSoup, `json.loads`, base64, UTF-8 and the pandas sum are uninterpreted oracles. The CSV total reaches the model as the text of a float.
- The prompts' wording is not modelled. The parsing call receives the HTML sample, and the answering call receives the task and the answer format.
- Construction of the language-model client, the file handler and the data processor in `__init__`, which can fail, is not modelled.
- The commented-out block after `return` and the unreachable dict/list check of the model route are dead code and are not modelled.
- Case mapping, `\w` and letters are ASCII only.
- `int()` accepts only ASCII digits with an optional sign, without underscores.
- SubmitUrl.ValidateSubmitUrl: a non-empty list or dict `submit_url` is treated as a `TypeError`. Its `str()` is not checked for `none` or the made-up-URL words.
- SubmitUrl.UrlJoin: dot segments and empty segments are not normalised. References starting with `?` or `#` are merged as paths. A reference whose scheme equals the base's is returned unchanged. `urlsplit` deletes tab, CR and LF anywhere in a URL and, from Python 3.12, strips leading C0 control characters and spaces; the model keeps them, so `urljoin("https://h/q/", "/a\tb")` is `https://h/ab` in Python but `https://h/a\tb` here. A fetch-target URL reaches the join unstripped.
- SubmitUrl.ExtractSubmitUrlFromHtml: the parse is total, so the caught-exception path that returns None is not modelled.
- QuizSolver.ChainStep: a next URL that is not a string fails with a `TypeError` whose text is not the HTTP library's.
- Tools.DecodeStepRemovesQuotedCalls: covers the double- and single-quoted calls, not the backtick form. The replacement text is itself wrapped in backticks and can recreate that form.
- ToolRegistry.Registry.Execute: the tool call itself, and the choice between awaiting and calling it, is left out. The method returns the function and its keyword arguments.
- WebScraper.FetchApi: the headers and query parameters passed to the request are not modelled.
- WebScraper.RowsOf: rows with headers are maps, so the key order of the Python dict is not kept.
- QuizText.CleanCodeFences: its own contract covers the empty and the fence-free text; the fenced result is stated by `CleanFencedBest`.
- QuizSolver.ScrapeSecret: its own contract gives the error and the length; the value is stated by `ScrapeSecretValue`.
- QuizSolver.CsvAnswer: its own contract gives the errors and the shape; the total and the decode failure are stated by `CsvAnswerValue` and `CsvAnswerFetchFails`.
- QuizSolver.ShapeAnswer: its own contract gives the shape; the value is stated by `ShapeAnswerValue` and `ShapeAnswerObject`.
- QuizSolver.ResolveSubmitUrl: its own contract names some checked string; which one, and which error a failure carries, is stated by `ResolveSubmitUrlStages`.
- QuizSolver.SingleQuiz: its own contract bounds the new field; the read of the old field and the result are stated by `SingleQuizAnswers`.
- ToolRegistry.StrippedParts: its own contract gives the bound and non-emptiness; which parts appear, and in what order, is stated by the four `StrippedParts…` lemmas.
- Tools.DecodeStep: its own contract covers the unchanged cases; the rewrite of a decodable payload is stated by `DecodeStepRewrites`, with `ReplaceIsJoin` and `SeparationExists`.
- SubmitUrl.ExtractSubmitUrlFromHtml: its own contract covers None and the meta case; the fetch-before-meta order and the converse of None are stated by `ExtractSubmitUrlOrder`.
- These members keep their strong statements in lemmas beside them because the functions are unfolded inside the chain proofs, where every extra postcondition enlarges each proof obligation.
- Errors raised by the HTTP library, and the body logged after a failed submission, appear only as `Error` values with their own texts.

## Findings

| source | as written | input that shows it | evidently intended | confidence | as-written member | corrected member |
|---|---|---|---|---|---|---|
| agent/quiz_solver.py:263 | the model route calls `self.llm.generate_answer`. The client class in agent/llm_client.py defines only `chat`, `chat_with_tools` and `estimate_tokens`, so the call raises `AttributeError` | instructions `{"task": "What is 2+2?", "answer_format": "number"}` | ask the model with the task and format and return its cleaned answer | not executed | QuizSolver.ModelRouteFailsAsWritten | QuizSolver.ModelRouteAnswers |
