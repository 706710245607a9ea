/**
 * Everything the solver asks of the outside world: HTTP, the language model,
 * HTML parsing, JSON parsing, base64 and UTF-8 decoding, and the CSV sum. Each
 * is an uninterpreted total function held in a `World` value, so a property
 * proved for every `World` holds whatever these services answer. Python
 * exceptions are the `Error` values below.
 */
module Oracles {
  import opened Wrappers
  import opened Json

  newtype byte = x: int | 0 <= x < 256

  /** The exceptions the modelled code raises or lets through. */
  datatype Error =
    | ValueError(msg: string)
    | TypeError(msg: string)
    | AttributeError(msg: string)
    | KeyError(key: string)
    | HttpStatusError(status: int, msg: string)
    | TransportError(msg: string)
    | DecodeError(msg: string)

  /** str(e) of an exception (a KeyError quotes its key). */
  function Describe(e: Error): string {
    match e
    case KeyError(key) => "'" + key + "'"
    case ValueError(msg) => msg
    case TypeError(msg) => msg
    case AttributeError(msg) => msg
    case HttpStatusError(_, msg) => msg
    case TransportError(msg) => msg
    case DecodeError(msg) => msg
  }

  /** The AttributeError Python raises when `attr` is looked up on an object of type `typeName`. */
  function NoAttribute(typeName: string, attr: string): Error {
    AttributeError("'" + typeName + "' object has no attribute '" + attr + "'")
  }

  /**
   * A received HTTP response: status code, body as text and as bytes, the
   * Content-Type header ("" when absent), what response.json() gives, and the
   * text of the HTTPStatusError raise_for_status() would raise.
   */
  datatype HttpResponse = HttpResponse(
    status: int,
    text: string,
    content: seq<byte>,
    contentType: string,
    json: Result<Json, Error>,
    statusErrorText: string)

  /** response.raise_for_status(): every status outside 2xx raises. */
  function RaiseForStatus(r: HttpResponse): (res: Result<HttpResponse, Error>)
    ensures res.Success? <==> 200 <= r.status < 300
    ensures res.Success? ==> res.value == r
  {
    if 200 <= r.status < 300 then Success(r)
    else Failure(HttpStatusError(r.status, r.statusErrorText))
  }

  /** A <form> element; `action` is None when the attribute is absent. */
  datatype Form = Form(action: Option<string>)

  /** A <meta> element's name and content attributes. */
  datatype Meta = Meta(name: Option<string>, content: Option<string>)

  /** What BeautifulSoup finds in a page, each list in document order. */
  datatype Document = Document(forms: seq<Form>, scripts: seq<string>, metas: seq<Meta>)

  /**
   * One <table>: the stripped texts of all its <th> cells, and for each <tr>
   * in order the stripped texts of its <td> cells.
   */
  datatype Table = Table(headers: seq<string>, rows: seq<seq<string>>)

  datatype World = World(
    /** GET url; Failure for transport errors (no status check). */
    httpGet: string -> Result<HttpResponse, Error>,
    /** POST url with a JSON body. */
    httpPost: (string, Json) -> Result<HttpResponse, Error>,
    /** The language model's reply to the quiz-parsing prompt built around an HTML sample. */
    chat: string -> Result<string, Error>,
    /** str() of the language model's answer to the (task, answer format) prompt. */
    generateAnswer: (Json, string) -> Result<string, Error>,
    /** json.loads: None when the text is not JSON. */
    jsonLoads: string -> Option<Json>,
    /** base64.b64decode of a str; None when it raises. */
    b64DecodeText: string -> Option<seq<byte>>,
    /** base64.b64decode of bytes; None when it raises. */
    b64DecodeBytes: seq<byte> -> Option<seq<byte>>,
    /** bytes.decode("utf-8"); None when it raises. */
    utf8Decode: seq<byte> -> Option<string>,
    /** bytes.decode("utf-8", errors="ignore"), which never raises. */
    utf8DecodeIgnore: seq<byte> -> string,
    /** BeautifulSoup(html).get_text(separator=" ", strip=True). */
    visibleText: string -> string,
    /** BeautifulSoup(html) seen through its forms, scripts and metas. */
    parseDocument: string -> Document,
    /** BeautifulSoup(html).find_all("table"). */
    parseTables: string -> seq<Table>,
    /** repr of float(process_csv(bytes).sum(numeric_only=True).sum()). */
    csvSum: seq<byte> -> Result<string, Error>)
}
