/** Handling of a chat-completion response: the checks `requestChatCompletion`
    applies to the HTTP reply and `extractCompletionText`, which digs the
    generated text out of the parsed JSON payload. The transport and the JSON
    parser are not modelled: the reply and the parse result are inputs. */
module Completion {
  import opened Wrappers
  import opened Text

  /** A parsed JSON value. */
  datatype Json =
    | JNull
    | JBool(b: bool)
    | JNum(n: real)
    | JStr(s: string)
    | JArr(items: seq<Json>)
    | JObj(fields: map<string, Json>)

  /** JavaScript truthiness of a parsed JSON value (JSON has no NaN). */
  predicate Truthy(j: Json) {
    match j
    case JNull => false
    case JBool(b) => b
    case JNum(n) => n != 0.0
    case JStr(s) => s != []
    case JArr(_) => true
    case JObj(_) => true
  }

  /** Optional property access `j?.name`: `None` stands for `undefined`. */
  function Field(j: Option<Json>, name: string): (r: Option<Json>)
    ensures r.Some? <==> j.Some? && j.value.JObj? && name in j.value.fields
  {
    if j.Some? && j.value.JObj? && name in j.value.fields then Some(j.value.fields[name]) else None
  }

  /** The first choice, when `choices` is an array; `None` otherwise and for an empty array. */
  function FirstChoice(payload: Json): (r: Option<Json>)
    ensures r.Some? ==> exists items :: Field(Some(payload), "choices") == Some(JArr(items)) && items != [] && r.value == items[0]
  {
    match Field(Some(payload), "choices")
    case Some(JArr(items)) => if items != [] then Some(items[0]) else None
    case _ => None
  }

  /** `choice?.message?.content`. */
  function Content(payload: Json): Option<Json> {
    Field(Field(FirstChoice(payload), "message"), "content")
  }

  /** What one item of an array content contributes: a string item itself,
      otherwise its `text` when that is a string, otherwise nothing. */
  function PartText(item: Json): (r: string)
    ensures item.JStr? ==> r == item.s
    ensures !item.JStr? && r != [] ==> Field(Some(item), "text") == Some(JStr(r))
  {
    if item.JStr? then item.s
    else match Field(Some(item), "text")
      case Some(JStr(t)) => t
      case _ => []
  }

  /** The joined contributions of the items of an array content. */
  function Parts(items: seq<Json>): string {
    if items == [] then [] else PartText(items[0]) + Parts(items[1..])
  }

  /** `extractCompletionText`: a non-empty string content wins, then an array
      content, then a string `output_text`, and anything else gives `""`. */
  function ExtractCompletionText(payload: Json): (r: string)
    ensures !(payload.JArr? || payload.JObj?) ==> r == []
    ensures Content(payload).Some? && Content(payload).value.JArr? ==> r == Parts(Content(payload).value.items)
    ensures r != [] ==>
      (Content(payload) == Some(JStr(r))) ||
      (exists items :: Content(payload) == Some(JArr(items)) && r == Parts(items)) ||
      Field(Some(payload), "output_text") == Some(JStr(r))
  {
    if !(payload.JArr? || payload.JObj?) then []
    else
      var content := Content(payload);
      if content.Some? && Truthy(content.value) && (content.value.JStr? || content.value.JArr?) then
        if content.value.JStr? then content.value.s else Parts(content.value.items)
      else match Field(Some(payload), "output_text")
        case Some(JStr(t)) => t
        case _ => []
  }

  /** The contributions of two runs of items are joined in order. */
  lemma {:induction false} PartsAppend(a: seq<Json>, b: seq<Json>)
    ensures Parts(a + b) == Parts(a) + Parts(b)
  {
    if a == [] {
      assert a + b == b;
    } else {
      assert (a + b)[1..] == a[1..] + b;
      PartsAppend(a[1..], b);
    }
  }

  /** The joined string items of an array holding only strings. */
  function Joined(s: seq<string>): string {
    if s == [] then [] else s[0] + Joined(s[1..])
  }

  /** Array content made of strings is their concatenation. */
  lemma {:induction false} PartsOfStrings(s: seq<string>)
    ensures Parts(seq(|s|, i requires 0 <= i < |s| => JStr(s[i]))) == Joined(s)
  {
    var items := seq(|s|, i requires 0 <= i < |s| => JStr(s[i]));
    if s != [] {
      assert items[1..] == seq(|s[1..]|, i requires 0 <= i < |s[1..]| => JStr(s[1..][i]));
      PartsOfStrings(s[1..]);
    }
  }

  /** A string content that is not empty is returned exactly as given. */
  lemma StringContentWins(payload: Json, text: string)
    requires payload.JObj?
    requires Content(payload) == Some(JStr(text)) && text != []
    ensures ExtractCompletionText(payload) == text
  {
  }

  /** An array content gives the join of its items' contributions, even an
      empty join, so `output_text` is then never consulted. */
  lemma ArrayContentWins(payload: Json, items: seq<Json>)
    requires Content(payload) == Some(JArr(items))
    ensures ExtractCompletionText(payload) == Parts(items)
  {
  }

  /** With a content neither a non-empty string nor an array, a string
      `output_text` is used and anything else gives the empty text. */
  lemma OutputTextFallback(payload: Json)
    requires payload.JObj?
    requires Content(payload).None? || !(Content(payload).value.JArr? || (Content(payload).value.JStr? && Content(payload).value.s != []))
    ensures Field(Some(payload), "output_text").Some? && Field(Some(payload), "output_text").value.JStr? ==>
      ExtractCompletionText(payload) == Field(Some(payload), "output_text").value.s
    ensures !(Field(Some(payload), "output_text").Some? && Field(Some(payload), "output_text").value.JStr?) ==>
      ExtractCompletionText(payload) == []
  {
  }

  /** The payload `{"choices":[{"message":{"content":"Hello"}}]}` gives `"Hello"`. */
  lemma HelloPayload(payload: Json)
    requires payload == JObj(map["choices" := JArr([JObj(map["message" := JObj(map["content" := JStr("Hello")])])])])
    ensures ExtractCompletionText(payload) == "Hello"
  {
    assert Content(payload) == Some(JStr("Hello"));
  }

  /** What the transport delivers: a response, or one of its two rejections. */
  datatype Reply =
    | Received(status: int, body: Option<string>, parsed: Option<Json>)
    | NetworkError
    | TimedOut

  /** The errors a request ends with. */
  datatype Failure =
    | MissingConfig
    | HttpStatus(code: int, detail: string)
    | InvalidJson
    | EmptyReply
    | Network
    | Timeout

  /** The part of an error body quoted in an HTTP failure: at most its first
      200 characters, or `unknown error` when the body is missing or empty. */
  function Detail(body: Option<string>): (r: string)
    ensures |r| <= 200 && r != []
    ensures body.Some? && body.value != [] ==> IsPrefix(r, body.value)
    ensures body.Some? && 0 < |body.value| <= 200 ==> r == body.value
    ensures body.None? || body.value == [] ==> r == "unknown error"
  {
    if body.Some? && body.value != [] then body.value[..Min(200, |body.value|)] else "unknown error"
  }

  predicate IsPrefix(p: string, s: string) {
    |p| <= |s| && s[..|p|] == p
  }

  /** The outcome of `requestChatCompletion` for the configured endpoint and
      model, given what the transport would deliver. */
  function RequestOutcome(endpoint: string, model: string, reply: Reply): Result<string, Failure> {
    if endpoint == [] || model == [] then Failure(MissingConfig)
    else match reply
      case NetworkError => Failure(Network)
      case TimedOut => Failure(Timeout)
      case Received(status, body, parsed) =>
        if status < 200 || status >= 300 then Failure(HttpStatus(status, Detail(body)))
        else if parsed.None? then Failure(InvalidJson)
        else
          var text := ExtractCompletionText(parsed.value);
          if text == [] then Failure(EmptyReply) else Success(text)
  }

  /** A request succeeds exactly when the configuration is present, the reply
      came back with a 2xx status and a parsable body, and the extraction is
      not empty; the text returned is then that extraction. */
  lemma SuccessIff(endpoint: string, model: string, reply: Reply)
    ensures RequestOutcome(endpoint, model, reply).Success? <==>
      endpoint != [] && model != [] && reply.Received? && 200 <= reply.status < 300 &&
      reply.parsed.Some? && ExtractCompletionText(reply.parsed.value) != []
    ensures RequestOutcome(endpoint, model, reply).Success? ==>
      RequestOutcome(endpoint, model, reply).value == ExtractCompletionText(reply.parsed.value) &&
      RequestOutcome(endpoint, model, reply).value != []
  {
  }

  /** A status outside `[200, 300)` fails with that code and at most 200
      characters of the body, whatever the body holds. */
  lemma StatusFailure(endpoint: string, model: string, reply: Reply)
    requires endpoint != [] && model != []
    requires reply.Received? && !(200 <= reply.status < 300)
    ensures RequestOutcome(endpoint, model, reply) == Failure(HttpStatus(reply.status, Detail(reply.body)))
    ensures var m := Message(RequestOutcome(endpoint, model, reply).error);
      IsPrefix("HTTP " + Decimal(reply.status) + ": ", m) &&
      |m| <= |"HTTP " + Decimal(reply.status) + ": "| + 200
  {
    var m := Message(RequestOutcome(endpoint, model, reply).error);
    var head := "HTTP " + Decimal(reply.status) + ": ";
    assert m == head + Detail(reply.body);
    assert m[..|head|] == head;
  }

  /** An unparsable body with a 2xx status fails as invalid JSON. */
  lemma UnparsableFailure(endpoint: string, model: string, reply: Reply)
    requires endpoint != [] && model != []
    requires reply.Received? && 200 <= reply.status < 300 && reply.parsed.None?
    ensures RequestOutcome(endpoint, model, reply) == Failure(InvalidJson)
  {
  }

  /** The decimal digits of a number, as a template literal renders an integer. */
  function Decimal(n: int): (r: string)
    ensures r != []
    decreases if n < 0 then 1 - n else n
  {
    if n < 0 then "-" + Digits(-n)
    else Digits(n)
  }

  function Digits(n: nat): (r: string)
    ensures r != [] && forall i :: 0 <= i < |r| ==> '0' <= r[i] <= '9'
  {
    if n < 10 then [DigitChar(n)] else Digits(n / 10) + [DigitChar(n % 10)]
  }

  function DigitChar(d: nat): (c: char)
    requires d < 10
    ensures '0' <= c <= '9'
  {
    ['0', '1', '2', '3', '4', '5', '6', '7', '8', '9'][d]
  }

  /** The number a run of decimal digits stands for. */
  function DigitsValue(s: string): nat
    requires forall i :: 0 <= i < |s| ==> '0' <= s[i] <= '9'
  {
    if s == [] then 0 else DigitsValue(s[..|s| - 1]) * 10 + (s[|s| - 1] as int - '0' as int)
  }

  /** Reading the digits back gives the number: distinct codes render differently. */
  lemma {:induction false} DigitsRoundTrip(n: nat)
    ensures DigitsValue(Digits(n)) == n
  {
    if n >= 10 {
      var r := Digits(n);
      assert r[..|r| - 1] == Digits(n / 10);
      DigitsRoundTrip(n / 10);
    }
  }

  /** The message of the error a request throws. */
  function Message(f: Failure): string {
    match f
    case MissingConfig => "缺少接口地址或模型"
    case HttpStatus(code, detail) => "HTTP " + Decimal(code) + ": " + detail
    case InvalidJson => "接口返回的 JSON 无效"
    case EmptyReply => "模型返回为空"
    case Network => "网络错误"
    case Timeout => "请求超时"
  }
}
