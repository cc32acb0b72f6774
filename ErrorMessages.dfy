/**
 * The errors the front end raises when a request fails: the one for the
 * backend that serves the DSL script, and the one for the Gemini API, whose
 * message is taken from the JSON body of the failed response.
 */
module ErrorMessages {
  import opened Wrappers
  import opened JsonText
  import opened Affixes

  /** The backend's base URL. */
  const BackendBase: string := "http://127.0.0.1:5000"

  /** The backend path that serves the DSL script. */
  const InitialDataPath: string := "/get-initial-data"

  const FetchFailurePrefix: string := "Failed to fetch data from "
  const FetchFailureSuffix: string := ". Is the backend running?"

  /**
   * The message raised when a backend response is not OK. It names the URL
   * that failed, and the URL is recovered from it, so different URLs give
   * different messages.
   */
  function FetchErrorMessage(url: string): (r: string)
    ensures UrlOfFetchError(r) == Some(url)
  {
    FramedConcat(FetchFailurePrefix, url, FetchFailureSuffix);
    FetchFailurePrefix + url + FetchFailureSuffix
  }

  /** The URL a backend error message names, if the text is such a message. */
  function UrlOfFetchError(message: string): Option<string>
  {
    if Framed(message, FetchFailurePrefix, FetchFailureSuffix)
    then Some(Inner(message, FetchFailurePrefix, FetchFailureSuffix))
    else None
  }

  /** Every text UrlOfFetchError accepts is the message for the URL it returns. */
  lemma FetchErrorMessageOfUrl(message: string, url: string)
    requires UrlOfFetchError(message) == Some(url)
    ensures FetchErrorMessage(url) == message
  {
    FramedSplit(message, FetchFailurePrefix, FetchFailureSuffix);
  }

  /** The URL the front end fetches the DSL script from: the base URL followed by the path. */
  function InitialDataUrl(): string
  {
    BackendBase + InitialDataPath
  }

  /**
   * The script URL is `http://127.0.0.1:5000/get-initial-data`, and when it
   * cannot be fetched that URL is what a reader of the message gets back.
   */
  lemma InitialDataFetchError()
    ensures InitialDataUrl() == "http://127.0.0.1:5000/get-initial-data"
    ensures UrlOfFetchError(FetchErrorMessage(InitialDataUrl())) == Some("http://127.0.0.1:5000/get-initial-data")
  {
  }

  /** The message used when the failed Gemini response gives no `error` of its own. */
  const GeminiFailureMessage: string := "Failed to get a response from the Gemini API."

  /**
   * What is thrown: an `Error` with its message, or a `TypeError` the
   * JavaScript runtime raises on the way (its message is the engine's own).
   */
  datatype Thrown = Error(message: string) | TypeError

  /** JavaScript truthiness of a JSON value. */
  predicate JsTruthy(v: Json)
  {
    match v
    case JNull => false
    case JBool(b) => b
    case JNum(n) => n != 0
    case JStr(s) => s != ""
    case _ => true
  }

  /**
   * `errorData.error`: `None` stands for `undefined`. Reading a property of
   * `null` raises a TypeError; strings, numbers, booleans and arrays have no
   * property `error`.
   */
  function ErrorProperty(body: Json): (r: Result<Option<Json>, Thrown>)
    ensures r.Failure? <==> body.JNull?
    ensures r.Failure? ==> r.error == TypeError
    ensures r.Success? && r.value.Some? ==> body.JObj? && exists i :: 0 <= i < |body.members| && body.members[i] == ("error", r.value.value)
    ensures body.JObj? ==> r.Success? && (r.value.Some? <==> exists i :: 0 <= i < |body.members| && body.members[i].0 == "error")
    ensures !body.JObj? && !body.JNull? ==> r == Success(None)
  {
    match body
    case JNull => Failure(TypeError)
    case JObj(members) => Success(Lookup(members, "error"))
    case _ => Success(None)
  }

  /**
   * `String(v)` as `new Error(v)` applies it to a value parsed from JSON;
   * `None` stands for the TypeError raised for an object with an own property
   * `toString`, which is then not callable and leaves no way to a primitive.
   */
  function ToJsString(v: Json): (r: Option<string>)
    ensures v.JStr? ==> r == Some(v.s)
    ensures v.JObj? ==> (r.None? <==> Lookup(v.members, "toString").Some?)
    ensures v.JObj? && r.Some? ==> r.value == "[object Object]"
    decreases v, 1
  {
    match v
    case JNull => Some("null")
    case JBool(b) => Some(if b then "true" else "false")
    case JNum(n) => Some(Decimal(n))
    case JStr(s) => Some(s)
    case JArr(_) => JoinFrom(v, 0)
    case JObj(members) =>
      if Lookup(members, "toString").Some? then None else Some("[object Object]")
  }

  /**
   * `Array.prototype.join(",")` on the elements of the array `v` from index
   * `i` on: `null` elements give "", the others their `String`.
   */
  function JoinFrom(v: Json, i: nat): (r: Option<string>)
    requires v.JArr?
    decreases v, 0, |v.elems| - i
  {
    if i >= |v.elems| then Some("")
    else
      var head := if v.elems[i].JNull? then Some("") else ToJsString(v.elems[i]);
      match (head, JoinFrom(v, i + 1))
      case (Some(h), Some(t)) => Some((if i > 0 then "," else "") + h + t)
      case _ => None
  }

  /** Strings joined with commas between them. */
  function CommaJoined(ss: seq<string>): string
  {
    if |ss| == 0 then ""
    else if |ss| == 1 then ss[0]
    else ss[0] + "," + CommaJoined(ss[1..])
  }

  /** The contents of an array whose elements are all strings. */
  function StringElems(v: Json): (ss: seq<string>)
    requires v.JArr? && forall k :: 0 <= k < |v.elems| ==> v.elems[k].JStr?
    ensures |ss| == |v.elems|
    ensures forall k :: 0 <= k < |ss| ==> v.elems[k] == JStr(ss[k])
  {
    seq(|v.elems|, k requires 0 <= k < |v.elems| => v.elems[k].s)
  }

  /** JoinFrom on an array of strings: the remaining strings joined with commas. */
  lemma {:induction false} JoinFromStrings(v: Json, i: nat)
    requires v.JArr? && forall k :: 0 <= k < |v.elems| ==> v.elems[k].JStr?
    requires i < |v.elems|
    ensures JoinFrom(v, i) == Some((if i > 0 then "," else "") + CommaJoined(StringElems(v)[i..]))
    decreases |v.elems| - i
  {
    var ss := StringElems(v);
    var sep := if i > 0 then "," else "";
    assert ToJsString(v.elems[i]) == Some(ss[i]);
    if i + 1 < |v.elems| {
      JoinFromStrings(v, i + 1);
      assert ss[i..][1..] == ss[i + 1..];
      assert CommaJoined(ss[i..]) == ss[i] + "," + CommaJoined(ss[i + 1..]);
      var rest := CommaJoined(ss[i + 1..]);
      assert JoinFrom(v, i) == Some(sep + ss[i] + ("," + rest));
      assert sep + ss[i] + ("," + rest) == sep + (ss[i] + "," + rest);
    } else {
      assert JoinFrom(v, i + 1) == Some("");
      assert JoinFrom(v, i) == Some(sep + ss[i] + "");
      assert sep + ss[i] + "" == sep + ss[i];
      assert |ss[i..]| == 1 && ss[i..][0] == ss[i];
    }
  }

  /** An array of strings reads as its strings joined with commas. */
  lemma ArrayOfStringsText(v: Json)
    requires v.JArr? && forall k :: 0 <= k < |v.elems| ==> v.elems[k].JStr?
    ensures ToJsString(v) == Some(CommaJoined(StringElems(v)))
  {
    if |v.elems| > 0 {
      JoinFromStrings(v, 0);
      var joined := CommaJoined(StringElems(v)[0..]);
      assert "" + joined == joined;
      assert StringElems(v)[0..] == StringElems(v);
    } else {
      assert JoinFrom(v, 0) == Some("");
    }
  }

  /**
   * What is thrown when the Gemini response is not OK, given its parsed body:
   * `new Error(errorData.error || GeminiFailureMessage)`.
   */
  function CompileError(body: Json): (r: Thrown)
    ensures body.JNull? ==> r == TypeError
    ensures ErrorProperty(body).Success? && (ErrorProperty(body).value.None? || !JsTruthy(ErrorProperty(body).value.value))
            ==> r == Error(GeminiFailureMessage)
  {
    match ErrorProperty(body)
    case Failure(e) => e
    case Success(error) =>
      if error.Some? && JsTruthy(error.value) then
        var m := ToJsString(error.value);
        if m.Some? then Error(m.value) else TypeError
      else Error(GeminiFailureMessage)
  }

  /** A non-empty string under `error` is the message thrown. */
  lemma CompileErrorOfStringError(body: Json, m: string)
    requires body.JObj? && Lookup(body.members, "error") == Some(JStr(m)) && m != ""
    ensures CompileError(body) == Error(m)
  {
  }

  /**
   * The Gemini API reports failure with a body whose `error` is an object
   * holding `code`, `message` and `status`.
   */
  predicate IsGeminiErrorBody(body: Json, m: string)
  {
    body.JObj?
    && Lookup(body.members, "error").Some?
    && var e := Lookup(body.members, "error").value;
       e.JObj? && Lookup(e.members, "message") == Some(JStr(m)) && Lookup(e.members, "toString").None?
  }

  /**
   * For such a body the thrown message is the text "[object Object]", whatever
   * message the API gave.
   */
  lemma GeminiErrorBodyGivesObjectText(body: Json, m: string)
    requires IsGeminiErrorBody(body, m)
    ensures CompileError(body) == Error("[object Object]")
  {
  }

  /** A body as the Gemini API sends it: `{"error": {"code": 400, "message": m, "status": "INVALID_ARGUMENT"}}`. */
  function GeminiErrorBody(m: string): (body: Json)
    ensures IsGeminiErrorBody(body, m)
  {
    JObj([("error", JObj([("code", JNum(400)), ("message", JStr(m)), ("status", JStr("INVALID_ARGUMENT"))]))])
  }

  /** The API's message never reaches the user, even when it is not empty. */
  lemma GeminiMessageIsLost(m: string)
    requires m != "" && m != "[object Object]"
    ensures CompileError(GeminiErrorBody(m)) != Error(m)
  {
    GeminiErrorBodyGivesObjectText(GeminiErrorBody(m), m);
  }

  /**
   * The error evidently intended: the API's own `error.message` when `error`
   * is an object carrying a non-empty string `message`, and otherwise what
   * CompileError throws.
   */
  function IntendedCompileError(body: Json): (r: Thrown)
    ensures forall m :: IsGeminiErrorBody(body, m) && m != "" ==> r == Error(m)
    ensures ErrorProperty(body).Success? && ErrorProperty(body).value.Some? && !ErrorProperty(body).value.value.JObj?
            ==> r == CompileError(body)
    ensures ErrorProperty(body).Failure? || ErrorProperty(body).value.None? ==> r == CompileError(body)
  {
    match ErrorProperty(body)
    case Success(Some(JObj(fields))) =>
      var message := Lookup(fields, "message");
      if message.Some? && message.value.JStr? && message.value.s != "" then Error(message.value.s)
      else CompileError(body)
    case _ => CompileError(body)
  }
}
