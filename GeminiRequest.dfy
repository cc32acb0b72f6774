/**
 * The request the front end sends to the Gemini API to compile a DSL script:
 * the prompt that wraps the script, the JSON payload carrying the prompt, the
 * text of that payload on the wire and the URL carrying the API key.
 */
module GeminiRequest {
  import opened Wrappers
  import opened JsonText
  import opened Affixes

  /**
   * The fixed text before the DSL script in the prompt. The template literal
   * is written over CRLF lines, which JavaScript reads as "\n"; its first,
   * second, third and fourth instruction lines end in a space.
   */
  const PromptHeader: string :=
    "\nYou are a frontend compiler. "
    + "\nInterpret the following DSL and generate a user-friendly HTML form. "
    + "\nInclude CSS for layout and JavaScript for form submission to the endpoint. "
    + "\nEndpoint URL must be dynamically constructed in JavaScript before making the fetch call baseUrl is avaliable in url variable. "
    + "\nThe generated code should be placed inside a <div> element. The output must contain only a single <div> element."
    + "\n\nDSL:\n"

  /**
   * The prompt for a DSL script: the header, the script verbatim, then a line
   * break. The script is recovered from its prompt, so no two scripts share a
   * prompt.
   */
  function PromptText(dsl: string): (r: string)
    ensures DslFromPrompt(r) == Some(dsl)
  {
    FramedConcat(PromptHeader, dsl, "\n");
    PromptHeader + dsl + "\n"
  }

  /** The DSL script a prompt carries, if the text is a prompt at all. */
  function DslFromPrompt(prompt: string): Option<string>
  {
    if Framed(prompt, PromptHeader, "\n") then Some(Inner(prompt, PromptHeader, "\n")) else None
  }

  /** Every text DslFromPrompt accepts is the prompt of the script it returns. */
  lemma PromptTextOfDsl(prompt: string, dsl: string)
    requires DslFromPrompt(prompt) == Some(dsl)
    ensures PromptText(dsl) == prompt
  {
    FramedSplit(prompt, PromptHeader, "\n");
  }

  /** The generateContent endpoint of the model the front end calls. */
  const ModelEndpoint: string :=
    "https://generativelanguage.googleapis.com/v1beta/models/gemini-2.5-flash-preview-05-20:generateContent"

  /** The text placed between the endpoint and the key. */
  const KeyQuery: string := "?key="

  /**
   * The request URL: the endpoint with the API key as `key` query parameter,
   * not encoded. The key is recovered from the URL.
   */
  function ApiUrl(apiKey: string): (r: string)
    ensures KeyFromUrl(r) == Some(apiKey)
  {
    var prefix := ModelEndpoint + KeyQuery;
    assert prefix + apiKey == prefix + apiKey + "";
    FramedConcat(prefix, apiKey, "");
    prefix + apiKey
  }

  /** The API key a request URL carries, if it is such a URL. */
  function KeyFromUrl(url: string): Option<string>
  {
    if Framed(url, ModelEndpoint + KeyQuery, "") then Some(Inner(url, ModelEndpoint + KeyQuery, "")) else None
  }

  /** Every URL KeyFromUrl accepts is the request URL of the key it returns. */
  lemma ApiUrlOfKey(url: string, apiKey: string)
    requires KeyFromUrl(url) == Some(apiKey)
    ensures ApiUrl(apiKey) == url
  {
    var prefix := ModelEndpoint + KeyQuery;
    FramedSplit(url, prefix, "");
    assert prefix + apiKey + "" == prefix + apiKey;
  }

  /**
   * `{ contents: [{ parts: [{ text: prompt }] }] }`: one content with one part
   * whose text is the prompt.
   */
  function MakePayload(prompt: string): (r: Json)
    ensures PromptOfPayload(r) == Some(prompt)
  {
    JObj([("contents", JArr([JObj([("parts", JArr([JObj([("text", JStr(prompt))])]))])]))])
  }

  /** The value of `v` when it is an object whose only property is `key`. */
  function SoleMember(v: Json, key: string): (r: Option<Json>)
    ensures r.Some? ==> v == JObj([(key, r.value)])
  {
    if v.JObj? && |v.members| == 1 && v.members[0].0 == key then Some(v.members[0].1) else None
  }

  /** The element of `v` when it is an array of one element. */
  function SoleElem(v: Json): (r: Option<Json>)
    ensures r.Some? ==> v == JArr([r.value])
  {
    if v.JArr? && |v.elems| == 1 then Some(v.elems[0]) else None
  }

  /**
   * The text of the one part of the one content of a payload shaped as
   * MakePayload builds it: an object whose only property is `contents`, an
   * array of one object whose only property is `parts`, an array of one
   * object whose only property is the string `text`.
   */
  function PromptOfPayload(v: Json): (r: Option<string>)
  {
    var contents := SoleMember(v, "contents");
    if contents.None? then None else
    var content := SoleElem(contents.value);
    if content.None? then None else
    var parts := SoleMember(content.value, "parts");
    if parts.None? then None else
    var part := SoleElem(parts.value);
    if part.None? then None else
    var text := SoleMember(part.value, "text");
    if text.Some? && text.value.JStr? then Some(text.value.s) else None
  }

  /** Every payload PromptOfPayload accepts is the one MakePayload builds for its prompt. */
  lemma MakePayloadOfPrompt(v: Json, prompt: string)
    requires PromptOfPayload(v) == Some(prompt)
    ensures MakePayload(prompt) == v
  {
  }

  /** Text made only of characters `JSON.stringify` copies unchanged. */
  predicate Plain(s: string)
  {
    forall i :: 0 <= i < |s| ==> s[i] >= ' ' && s[i] != '"' && s[i] != '\\'
  }

  /** Escaping leaves plain text as it is. */
  lemma {:induction false} EscapePlain(s: string)
    requires Plain(s)
    ensures Escape(s) == s
    decreases |s|
  {
    if |s| > 0 {
      assert Plain(s[1..]) by {
        assert forall i :: 0 <= i < |s| - 1 ==> s[1..][i] == s[i + 1];
      }
      EscapePlain(s[1..]);
      assert [s[0]] + s[1..] == s;
    }
  }

  /** The text `JSON.stringify` writes before the value of an object's one member `key`. */
  function MemberOpen(key: string): string
  {
    "{" + "\"" + key + "\"" + ":"
  }

  /** The members of an object with the one member `key: value`. */
  lemma SingleMemberText(key: string, value: Json)
    ensures StringifyMembers(JObj([(key, value)]), 0) == Quote(key) + ":" + Stringify(value)
  {
    var v := JObj([(key, value)]);
    assert StringifyMembers(v, 1) == "";
  }

  /** `o + (q + k + q + c + x) + e` regrouped as `(o + q + k + q + c) + x + e`. */
  lemma Regroup(o: string, q: string, k: string, c: string, x: string, e: string)
    ensures o + ((q + k + q) + c + x) + e == (o + q + k + q + c) + x + e
  {
  }

  /** `JSON.stringify` of an object with the one member `key: value`. */
  lemma StringifySingleMember(key: string, value: Json)
    requires Plain(key)
    ensures Stringify(JObj([(key, value)])) == MemberOpen(key) + Stringify(value) + "}"
  {
    var v := JObj([(key, value)]);
    SingleMemberText(key, value);
    assert Quote(key) == "\"" + key + "\"" by {
      EscapePlain(key);
    }
    Regroup("{", "\"", key, ":", Stringify(value), "}");
  }

  /** `JSON.stringify` of an array with the one element `value`. */
  lemma StringifySingleElem(value: Json)
    ensures Stringify(JArr([value])) == "[" + Stringify(value) + "]"
  {
    var v := JArr([value]);
    var x := Stringify(value);
    assert StringifyElems(v, 1) == "";
    assert StringifyElems(v, 0) == Enclose("", x, "");
    assert "" + x + "" == x;
  }

  /** Text placed around text placed around `mid` is placed around `mid`. */
  lemma Nest(a: string, b: string, mid: string, c: string, d: string)
    ensures a + (b + mid + c) + d == (a + b) + mid + (c + d)
  {
  }

  /** The body text before the escaped prompt. */
  function BodyPrefix(): string
  {
    MemberOpen("contents") + ("[" + (MemberOpen("parts") + ("[" + (MemberOpen("text") + "\""))))
  }

  /** The body text after the escaped prompt. */
  function BodySuffix(): string
  {
    "\"" + "}" + "]" + "}" + "]" + "}"
  }

  /**
   * `JSON.stringify(payload)`: the text sent as the request body. The prompt
   * is recovered from it.
   */
  function RequestBody(prompt: string): (r: string)
    ensures PromptFromBody(r) == Some(prompt)
  {
    RequestBodyLayout(prompt);
    FramedConcat(BodyPrefix(), Escape(prompt), BodySuffix());
    UnescapeEscape(prompt);
    Stringify(MakePayload(prompt))
  }

  /** The text of the payload is the prompt, escaped, inside a fixed frame. */
  lemma RequestBodyLayout(prompt: string)
    ensures Stringify(MakePayload(prompt)) == BodyPrefix() + Escape(prompt) + BodySuffix()
  {
    var e := Escape(prompt);
    var text := JStr(prompt);
    var part := JObj([("text", text)]);
    var parts := JArr([part]);
    var content := JObj([("parts", parts)]);
    var contents := JArr([content]);
    assert Plain("text") && Plain("parts") && Plain("contents");
    var q := "\"";
    assert Stringify(text) == q + e + q;
    var p1, s1 := MemberOpen("text") + q, q + "}";
    assert Stringify(part) == p1 + e + s1 by {
      StringifySingleMember("text", text);
      Nest(MemberOpen("text"), q, e, q, "}");
    }
    var p2, s2 := "[" + p1, s1 + "]";
    assert Stringify(parts) == p2 + e + s2 by {
      StringifySingleElem(part);
      Nest("[", p1, e, s1, "]");
    }
    var p3, s3 := MemberOpen("parts") + p2, s2 + "}";
    assert Stringify(content) == p3 + e + s3 by {
      StringifySingleMember("parts", parts);
      Nest(MemberOpen("parts"), p2, e, s2, "}");
    }
    var p4, s4 := "[" + p3, s3 + "]";
    assert Stringify(contents) == p4 + e + s4 by {
      StringifySingleElem(content);
      Nest("[", p3, e, s3, "]");
    }
    var p5, s5 := MemberOpen("contents") + p4, s4 + "}";
    assert Stringify(MakePayload(prompt)) == p5 + e + s5 by {
      StringifySingleMember("contents", contents);
      Nest(MemberOpen("contents"), p4, e, s4, "}");
    }
  }

  /** The prompt a request body carries, if the text is such a body. */
  function PromptFromBody(body: string): Option<string>
  {
    if Framed(body, BodyPrefix(), BodySuffix()) then Unescape(Inner(body, BodyPrefix(), BodySuffix())) else None
  }

  /** Every text PromptFromBody accepts is the request body of the prompt it returns. */
  lemma RequestBodyOfPrompt(body: string, prompt: string)
    requires PromptFromBody(body) == Some(prompt)
    ensures RequestBody(prompt) == body
  {
    var inner := Inner(body, BodyPrefix(), BodySuffix());
    EscapeUnescape(inner, prompt);
    RequestBodyLayout(prompt);
    FramedSplit(body, BodyPrefix(), BodySuffix());
  }
}
