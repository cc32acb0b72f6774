# AI frontend compiler — verified model of the browser client

The client in `main.js` does three things:
- It loads a DSL script from a local backend.
- It asks the Gemini API to compile that script into an HTML form.
- It mounts the result: it splits the generated HTML into static markup and inline scripts, and runs the scripts itself.

This project models the parts of that client that compute, and proves properties about them:

- **ScriptSplitter** models the `replace` call with the regex `/<script\b[^>]*>([\s\S]*?)<\/script>/gi`, which separates markup from script content.
  - A pure function `Split` states one global regex pass: leftmost match from the current position, delete it, record its group, resume after it.
  - The method `SplitScripts` implements that pass as a loop and is proved equal to `Split`.
  - A declarative predicate `IsBlockAt` states what the regex matches. It is proved to agree with the scanner.
  - Lemmas prove four things: the removed blocks are exactly the leftmost non-overlapping matches; the markup and blocks rebuild the input; a text without matches comes back unchanged; a `<script` with no closing tag after it, or with no `>` after it, removes nothing from there on, even after blocks that did close before it.
- **Credentials** models `getApiKey`. The browser's `localStorage` is a class `KeyStore` whose map field the lookup updates in place. The user's answer to the `prompt` dialog is a parameter. JavaScript falsiness applies: a stored `""` counts as absent, and a `null` or `""` answer counts as declined.
- **GeminiRequest** models the request sent to the API:
  - the prompt wrapped around the DSL script;
  - the `{contents:[{parts:[{text}]}]}` payload;
  - its `JSON.stringify` text;
  - the URL carrying the key.

  Each builder has a reader that inverts it. The builder's contract says the reader gives its input back, and a lemma says the reader accepts nothing but the builder's output.
- **JsonText** models JSON values and `JSON.stringify`, including its string escaping. A strict decoder is proved to invert the escaping in both directions.
- **ErrorMessages** models the backend fetch error and the error thrown when the Gemini response is not OK. That error goes through `errorData.error || …` and JavaScript's `String` conversion of a parsed JSON value.

The template literal of the prompt is written over CRLF lines, and JavaScript reads each line terminator in it as `"\n"`, so the modelled prompt uses `"\n"`. Four of the instruction lines end in a space.

Three points of `main.js` that the model follows as written:
- `getApiKey` tests the stored key for truthiness, not for presence (main.js:14). A stored empty string counts as absent and the user is asked again.
- The prompt holds only the fixed instructions and the DSL script (main.js:57-66). The backend's base URL is not in it; the prompt only tells the model that the base URL is in a variable named `url`.
- A failed compile throws `new Error(errorData.error || …)` (main.js:83-85). `new Error` converts the `error` member with `String`, which for the Gemini API's error object gives "[object Object]" (see Findings).

## Model

| member | source | states |
|---|---|---|
| ScriptSplitter.FindTagEnd | main.js:92 | `[^>]*>` stops at the first `>` at or after the position: the result holds `>` and nothing before it does; with no `>` left there is no match |
| ScriptSplitter.FindCloseTag | main.js:92 | the lazy group stops at the first case-insensitive `</script>`: none starts between the position and the result; with no closing tag left there is no match |
| ScriptSplitter.MatchAt | main.js:92 | an anchored match starts at the given position and its tag, content and closing tag lie in order inside the text |
| ScriptSplitter.MatchAtIsRegexMatch | main.js:92 | the scanner finds a block at `p` exactly when the declarative regex match `IsBlockAt` starts at `p` (both directions) |
| ScriptSplitter.MatchAtSound | main.js:92 | every block the scanner reports is a regex match |
| ScriptSplitter.MatchAtComplete | main.js:92 | every regex match is reported by the scanner at its start |
| ScriptSplitter.BlockAtStartUnique | main.js:92 | at a given start the regex has at most one match |
| ScriptSplitter.Split | main.js:94-100 | one script per removed block; the markup is no longer than the text, and is the text itself when nothing is removed (what the blocks are: SplitRemovesLeftmostMatches; what the markup is: SplitReconstructsInput) |
| ScriptSplitter.SplitFrom | main.js:94-100 | the scan records one block per script |
| ScriptSplitter.SplitScripts | main.js:93-100 | the loop that copies text between matches and pushes each group returns exactly the markup, scripts and blocks of `Split` |
| ScriptSplitter.SplitFromFindsLeftmostMatches | main.js:94-100 | the blocks found are the leftmost, non-overlapping regex matches, each search resuming where the previous match ended |
| ScriptSplitter.LeftmostMatchesAreUnique | main.js:94-100 | any sequence of leftmost non-overlapping matches is the one the scan finds |
| ScriptSplitter.SplitRemovesLeftmostMatches | main.js:94-100 | a sequence of blocks is the leftmost-match sequence of the text exactly when it is the one `Split` removes |
| ScriptSplitter.SplitReconstructsInput | main.js:94-100 | the markup is the gaps between blocks concatenated; the scripts are the blocks' groups in order; interleaving gaps and block texts rebuilds the input; markup length plus block lengths is the input length |
| ScriptSplitter.SplitWithoutMatches | main.js:94-100 | no script is found exactly when the regex matches nowhere, and exactly when the markup is the input unchanged |
| ScriptSplitter.UnclosedTextIsKept | main.js:92-100 | a text with no closing tag anywhere comes back whole with no scripts |
| ScriptSplitter.UnclosedTagIsKept | main.js:92-100 | a `<script` at `p` with no closing tag at or after `p` removes nothing from `p` on, whatever blocks closed before it: every removed block ends at or before `p`, and the markup ends with the whole text from `p` |
| ScriptSplitter.UnterminatedTagIsKept | main.js:92-100 | the same for a `<script` at `p` with no `>` after it: every removed block ends at or before `p`, and the markup ends with the whole text from `p` |
| Credentials.Truthy | main.js:14-16 | the tests `!key` and `if (key)`: a key counts only when it is there and not empty (its use: ResolveKey) |
| Credentials.ResolveKey | main.js:12-23 | it prompts exactly when no non-empty key is stored; it fails, with "API key is required to use this application." and the store unchanged, exactly when neither the stored key nor the answer is non-empty; a returned key is non-empty and is what is stored afterwards; a stored non-empty key wins over the answer |
| Credentials.ResolvedKeyIsRemembered | main.js:12-23 | after a successful lookup, the next lookup returns the same key without prompting, whatever the user would answer |
| Credentials.FailedLookupAsksAgain | main.js:12-23 | after a failed lookup the next lookup prompts again and succeeds exactly when the new answer is non-empty |
| Credentials.KeyStore.GetItem | main.js:13 | `getItem` yields a value exactly when the key is stored, and that value is the stored string |
| Credentials.KeyStore.SetItem | main.js:17 | `setItem` sets that one key and leaves the others as they were |
| Credentials.KeyStore.GetApiKey | main.js:12-23 | result, prompting and the stored key afterwards are those of `ResolveKey` on the stored key and the answer; the store changes only when the user was asked and gave a key, and then only under "geminiApiKey" |
| GeminiRequest.PromptText | main.js:57-66 | the prompt reader gives back the DSL script, so distinct scripts give distinct prompts |
| GeminiRequest.PromptTextOfDsl | main.js:57-66 | every text the prompt reader accepts is the prompt of the script it returns |
| GeminiRequest.ApiUrl | main.js:54 | the key reader gives back the API key from the request URL |
| GeminiRequest.ApiUrlOfKey | main.js:54 | every URL the key reader accepts is the request URL of the key it returns |
| GeminiRequest.MakePayload | main.js:68-70 | the payload holds one content with one part whose text is the prompt |
| GeminiRequest.MakePayloadOfPrompt | main.js:68-70 | any value shaped as one content with one text part is the payload built for its text |
| GeminiRequest.StringifySingleMember | main.js:76 | `JSON.stringify` of a one-member object is `{"key":` + the value's text + `}` |
| GeminiRequest.RequestBodyLayout | main.js:68-76 | `JSON.stringify` of the payload is the escaped prompt inside the fixed frame `{"contents":[{"parts":[{"text":"` … `"}]}]}` |
| GeminiRequest.RequestBody | main.js:76 | the body reader gives back the prompt from the request body |
| GeminiRequest.RequestBodyOfPrompt | main.js:68-76 | every text the body reader accepts is the request body of the prompt it returns |
| JsonText.EscapeChar | main.js:76 | an escape starts with a backslash exactly for `"`, `\` and control characters; nothing escaped starts with a raw quote or a control character |
| JsonText.Escape | main.js:76 | the escaped text is at least as long as the string and holds no control character |
| JsonText.UnescapeEscape | main.js:76 | decoding the escaped text gives back the string |
| JsonText.EscapeUnescape | main.js:76 | every text the decoder accepts is the escaping of what it decodes to |
| JsonText.Stringify | main.js:76 | `JSON.stringify` without indentation writes one line: no control character appears in its text (the exact text of the payload: RequestBodyLayout) |
| JsonText.Digits | main.js:83-85 | the decimal digits of a number denote that number, with no leading zero except for 0 itself |
| JsonText.Lookup | main.js:84 | a property found is a member of the object with that key; none found means no member has that key |
| ErrorMessages.FetchErrorMessage | main.js:141-145 | the URL reader gives back the failing URL from the backend error message, so different URLs give different messages |
| ErrorMessages.InitialDataFetchError | main.js:5-6 | the DSL script is fetched from `http://127.0.0.1:5000/get-initial-data` (main.js:156), and that URL is what the error message for it gives back |
| ErrorMessages.FetchErrorMessageOfUrl | main.js:141-145 | every text the URL reader accepts is the backend error message for the URL it returns |
| ErrorMessages.ErrorProperty | main.js:84 | reading `error` throws a TypeError exactly for a `null` body; an object body yields a value exactly when it has a member `error`, and that member is what it yields; a string, number, boolean or array body yields `undefined` |
| ErrorMessages.JsTruthy | main.js:84 | the test `\|\|` applies: `null`, `false`, `0` and `""` are falsy, every other value is truthy (its use: CompileError) |
| ErrorMessages.ToJsString | main.js:83-85 | `String` of a string is itself; of an object it is "[object Object]", except that an object with an own `toString` makes it throw |
| ErrorMessages.ArrayOfStringsText | main.js:83-85 | `String` of an array of strings is the strings joined with commas |
| ErrorMessages.CompileError | main.js:81-86 | a `null` body throws a TypeError; a missing or falsy `error` throws "Failed to get a response from the Gemini API." |
| ErrorMessages.CompileErrorOfStringError | main.js:81-86 | a non-empty string under `error` is the message thrown |
| ErrorMessages.GeminiErrorBodyGivesObjectText | main.js:81-86 | for an error body shaped as the Gemini API sends it, the message thrown is "[object Object]" |
| ErrorMessages.GeminiMessageIsLost | main.js:81-86 | the API's own non-empty message is never the message thrown for such a body |
| ErrorMessages.IntendedCompileError | main.js:81-86 | the corrected error carries the API's `error.message` for a Gemini error body, and agrees with the code as written whenever `error` is absent or not an object |

## Left out

- DOM work is not modelled:
  - the output container and its cloned replacement;
  - the submit interception and the loading spinner;
  - the compile-time heading;
  - the error paragraph that shows `error.message` followed by a period;
  - the `<script>` elements created for each extracted script.
- `fetch`, `async`/`await`, `response.ok` and `response.json()` are left out: they are network I/O and JSON decoding. The model starts from a parsed error body and from the generated HTML text. A body that is not valid JSON, and the `candidates[0].content.parts[0].text` lookup, are not modelled.
- `Date.now()`, the compile time and `toFixed(2)` are left out: they are clock readings and floating-point formatting.
- The backend (`backend.py`) is not part of this model.
- Real `localStorage` and `prompt`: storage is the `KeyStore` map, and the dialog's answer is a parameter.
- Characters are Unicode scalar values rather than UTF-16 code units. The regex pattern and the JSON escapes concern ASCII only, so this changes nothing except that lone surrogates, which `JSON.stringify` escapes, cannot occur.
- JsonText.Json: numbers are integers. Fractions, `-0`, and magnitudes from 1e21 on, which JavaScript prints differently, are not modelled.
- JsonText.Stringify: it writes an object's members in the order given. JavaScript would put integer-like keys first.
- JsonText.Lookup: a member list may hold one key twice, which no parsed JavaScript object does. Lookup then takes the first such member, where `JSON.parse` would keep the last. The model never builds such a list.
- JsonText.Unescape: it accepts only the escapes `JSON.stringify` writes. It is not a decoder for every JSON string (`\/` and `\u0041` are refused).
- GeminiRequest.PromptText: it takes the DSL script as a string. A backend response without a string `script` would interpolate as `"undefined"` or as that value's own text; this is not modelled.
- ErrorMessages.CompileError: a TypeError raised by the runtime carries the engine's own message. The model records only that a TypeError was thrown.

## Findings

| source | as written | input that shows it | evidently intended | confidence | as-written member | corrected member |
|---|---|---|---|---|---|---|
| main.js:83-85 | `new Error(errorData.error \|\| "Failed to get a response from the Gemini API.")` converts the `error` member with `String` | the Gemini error body `{"error": {"code": 400, "message": "API key not valid", "status": "INVALID_ARGUMENT"}}` throws an Error whose message is "[object Object]" | the API's `error.message` ("API key not valid") is shown | medium, not executed | ErrorMessages.GeminiMessageIsLost | ErrorMessages.IntendedCompileError |
