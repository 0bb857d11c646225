# rest-client-app: the request-representation layer in Dafny

This project models the part of the REST client web application that turns a request into text and back. It covers:

- the two placeholder-substitution engines:
  - `replaceVariables` with its lazy `{{…}}` scanner over a variable list;
  - `applyVariablesToString` with its `{{\s*([^}]+)\s*}}` pattern over a record, and its deep structural lift;
- the variable-list upsert and delete;
- UTF-8 plus base64 route encoding;
- the route builders and the route decoder of the request hook;
- the seven code generators (curl, fetch, XHR, Python, Java, C#, Go);
- the header-list editor, the Tab key of the body editor and the locale-switching path rewrite;
- the password and confirm-password rules of the sign-in and sign-up schemas;
- the authorization decision for protected pages.

The library behaviour the source relies on is written out in shared modules:

- `Strings`: `trim`, `split`, `join`, ASCII `toUpperCase`.
- `Utf8`: `TextEncoder`, and `TextDecoder` with replacement characters.
- `Base64`: `btoa`, and the forgiving `atob`.
- `FormUrlEncoded`: the `URLSearchParams` serializer and parser of the WHATWG URL Standard, and `encodeURIComponent`.
- `Json`: `JSON.stringify` of strings, flat records and values.
- `OrderedMaps`: plain-object and `URLSearchParams.set` insertion order.

A string is a `seq<char>` of Unicode scalar values. Each generator's template literal is a sequence of literal pieces and interpolation holes (`Templates`), so what reaches the program text can be stated hole by hole.

Where the source has an evident defect, the model keeps the code as written and adds a corrected variant beside it; both are proved. Two of these variants are selected by a flag:

- `RestClientRequest.Encoding`: `AsWritten` or `Corrected`;
- `AuthConfig.Reading`: `AsWritten` or `Corrected`.

The corrected route encoding uses the URL-safe alphabet, puts each header value in the query without `encodeURIComponent`, and decodes with `ignoreBOM`, so a leading U+FEFF survives.

## Model

| member | source | states |
|---|---|---|
| `Placeholders.Close` | src/lib/variables/replaceVariables.ts:5 | a close found for the lazy `{{(.*?)}}` match is a `}}` |
| `Placeholders.CloseMeaning` | src/lib/variables/replaceVariables.ts:5 | the lazy match closes at the first `}}`, with no line terminator before it; there is no close when every `}}` is behind a line break |
| `Placeholders.Lookup` | src/lib/variables/replaceVariables.ts:6-7 | the value of the first variable whose key equals the name, or `''` when no key does |
| `Placeholders.NoPlaceholderUnchanged` | src/lib/variables/replaceVariables.ts:5 | a text with no closed `{{…}}` is returned unchanged for every variable list |
| `Placeholders.UnclosedUnchanged` | src/lib/variables/replaceVariables.ts:5 | a text in which no `}}` closes a token passes through untouched |
| `Placeholders.ReplaceToken` | src/lib/variables/replaceVariables.ts:5-7 | `{{name}}` becomes the first matching variable's value for the trimmed name, and the scan continues after the token |
| `Placeholders.MissingNameRemoved` | src/lib/variables/replaceVariables.ts:7 | a token whose trimmed name no variable has is replaced by nothing |
| `Placeholders.LiteralPrefix` | src/lib/variables/replaceVariables.ts:5 | text without `{` is copied as is, and the rest is scanned after it |
| `Placeholders.EmptyVariablesLeaveNoPlaceholder` | src/lib/variables/replaceVariables.ts:5-7 | with no variables, no closed `{{…}}` is left in the result |
| `Placeholders.NoReexpansion` | src/lib/variables/replaceVariables.ts:5 | a value holding `{{b}}` is inserted literally and not expanded again |
| `Placeholders.ReplaceVariablesInHeaders` | src/lib/variables/replaceVariables.ts:11-19 | same length and order; each key and value substituted on its own |
| `Placeholders.HeadersWithoutPlaceholders` | src/lib/variables/replaceVariables.ts:15-18 | headers without placeholders come back equal |
| `RequestSubstitution.ApplyVariablesToRequest` | src/lib/codegen/applyVariables.ts:5-15 | method kept; url substituted; a missing body becomes `''` and is substituted; headers substituted in place, same length and order |
| `RequestSubstitution.NoVariablesRemovesEveryPlaceholder` | src/lib/codegen/applyVariables.ts:11-13 | with no variables no `{{…}}` token survives in url, body or headers |
| `RequestSubstitution.PlaceholderFreeUnchanged` | src/lib/codegen/applyVariables.ts:9-14 | a request without placeholders comes back equal, except that its body is now present |
| `RequestSubstitution.NoVariablesIdempotent` | src/lib/codegen/applyVariables.ts:9-14 | substituting twice with no variables is the same as once |
| `VariablesStorage.AddVariable` | src/lib/variables/variablesStorage.ts:24-29 | the new variable is last; its key occurs exactly once; the other entries are exactly those with other keys; the length is old length minus the key's count plus one |
| `VariablesStorage.RemoveVariable` | src/lib/variables/variablesStorage.ts:31-35 | no entry with the key remains; the others are kept; an absent key leaves the list equal |
| `VariablesStorage.RemoveKeepsOthersInOrder` | src/lib/variables/variablesStorage.ts:32 | the delete is a filter: it distributes over concatenation, drops a single entry iff its key is the key, and so keeps the others in order with their repeats |
| `VariablesStorage.AddKeepsOthersInOrder` | src/lib/variables/variablesStorage.ts:25-26 | the other entries keep their relative order |
| `VariablesStorage.AddKeepsDistinct` | src/lib/variables/variablesStorage.ts:25-26 | distinct keys stay distinct |
| `VariablesStorage.LookupAfterAdd` | src/lib/variables/variablesStorage.ts:25-26 | after an upsert, looking up its key gives the new value, and looking up any other key gives what it gave before |
| `VariablesStorage.LookupAfterRemove` | src/lib/variables/variablesStorage.ts:32 | after a delete, its key looks up as `''`, and any other key looks up as before |
| `RestClientUtils.TokenName` | src/app/lib/utils/restClient.ts:4 | the captured name is a non-empty suffix of the text between the braces (leading blanks skipped, trailing blanks kept) |
| `RestClientUtils.NoOpenUnchanged` | src/app/lib/utils/restClient.ts:3-7 | text without `{{` is unchanged |
| `RestClientUtils.TokenReplaced` | src/app/lib/utils/restClient.ts:4-5 | `{{ blanks name}}` becomes `vars[name]` (or `''`), and the scan goes on after it |
| `RestClientUtils.BlankToken` | src/app/lib/utils/restClient.ts:4 | for a token made only of blanks, the greedy capture backs off to its last blank |
| `RestClientUtils.EmptyTokenKept` | src/app/lib/utils/restClient.ts:4 | `{{}}` is not a match and stays |
| `RestClientUtils.TrailingBlankInName` | src/app/lib/utils/restClient.ts:4 | `{{ a }}` looks up `a ` and not `a` |
| `RestClientUtils.ApplyDeep` | src/app/lib/utils/restClient.ts:9-27 | strings, arrays and objects keep their kind; arrays keep their length; objects keep their member names in order; other values are returned as is |
| `RestClientUtils.NoOpenDeepUnchanged` | src/app/lib/utils/restClient.ts:9-27 | a value without `{{` in any string is unchanged |
| `RestClientUtils.ApplyVariables` | src/app/lib/utils/restClient.ts:9-27 | the loop that fills `out` computes the deep substitution |
| `RestClientUtils.BuildRestClientRoute` | src/app/lib/utils/restClient.ts:29-59 | the path `/<locale>/rest-client/<method>/<b64 url>[/<b64 body>]`, then `?` and the serialized parameters only when there are any |
| `RestClientUtils.SetAll` | src/app/lib/utils/restClient.ts:51-56 | setting every entry of a record with distinct keys gives the record's entries in order |
| `Utf8.Encode` | src/app/lib/utils/base64.ts:3 | at least one byte per character |
| `Utf8.DecodeEncode` | src/lib/rest-client/useRestClientRequest.ts:101-103 | UTF-8 decoding without BOM removal (as `URLSearchParams` decodes) gives the encoded string back |
| `Utf8.DecodeTextEncode` | src/app/lib/utils/base64.ts:3-14 | `new TextDecoder().decode` of the encoding gives the string back, less one leading U+FEFF |
| `Utf8.BomBytes` | src/app/lib/utils/base64.ts:3 | a text starting with U+FEFF encodes to bytes starting `EF BB BF` |
| `Base64.Encode` | src/app/lib/utils/base64.ts:6 | length 4·⌈n/3⌉ over the base64 alphabet and `=` |
| `Base64.PaddingOnlyAtEnd` | src/app/lib/utils/base64.ts:6 | `=` appears only in the last two places |
| `Base64.DecodeEncode` | src/app/lib/utils/base64.ts:6-11 | forgiving decode of an encoding gives the bytes back |
| `Base64.WhitespaceIgnored` | src/app/lib/utils/base64.ts:11 | `atob` ignores ASCII white space inserted anywhere |
| `Base64.PaddingOptional` | src/app/lib/utils/base64.ts:11 | `atob` accepts the letters without their `=` padding and gives the same bytes |
| `Base64.OutsideAlphabetRejected` | src/app/lib/utils/base64.ts:11 | any character outside the alphabet, white space and `=` makes `atob` fail |
| `Base64.EncodeUnicode` | src/app/lib/utils/base64.ts:1-7 | length 4·⌈n/3⌉ for n UTF-8 bytes, over the base64 alphabet and `=` |
| `Base64.B64EncodeUnicode` | src/app/lib/utils/base64.ts:1-7 | the server branch and the loop building the binary string both compute UTF-8 then base64 |
| `Base64.BinaryString` | src/app/lib/utils/base64.ts:5 | character i has code byte i |
| `Base64.B64DecodeUnicode` | src/app/lib/utils/base64.ts:9-15 | the loop filling the byte array computes base64 decode, then `TextDecoder`'s UTF-8 decode that drops a leading U+FEFF |
| `Base64.DecodeEncodeUnicode` | src/app/lib/utils/base64.ts:1-15 | decode after encode gives the string back less one leading U+FEFF, and so every string not starting with U+FEFF exactly |
| `Base64.BomDropped` | src/app/lib/utils/base64.ts:14 | as written, `\uFEFFa` encodes and decodes to `a` |
| `Base64.DecodeEncodeKeepingBom` | src/app/lib/utils/base64.ts:1-15 | corrected (`ignoreBOM`), decode after encode gives every string back |
| `Base64.BomEncodingHasSlash` | src/app/lib/utils/base64.ts:3-6 | the base64 of a text starting with U+FEFF has `/` as its fourth letter |
| `Base64.DecodesTest` | src/lib/rest-client/useRestClientRequest.test.ts:7 | `dGVzdA==` decodes to `test` |
| `FormUrlEncoded.ParseSerialize` | src/lib/rest-client/useRestClientRequest.ts:101-103 | parsing the serialized parameters gives the same pairs in order |
| `FormUrlEncoded.EncodeUnreservedUnchanged` | src/lib/rest-client/useRestClientRequest.ts:134 | `encodeURIComponent` leaves unreserved ASCII text as it is |
| `Json.UnquoteQuote` | src/lib/codegen/js-xhr.ts:19 | the JSON string literal of a text reads back as that text |
| `Json.RecordOnePropertyPerLine` | src/lib/codegen/js-fetch.ts:14 | `JSON.stringify(record, null, 2)` puts each property on its own line, in order, between `{` and `}` |
| `OrderedMaps.Put` | src/lib/codegen/js-fetch.ts:6 | an assignment sets its key, leaves every other key, keeps keys distinct, and appends a new key at the end |
| `OrderedMaps.FromEntries` | src/lib/rest-client/useRestClientRequest.ts:48 | distinct keys, and each key has the last value given for it |
| `OrderedMaps.Kept` | src/lib/codegen/js-fetch.ts:6 | exactly the headers whose key and value are non-empty |
| `OrderedMaps.HeaderRecord` | src/lib/codegen/js-fetch.ts:4-10 | the reduce builds a record of distinct keys in which each kept key has its last value |
| `OrderedMaps.SetParamIsPut` | src/lib/rest-client/useRestClientRequest.ts:134 | `URLSearchParams.set` on distinct keys behaves as a plain-object assignment |
| `JavaCodegen.JavaText` | src/lib/codegen/java.ts:3-26 | the program text: url, method, one `setRequestProperty` line per header, and the body block iff the body is non-empty |
| `JavaCodegen.JavaHoles` | src/lib/codegen/java.ts:9-13 | the request reaches the text only as url, then method, then every key and value in order (empty keys included), then the body iff non-empty |
| `JavaCodegen.JavaSkeleton` | src/lib/codegen/java.ts:3-26 | requests with as many headers and the same body presence give the same text around the holes |
| `CSharpCodegen.CSharpText` | src/lib/codegen/csharp.ts:3-20 | the program text: method after `HttpMethod.`, url literal, one `Headers.Add` line per header, `StringContent` iff the body is non-empty |
| `CSharpCodegen.CSharpHoles` | src/lib/codegen/csharp.ts:11-13 | the request reaches the text only as method, url, every key and value in order, and the body iff non-empty |
| `CSharpCodegen.CSharpSkeleton` | src/lib/codegen/csharp.ts:3-20 | the text around the holes depends only on the header count and body presence |
| `GoCodegen.GoText` | src/lib/codegen/go.ts:3-32 | the program text: `strings.NewReader("<body>")` iff the body is non-empty (white space counts), otherwise `nil`; one `Header.Set` line per header |
| `GoCodegen.GoHoles` | src/lib/codegen/go.ts:15-21 | the request reaches the text only as method, url, the body iff non-empty, and every key and value in order |
| `GoCodegen.GoSkeleton` | src/lib/codegen/go.ts:3-32 | the text around the holes depends only on the header count and body presence |
| `JsXhrCodegen.XhrText` | src/lib/codegen/js-xhr.ts:3-20 | the program text: `xhr.open` with method and url, one `setRequestHeader` line per header, `xhr.send(<JSON>)` iff the body is non-empty, else `xhr.send()` |
| `JsXhrCodegen.XhrHoles` | src/lib/codegen/js-xhr.ts:4-19 | the request reaches the text only as method, url, every key and value in order, and the quoted body iff non-empty |
| `JsXhrCodegen.XhrSendsBody` | src/lib/codegen/js-xhr.ts:19 | a non-empty body is sent as a JSON literal that reads back as the body, whatever the method |
| `JsXhrCodegen.XhrSkeleton` | src/lib/codegen/js-xhr.ts:3-20 | the text around the holes depends only on the header count and body presence |
| `JsFetchCodegen.GenerateJsFetch` | src/lib/codegen/js-fetch.ts:3-19 | the text is the template over the record of kept headers with last-wins values |
| `JsFetchCodegen.FetchText` | src/lib/codegen/js-fetch.ts:12-18 | the program text: url and method verbatim, the record as indented JSON, the body as a JSON literal or `undefined` |
| `JsFetchCodegen.FetchHoles` | src/lib/codegen/js-fetch.ts:12-15 | the request reaches the text only as url, method, the record and the body |
| `JsFetchCodegen.FetchSendsBody` | src/lib/codegen/js-fetch.ts:15 | a non-empty body is a JSON literal that reads back as the body, whatever the method |
| `JsFetchCodegen.FetchSkeleton` | src/lib/codegen/js-fetch.ts:12-18 | the text around the holes depends only on body presence |
| `PythonCodegen.GeneratePython` | src/lib/codegen/python.ts:3-21 | the text is the template over the record of kept headers with last-wins values |
| `PythonCodegen.PythonText` | src/lib/codegen/python.ts:12-20 | the program text: url literal, `payload` as JSON or `None`, the header dict, and always `requests.request("<method>", url, headers=headers, data=payload)` |
| `PythonCodegen.PythonHoles` | src/lib/codegen/python.ts:14-18 | the request reaches the text only as url, body, record and method |
| `PythonCodegen.PythonSendsBody` | src/lib/codegen/python.ts:15 | a non-empty body is a JSON literal that reads back as the body |
| `PythonCodegen.PythonSkeleton` | src/lib/codegen/python.ts:12-20 | the text around the holes depends only on body presence |
| `CurlCodegen.EscapeEach` | src/lib/codegen/curl.ts:6 | the escaped text has no raw newline, and every `"` in it follows a backslash |
| `CurlCodegen.EscapeShellPerChar` | src/lib/codegen/curl.ts:5-7 | the three chained replaces act as one per-character escape (inserted backslashes are not doubled) |
| `CurlCodegen.UnescapeEscapeShell` | src/lib/codegen/curl.ts:5-7 | the escape is reversible: unescaping gives the text back |
| `CurlCodegen.NonBlankKeysMembers` | src/lib/codegen/curl.ts:16 | exactly the headers whose key is not blank after trimming are kept |
| `CurlCodegen.GenerateCurl` | src/lib/codegen/curl.ts:9-28 | variables are substituted first, then the parts are built and joined by ` \`, newline, two spaces |
| `CurlCodegen.CurlCommand` | src/lib/codegen/curl.ts:11-27 | the loop that pushes the parts builds the specified part list |
| `CurlCodegen.CurlShape` | src/lib/codegen/curl.ts:13-26 | first `curl -X <METHOD>`, then one `-H` part per non-blank-key header in order, `-d '<body>'` iff the body is non-blank and the method is not GET or HEAD, and last the escaped url |
| `CurlCodegen.HeaderPartReadsBack` | src/lib/codegen/curl.ts:18 | each `-H` part holds the escaped key and value on one line, and they unescape to the header |
| `CurlCodegen.GetOrHeadIgnoresCase` | src/lib/codegen/curl.ts:21 | the GET or HEAD test ignores case and matches the whole method |
| `RestClientRequest.SendsBodyIsTrimTest` | src/lib/rest-client/useRestClientRequest.ts:51-56 | the body is sent iff it is non-empty after `trim` and the method is neither `GET` nor `HEAD` |
| `RestClientRequest.MethodCaseMatters` | src/lib/rest-client/useRestClientRequest.ts:54-55 | the method test is case-sensitive (`get` sends a body), and a blank body is never sent |
| `RestClientRequest.BuildPayload` | src/lib/rest-client/useRestClientRequest.ts:40-58 | substituted url; headers with distinct keys, each holding its last substituted value (empty keys kept); body present iff the send rule holds, and then the substituted body |
| `RestClientRequest.PayloadKeepsEmptyKey` | src/lib/rest-client/useRestClientRequest.ts:48 | a header with an empty key still enters the payload |
| `RestClientRequest.QueryListIsRecord` | src/lib/rest-client/useRestClientRequest.ts:131-136 | the query holds the headers with non-empty key and value, one per key in first-set order, with the last value |
| `RestClientRequest.ReadSegmentBack` | src/lib/rest-client/useRestClientRequest.ts:91-121 | as written, a text's segment reads back less one leading U+FEFF, and exactly whenever the segment holds no `/` (a text starting with U+FEFF always gives a `/`); corrected, it reads back exactly and holds no `/` |
| `RestClientRequest.EncodeSegment` | src/lib/rest-client/useRestClientRequest.ts:121-130 | the encoding of url or body as a route segment |
| `RestClientRequest.QueryParams` | src/lib/rest-client/useRestClientRequest.ts:131-136 | the `forEach` over the headers builds the specified query list |
| `RestClientRequest.RouteParts` | src/lib/rest-client/useRestClientRequest.ts:137-143 | the route's pathname is the segment path and its query parses back to the query list |
| `RestClientRequest.RoundTrip` | src/lib/rest-client/useRestClientRequest.ts:80-143 | when no segment holds `/`, decoding a route gives back the method, the url, the body iff it was sent, and the query list |
| `RestClientRequest.RouteRoundTrip` | src/lib/rest-client/useRestClientRequest.ts:80-143 | as written, the round trip holds when the base64 texts hold no `/` (which rules out a url or body starting with U+FEFF), with each header value percent-encoded once more |
| `RestClientRequest.CorrectedRoundTrip` | src/lib/rest-client/useRestClientRequest.ts:80-143 | with URL-safe segments, raw values and a BOM-keeping decoder, every route reads back: same method, url (even one starting with U+FEFF), sent body, and the kept headers with last-wins values |
| `RestClientRequest.SlashEndedUrlTruncated` | src/lib/rest-client/useRestClientRequest.ts:80-121 | a url whose base64 ends in `/` reads back from the text before the slash |
| `RestClientRequest.SlashSplitsUrl` | src/lib/rest-client/useRestClientRequest.ts:80-121 | the route for `GET ???` reads back with the url `??` |
| `RestClientRequest.HeaderValuesEncodedTwice` | src/lib/rest-client/useRestClientRequest.ts:101-134 | a header value ` ` comes back as `%20` |
| `RestClientRequest.EmptyUrlShiftsBody` | src/lib/rest-client/useRestClientRequest.ts:80-140 | with an empty url, the body segment is read as the url, and no body is read |
| `RestClientRequest.LoadedRestores` | src/lib/rest-client/useRestClientRequest.ts:89-107 | loading what was sent restores method, url and body, sets the headers, clears the error and marks the hook initialized |
| `RestClientRequest.ReloadRestores` | src/lib/rest-client/useRestClientRequest.ts:76-149 | as written, send then reload restores the editor when the base64 texts hold no `/` (so neither text starts with U+FEFF), except that header values come back percent-encoded |
| `RestClientRequest.CorrectedReloadRestores` | src/lib/rest-client/useRestClientRequest.ts:76-149 | corrected, send then reload restores the editor and runs the same request |
| `RestClientRequest.RequestState.constructor` | src/lib/rest-client/useRestClientRequest.ts:18-27 | the initial state: `GET`, empty url, body and headers, no error, not initialized |
| `RestClientRequest.RequestState.LoadFromRoute` | src/lib/rest-client/useRestClientRequest.ts:76-118 | the effect: the new state is the decoded route loaded into the old one, and the request it runs is the one loaded |
| `RestClientRequest.RequestState.Apply` | src/lib/rest-client/useRestClientRequest.ts:78-116 | each decoding outcome: ignored; error after setting the method (and the url); or loaded and initialized |
| `RestClientRequest.RequestState.SendRequest` | src/lib/rest-client/useRestClientRequest.ts:120-149 | returns the route of the current state and clears the initialized flag, changing nothing else |
| `AddEmptyHeader.AddEmptyHeader` | src/lib/rest-client/addEmptyHeader.ts:3-5 | one longer; the old headers first, in order; the last is the empty header |
| `AddEmptyHeader.EmptyHeaderNotKept` | src/lib/rest-client/addEmptyHeader.ts:4 | every header with a non-empty key was already there |
| `HeadersEditor.Updated` | src/components/rest-client/HeadersEditor.tsx:30 | same length; the indexed header has the field set and the other field kept; every other header unchanged; an out-of-range index changes nothing |
| `HeadersEditor.Removed` | src/components/rest-client/HeadersEditor.tsx:36 | exactly the indexed header is removed, the rest keep their order; an out-of-range index changes nothing |
| `HeadersEditor.UpdateUndo` | src/components/rest-client/HeadersEditor.tsx:30 | writing the old field value back restores the list |
| `HeadersEditor.RemoveAdded` | src/components/rest-client/HeadersEditor.tsx:24-36 | removing the header just added restores the list |
| `HeadersEditor.HeadersEditor.constructor` | src/components/rest-client/HeadersEditor.tsx:17 | the state starts as the given list, or empty |
| `HeadersEditor.HeadersEditor.Sync` | src/components/rest-client/HeadersEditor.tsx:19-21 | a new value replaces the state without notifying |
| `HeadersEditor.HeadersEditor.AddHeader` | src/components/rest-client/HeadersEditor.tsx:23-27 | appends the empty header and reports the stored list |
| `HeadersEditor.HeadersEditor.UpdateHeader` | src/components/rest-client/HeadersEditor.tsx:29-33 | stores the updated list and reports that same list |
| `HeadersEditor.HeadersEditor.RemoveHeader` | src/components/rest-client/HeadersEditor.tsx:35-39 | stores the list without the header and reports that same list |
| `BodyEditor.Substring` | src/components/rest-client/BodyEditor.tsx:33 | `substring` with clamped, swapped bounds; within bounds it is the slice |
| `BodyEditor.TabReplacesSelection` | src/components/rest-client/BodyEditor.tsx:33 | the text before the selection, a tab, then the text after it; length shrinks by the selection and grows by one |
| `BodyEditor.TabAtCaret` | src/components/rest-client/BodyEditor.tsx:33 | with no selection a tab is inserted at the caret |
| `BodyEditor.BodyEditor.constructor` | src/components/rest-client/BodyEditor.tsx:7 | the body starts empty |
| `BodyEditor.BodyEditor.Input` | src/components/rest-client/BodyEditor.tsx:23-26 | typing stores the value and reports the same value |
| `BodyEditor.BodyEditor.KeyDown` | src/components/rest-client/BodyEditor.tsx:27-39 | Tab stores and reports the tabbed text and puts the caret after the tab; other keys change nothing |
| `LanguageSelector.LabelsDistinct` | src/components/LanguageSelector.tsx:15-22 | the five locales have distinct, non-empty native names |
| `LanguageSelector.UnknownCodeCapitalised` | src/components/LanguageSelector.tsx:23 | another code is shown upper-cased |
| `LanguageSelector.ReplaceKeepsSegments` | src/components/LanguageSelector.tsx:30-33 | when the second segment is a locale, only it is replaced; count and other segments kept |
| `LanguageSelector.PrefixWhenNoLocale` | src/components/LanguageSelector.tsx:35 | otherwise the target is `/` + locale + the pathname |
| `LanguageSelector.SwitchTwice` | src/components/LanguageSelector.tsx:26-37 | switching to one locale and then another is the same as switching to the second |
| `LanguageSelector.LanguageSelector.constructor` | src/components/LanguageSelector.tsx:13 | no locale is selected and nothing is pushed |
| `LanguageSelector.LanguageSelector.HandleLanguageChange` | src/components/LanguageSelector.tsx:26-37 | selects the locale and pushes the target path, or nothing for an empty pathname |
| `ZodSchemas.PasswordPatternMeaning` | src/lib/zod.ts:3 | the pattern holds iff the text has 8 or more characters, one line, and an upper-case letter, a lower-case letter, a digit and a special character |
| `ZodSchemas.PasswordAccepted` | src/lib/zod.ts:7-13 | a password passes iff it has 8 to 32 characters, one line and all four classes |
| `ZodSchemas.GoodPassword` | src/lib/zod.ts:7-13 | `Abcdef1!` passes |
| `ZodSchemas.NoCapitalRefused` | src/lib/zod.ts:3-13 | `abcdefg1!` fails |
| `ZodSchemas.SamePasswordRule` | src/lib/zod.ts:7-25 | sign-in and sign-up report exactly the same password issues |
| `ZodSchemas.ConfirmMismatch` | src/lib/zod.ts:27-30 | `Passwords do not match` is reported on `confirmPassword` iff the passwords differ, and nothing else is reported there |
| `ZodSchemas.SignUpAccepted` | src/lib/zod.ts:16-30 | sign-up passes iff the name is non-empty, the email is non-empty and well formed, the password passes, and the confirmation matches |
| `AuthConfig.SlashAtThreeUnprotected` | src/auth.config.ts:12-14 | as written, a pathname whose fourth character is `/` never needs a user |
| `AuthConfig.LocalePagesUnprotected` | src/auth.config.ts:3-14 | as written, every page under a locale prefix (`/en/rest`, …) is allowed without a user |
| `AuthConfig.CorrectedChecksSection` | src/auth.config.ts:3-19 | corrected, a page under a locale prefix needs a user iff its section is protected |
| `AuthConfig.CorrectedProtectsLocalePages` | src/auth.config.ts:3-19 | corrected, a protected page under any locale is allowed iff there is a user |

## Left out

- Lengths and indices count Unicode scalar values, not UTF-16 code units. Zod's `min(8)` and `max(32)` and the body editor's selection offsets therefore differ from the source for text outside the Basic Multilingual Plane. Strings with lone surrogates are not represented.
- Plain-object key order is insertion order. JavaScript's ordering of integer-like keys first, and the special `__proto__` key, are not modelled. The same holds for inherited keys such as `constructor` in the language-name table.
- `toUpperCase` is modelled on ASCII letters only.
- The email format check of the validation library is its own internal pattern. It enters as the parameter `wellFormed`.
- `ZodSchemas`: follows version 4 of the validation library. Every failing string check is reported, and the object refinement still runs when only check issues exist. Non-string inputs ("Password is required") are not modelled.
- `RestClientRequest.LoadFromRoute`:
  - `searchParams.forEach` is modelled as parsing the query text;
  - the array case of a parameter value (`value[0]`) cannot occur and is left out;
  - a missing pathname is taken as empty;
  - the `method` segment is used as is, without a check that it is one of the four methods.
- Persistence is left out: `loadVariables`, `saveVariables` and localStorage. `AddVariable` and `RemoveVariable` are the pure list functions, and the variables the hook loads are a parameter.
- Left out as I/O or framework machinery:
  - `console.log`;
  - the `setTimeout` delay before the caret moves;
  - `fetch` to the proxy and `runRequest`'s response handling;
  - `router.push`/`router.replace`, modelled as recording the target;
  - React's state and effect scheduling.
- `prettify` in the body editor and `prettifyJson` parse JSON and are not modelled. The same holds for `node.ts`, which depends on the platform URL parser.
- `RestClientUtils.BuildRestClientRoute`: requires the headers record to have distinct keys, as every JavaScript object does.
- `Json.Stringify`: numbers are integers; floating-point formatting is not modelled.
- The `Buffer` branch of the base64 functions, taken when there is no `window`, is modelled for encoding only, where `Base64.B64EncodeUnicode` proves it computes the same text as the browser branch. Decoding is modelled by the browser branch alone, because the hook's effect and `sendRequest` run in the browser. The server decoding branch differs from it: it keeps a leading U+FEFF, and it does not throw on characters outside the alphabet.
- `RestClientUtils.ApplyDeep`: values are JSON values only. In the source a `Date`, `Map` or class instance is an object and is rebuilt as a plain `{}` holding its own enumerable keys; such values are not modelled.

## Findings

| source | as written | input that shows it | evidently intended | confidence | as-written member | corrected member |
|---|---|---|---|---|---|---|
| src/auth.config.ts:12 | `pathname.slice(3)` keeps the `/` after a two-letter locale, so `/en/rest` is checked as `/rest`, which is not in the protected set | `/en/rest` with no session is authorised | the section after the locale (`rest`) is checked, so protected pages need a user | not executed | `AuthConfig.LocalePagesUnprotected` | `AuthConfig.CorrectedProtectsLocalePages` |
| src/lib/rest-client/useRestClientRequest.ts:80-121 | the url and body are standard base64, whose alphabet contains `/`, and the decoder splits the pathname on `/` | `GET` with url `???` (base64 `Pz8/`) reads back with url `??` | the url and body read back as entered (a URL-safe alphabet) | not executed | `RestClientRequest.SlashSplitsUrl` | `RestClientRequest.CorrectedRoundTrip` |
| src/app/lib/utils/base64.ts:14 | `new TextDecoder()` drops a leading U+FEFF, which `TextEncoder` wrote, so the round trip loses it | `b64DecodeUnicode(b64EncodeUnicode('\uFEFFa'))` is `a` | the text reads back as entered (`ignoreBOM: true`) | not executed | `Base64.BomDropped` | `Base64.DecodeEncodeKeepingBom` |
| src/lib/rest-client/useRestClientRequest.ts:134 | each header value is `encodeURIComponent`-ed and then encoded again by `URLSearchParams`, which decodes only once | header `a` with value ` ` reads back as `%20` | header values read back as entered | not executed | `RestClientRequest.HeaderValuesEncodedTwice` | `RestClientRequest.CorrectedRoundTrip` |
