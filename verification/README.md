# Code-analysis routes: a Dafny model

This project models the two server routes of a Next.js code-assistant
application that wrap a chat-completion service.

- `app/api/analyze/route.ts` handles a request with `code`, `language` and
  `analysisMode`. It rejects a request without code (400 "No code provided").
  It builds a prompt from a fixed preamble, the instruction for the analysis
  mode and the fenced code, and calls the completion service once. It answers
  `{ optimizedCode }`: the trimmed interior of the first fenced block of the
  reply, or the trimmed reply when there is no such block. Every thrown error
  becomes one uniform 500 "Failed to analyze code".
- `app/api/explain/route.ts` first checks that the service's API key is set.
  It then requires `code` and `language` (400 "Code and language are
  required"), builds a prompt of five lines joined with line breaks, and asks
  the service for a JSON reply. It accepts the reply only as an object whose
  `summary`, `complexity`, `flowchart` and `recommendations` are all truthy.
  It repairs the flowchart: the "graph TD" directive is prepended when the
  trimmed text lacks it, and a fixed four-node diagram replaces it when it has
  no "-->" edge. Every thrown error becomes a 500 carrying the error's own
  message.

Each route is a pure function: `Analyze.Analyze` and `Explain.Explain`.

- The request body is given as parsed JSON (`Json.Value`). It is `None` when
  the body is not JSON.
- The completion service is a function parameter from the prompt to a
  `Completion`: either the call threw, or it returned with or without content.
- `JSON.parse` is a function parameter as well.
- The result is an `Exchange`. It records the prompt sent to the service
  (`None` when the route made no call) and the response, either `Ok(body)` or
  `Err(status, message)`.

The JavaScript semantics the routes depend on are written out:

- truthiness;
- property reads, for the seven keys the routes read (`code`, `language`,
  `analysisMode`, `summary`, `complexity`, `flowchart`, `recommendations`):
  an object's own value, `undefined` otherwise;
- string conversion in `+`, template literals and property keys, including
  "undefined", arrays, "[object Object]", and the TypeError thrown for an
  object with an own "toString" key;
- `trim` over the full ECMAScript whitespace and line-terminator set;
- `startsWith`, `includes` and `Array.prototype.join`;
- the regular expression ``` ```(?:\w+)?\n([\s\S]*?)\n``` ```, as an explicit
  matcher proved equal to a declarative description of its leftmost match.

The analyze prompt's exact text is the equation of `Analyze.AnalyzePromptLayout`
(for any preamble, `Analyze.AssembleLayout`). The explain prompt's is that of
`Explain.ExplainPromptLayout`.

Modules:

| module | file |
|---|---|
| `Options` | options.dfy |
| `Text` | text.dfy |
| `Json` | json.dfy |
| `Http` | http.dfy |
| `Fence` | fence.dfy |
| `Flowchart` | flowchart.dfy |
| `Analyze` | analyze.dfy |
| `Explain` | explain.dfy |

Behaviours of the code that are easy to miss:

- A missing API key in the explain route gives a 500 with the specific message
  "OpenAI API key is not configured". The check comes before the request body
  is read.
- An analysis mode that is not a key of the instruction table writes the word
  "undefined" into the prompt, and the request goes ahead. The table is a plain
  object, so a mode naming an `Object.prototype` member (such as "toString" or
  "constructor") writes that member's string form instead.
- The fallback diagram's nodes are "Code Analysis", "Function Start",
  "Process Data" and "Function End".
- The edge check runs on the flowchart after the directive may have been
  prepended. Prepending never adds or removes an edge (`PrefixKeepsEdges`), so
  this is the same as checking the original flowchart.
- A field that is an object with its own "toString" key, or an array holding
  one, cannot be converted to a string: the conversion throws a TypeError
  before the service is called. The analyze route answers its uniform 500; the
  explain route answers 500 "Cannot convert object to primitive value".

## Model

| member | source | states |
|---|---|---|
| Text.Trim | app/api/analyze/route.ts:60 | The result is the input with a whitespace-only prefix and suffix removed, and has no whitespace at either end. |
| Text.TrimUnique | app/api/analyze/route.ts:60 | Any text that is the input with whitespace-only ends removed, and that is itself trimmed, equals `trim` of the input. |
| Text.TrimIdempotent | app/api/explain/route.ts:75 | Trimming an already trimmed text changes nothing. |
| Text.TrimKeepsPrefix | app/api/explain/route.ts:75 | A leading word whose first and last characters are not whitespace survives trimming at the front. |
| Text.IndexOf | app/api/analyze/route.ts:59 | It finds the first occurrence at or after the start position: one is found, none lies earlier, and it reports none only when none exists. |
| Text.Contains | app/api/explain/route.ts:80 | `includes` holds exactly when the pattern occurs at some position. |
| Json.FalsyValues | app/api/analyze/route.ts:34 | A value is falsy exactly when it is `undefined`, null, false, 0 or the empty string; an empty array or object is truthy. |
| Json.Digits | app/api/analyze/route.ts:42-47 | A number's string form is a non-empty run of decimal digits without a leading zero. |
| Json.DigitsRoundTrip | app/api/analyze/route.ts:42-47 | Reading a number's digits back as a decimal gives the number. |
| Json.GetIsObjectRead | app/api/explain/route.ts:33 | For each key the routes read, the read agrees with a property read that follows the prototype chain: no such key is inherited, so an object lacking it gives `undefined`, and one having it gives its own value. |
| Json.ToJsString | app/api/explain/route.ts:46-50 | Conversion fails exactly when the value is an object with an own "toString" key or an array with a non-null element that fails. A string converts to itself and any other object to "[object Object]". |
| Json.ValueString | app/api/analyze/route.ts:42-46 | In concatenation, `undefined` is written as "undefined" and a string as itself. The conversion throws exactly when the value is one that cannot be converted. |
| Fence.MatchAt | app/api/analyze/route.ts:59 | A match is reported at a position exactly when the regular expression matches there. The match has the maximal word run as its tag and ends its capture at the first closing fence. |
| Fence.FirstMatch | app/api/analyze/route.ts:59 | The match reported is a real match and no match starts earlier. When none is reported, no match starts at or after the position. |
| Fence.MatchUnique | app/api/analyze/route.ts:59 | At a given start the tag and the capture of a match are determined. |
| Fence.ExtractCode | app/api/analyze/route.ts:59-60 | The returned code never has whitespace at either end. |
| Fence.ExtractFollowsRegex | app/api/analyze/route.ts:59-60 | With a match, the result is the trimmed capture of the leftmost one. With no match, it is the trimmed whole reply. |
| Fence.MatchInSlice | app/api/analyze/route.ts:59 | A match inside a slice of a text is a match in the text at the shifted positions. |
| Fence.CaptureHasNoClosing | app/api/analyze/route.ts:59 | The lazy capture of a match never contains "\n```". |
| Fence.ExtractIdempotent | app/api/analyze/route.ts:59-60 | Extracting from the extracted code gives it back unchanged. |
| Flowchart.Repair | app/api/explain/route.ts:74-85 | The result always renders (its trim starts with "graph TD" and it has an edge). A renderable diagram is unchanged. A diagram with an edge but no directive gets "graph TD" and a line break prepended. One without an edge becomes the fallback diagram. |
| Flowchart.PrefixKeepsEdges | app/api/explain/route.ts:76-80 | Prepending the directive line creates no edge and removes none. |
| Flowchart.FallbackRenderable | app/api/explain/route.ts:81-84 | The fallback diagram starts with "graph TD" after trimming and contains an edge. |
| Flowchart.RepairIdempotent | app/api/explain/route.ts:74-85 | Repairing a repaired diagram changes nothing. |
| Flowchart.RepairPrefixExample | app/api/explain/route.ts:75-77 | "B[x]-->C[y]" is repaired to "graph TD", a line break, and the original text. |
| Flowchart.RepairFallbackExample | app/api/explain/route.ts:80-85 | "graph TD\nNothing here" has no edge, so it is replaced by the fallback. |
| Analyze.ModeLookupExact | app/api/analyze/route.ts:22-28 | The prompt carries one of the table's instructions exactly when the mode is one of the table's five keys. |
| Analyze.AssembleStartsWithInstruction | app/api/analyze/route.ts:42-43 | Whatever the preamble, the prompt starts with it, a blank line and "Additional request: " followed by the instruction. |
| Analyze.AssembleEndsWithFence | app/api/analyze/route.ts:45-47 | Whatever the preamble, the prompt ends with the code between a fence tagged with the language and a closing fence. |
| Analyze.AnalyzePrompt | app/api/analyze/route.ts:42-47 | The prompt starts with the fixed preamble and the instruction, and ends with the code fenced and tagged with the language. |
| Analyze.AssembleCodeAt | app/api/analyze/route.ts:45-47 | The code sits between the prompt head and the four closing characters. |
| Analyze.PromptCodeRoundTrip | app/api/analyze/route.ts:42-47 | Reading the code back out of a prompt gives exactly the code sent. |
| Analyze.AnalyzeReply | app/api/analyze/route.ts:56-68 | A reply succeeds exactly when the call returned, with body `{optimizedCode}` holding the extracted code. The code is trimmed, and it is empty when the content is missing or empty. A failed call is the uniform 500. |
| Analyze.Analyze | app/api/analyze/route.ts:30-70 | A non-JSON or null body gives the uniform 500. Falsy code gives 400 "No code provided". With truthy code, a mode, language or code that cannot be converted to a string gives the uniform 500 without a call. The service is called exactly when the code is truthy and all three convert, with the prompt from the mode's instruction, the language and the code. The response is then the reply's. No status other than 400 or 500 is an error. |
| Analyze.AnalyzeErrorBodies | app/api/analyze/route.ts:35-38 | On the wire, a 400 is `{"error": "No code provided"}`, and every 500 is `{"error": "Failed to analyze code"}` whatever was thrown (lines 64-68). |
| Analyze.AnalyzeSendsCodeVerbatim | app/api/analyze/route.ts:45-47 | Code sent as a string reaches the service verbatim, fenced and tagged with the language, at the end of the prompt. |
| Analyze.UnconvertibleCodeFails | app/api/analyze/route.ts:42-47 | Code `{"toString": 1}` gives the uniform 500 and no call. |
| Analyze.UnknownModeSendsUndefined | app/api/analyze/route.ts:41-43 | A mode that is neither a table key nor an inherited member still leads to a call, with "undefined" as the instruction. |
| Analyze.ReturnedCodeIsStable | app/api/analyze/route.ts:59-62 | The code returned to the client is a fixed point of the extraction. |
| Explain.PromptLinesShape | app/api/explain/route.ts:44-50 | Whatever the instructions, the five joined lines are the instructions, "Code in <language>:", the tagged fence, the code and the closing fence, separated by line breaks. |
| Explain.ExplainPromptLayout | app/api/explain/route.ts:13-50 | The prompt sent is the fixed instructions followed by those four lines. |
| Explain.PromptCodeRoundTrip | app/api/explain/route.ts:44-50 | Reading the code back out of a prompt gives exactly the code sent. |
| Explain.MissingFieldCases | app/api/explain/route.ts:70 | A required field counts as missing exactly when one of the four reads is falsy. |
| Explain.Validate | app/api/explain/route.ts:67-87 | An explanation is accepted exactly when it is an object with all four fields truthy and a string flowchart. A non-null explanation with a missing field gives 500 "Invalid response format from OpenAI". When accepted, the keys are the same, every field but the flowchart is unchanged, the flowchart is repaired, and the result renders. |
| Explain.ValidateAccepts | app/api/explain/route.ts:70-87 | An object with the four fields truthy and a string flowchart comes back with its own fields and the flowchart repaired. |
| Explain.ExplainReply | app/api/explain/route.ts:62-94 | A failed call gives 500 with the error's message, or "Failed to generate explanation" when it has none. Missing or empty content gives 500 "No response from OpenAI". A syntax error gives 500 with its message. A non-empty reply that parses gives exactly what validation gives, so a missing field gives 500 "Invalid response format from OpenAI". Success only comes from a non-empty reply that parses and validates. |
| Explain.Explain | app/api/explain/route.ts:27-96 | Without an API key the response is 500 "OpenAI API key is not configured", before the body is looked at. A null body gives the destructuring TypeError as a 500. Falsy code or language gives 400 "Code and language are required". With both truthy, a language or code that cannot be converted to a string gives 500 "Cannot convert object to primitive value" without a call. The service is called exactly when the key is set and both are truthy and convert, with the prompt built from them. The response is then the reply's. |
| Explain.ExplainErrorBodies | app/api/explain/route.ts:36-40 | On the wire, a missing key gives `{"error": "OpenAI API key is not configured"}` (lines 7-8 and 88-93), and a 400 is `{"error": "Code and language are required"}`. |
| Explain.ConfigCheckedFirst | app/api/explain/route.ts:5-11 | Without a key every request gets the same response, whatever its body, and the service is not called. |
| Explain.ExplainSuccess | app/api/explain/route.ts:62-87 | A non-empty reply that parses to an object with the four fields truthy and a string flowchart is returned with its own fields and the flowchart repaired. |

## Left out

- The completion client is not modelled: its construction, the model name, the temperature, the token limit and the JSON response format. The service is a function parameter. Its failures, whatever their cause, are `CallFailed`.
- The analyze route with `OPENAI_API_KEY` unset is not modelled: its client is built at module scope, outside the `try`, and the constructor throws when the key is undefined, so the module fails to load. An empty key reaches the call, and that failure is the uniform 500.
- `new OpenAI({ apiKey })` in the explain route is taken not to throw once the key is set.
- `request.json()` and `JSON.parse` are parameters; JSON text is not parsed. A body that is not JSON is `None`.
- JSON numbers are integers. String conversion of fractions and exponents is not modelled.
- Json.ToJsString: an integer is always written as plain digits. JavaScript writes one of magnitude 10^21 or more in exponent form ("1e+21"), and a parsed integer beyond 2^53 has already lost precision; neither is modelled.
- Strings are sequences of Unicode scalar values, while JavaScript strings are UTF-16 code units. No operation here depends on length, but a lone surrogate such as "\ud800" in a body or a reply cannot be represented.
- Json.Get: a property of a string, number or boolean reads as `undefined`. That holds for the seven keys the routes read, which no String, Number, Boolean or Array prototype has, but is not true of other names such as `length`; only the Object.prototype chain is modelled (`Json.ObjectRead`).
- Duplicate keys and a `"__proto__"` key in parsed JSON are not modelled: an object is a map from keys to values.
- `NextResponse.json` serialization, key order and headers are not modelled; a response is its status and its JSON value.
- `console.error` logging is not modelled, since it has no effect on the response.
- Json.InheritedMember: the text of an inherited `Object.prototype` member is V8's, and other engines may differ.
- Explain.Explain: the TypeError messages for a null body, a null explanation, a non-string flowchart and an unconvertible field ("Cannot convert object to primitive value") are V8's wording.
- The asynchronous control flow is not modelled: each route awaits one call and there is no concurrency.
- The user interface is not part of this model: the page, the explanation and collaboration components, the layout and the sample code.
