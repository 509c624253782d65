/** The code-explanation route (app/api/explain/route.ts): check the service
    is configured, check that code and language were sent, assemble the
    prompt, call the completion service once, and accept its reply only as a
    JSON object with all four explanation fields, whose flowchart is then
    repaired. Every thrown error becomes a 500 carrying the error's message. */
module Explain {
  import opened Options
  import opened Text
  import opened Json
  import opened Http
  import opened Flowchart

  const ExplainText: string :=
    "Analyze the following code and provide:\n"
    + "1. A brief summary of what the code does\n"
    + "2. Time and space complexity analysis\n"
    + "3. A mermaid.js flowchart showing the code's logic (use graph TD for top-down flow diagrams)\n"
    + "4. A list of specific recommendations for improvement\n\n"
    + "Format your response as a JSON object with the following structure:\n"
    + "{\n"
    + "  \"summary\": \"Brief explanation of the code's purpose and functionality\",\n"
    + "  \"complexity\": \"Detailed complexity analysis\",\n"
    + "  \"flowchart\": \"graph TD\\nA[Start] --> B[Process]\\nB --> C[End]\",\n"
    + "  \"recommendations\": [\"recommendation1\", \"recommendation2\", ...]\n"
    + "}\n\n"
    + "Important: For the flowchart, use valid mermaid.js syntax with graph TD direction. "
    + "Use simple node names (A, B, C, etc.) and clear labels in square brackets. "
    + "Connect nodes with arrows (-->)."

  const NotConfigured: string := "OpenAI API key is not configured"
  const InputRequired: string := "Code and language are required"
  const NoResponse: string := "No response from OpenAI"
  const InvalidFormat: string := "Invalid response format from OpenAI"
  /** The message when what was thrown is not an Error object. */
  const GenericFailure: string := "Failed to generate explanation"

  /* The TypeErrors the runtime (V8) throws on the paths below. */
  const DestructureNull: string := "Cannot destructure property 'code' of '(intermediate value)' as it is null."
  const SummaryOfNull: string := "Cannot read properties of null (reading 'summary')"
  const TrimNotFunction: string := "explanation.flowchart.trim is not a function"
  const NotPrimitive: string := "Cannot convert object to primitive value"

  /** What `JSON.parse` does with the reply: a value, or a SyntaxError with
      its message. */
  datatype ParseOutcome = Parsed(value: Value) | SyntaxError(message: string)

  /** The four fields every explanation must carry, truthy. */
  const RequiredFields: seq<string> := ["summary", "complexity", "flowchart", "recommendations"]

  /** The API key from the environment is set and non-empty. */
  predicate Configured(apiKey: Option<string>) {
    apiKey.Some? && apiKey.value != ""
  }

  /** Lines 44-50, with the instructions as a parameter: five lines joined
      with line breaks. */
  function PromptLines(base: string, language: string, code: string): string {
    Join([base, "Code in " + language + ":", "```" + language, code, "```"], "\n")
  }

  /** Whatever the instructions, the joined prompt is the instructions, the
      "Code in" line, and the code verbatim in a fence tagged with the language. */
  lemma PromptLinesShape(base: string, language: string, code: string)
    ensures PromptLines(base, language, code)
            == base + "\nCode in " + language + ":\n```" + language + "\n" + code + "\n```"
  {
    var l2, l3 := "Code in " + language + ":", "```" + language;
    var p1 := [base];
    var p2 := p1 + [l2];
    var p3 := p2 + [l3];
    var p4 := p3 + [code];
    var p5 := p4 + ["```"];
    JoinStep(p1, l2, "\n");
    JoinStep(p2, l3, "\n");
    JoinStep(p3, code, "\n");
    JoinStep(p4, "```", "\n");
    assert p5 == [base, l2, l3, code, "```"];
  }

  /** The prompt sent for a language and a piece of code. */
  function ExplainPrompt(language: string, code: string): string {
    PromptLines(ExplainText, language, code)
  }

  /** The prompt is the instructions, then "Code in <language>:", then the
      code verbatim between a fence tagged with the language and a closing
      fence, each on its own line. */
  lemma ExplainPromptLayout(language: string, code: string)
    ensures ExplainPrompt(language, code)
            == ExplainText + "\nCode in " + language + ":\n```" + language + "\n" + code + "\n```"
  {
    PromptLinesShape(ExplainText, language, code);
  }

  /** Reads the code back out of a prompt built from the given instructions
      for the given language. */
  function PromptCode(p: string, base: string, language: string): string {
    var n := |base + "\nCode in " + language + ":\n```" + language + "\n"|;
    if n + 4 <= |p| then p[n..|p| - 4] else ""
  }

  /** The code is embedded whole: it can be read back from the prompt,
      whatever the instructions before it. */
  lemma PromptCodeRoundTrip(base: string, language: string, code: string)
    ensures PromptCode(PromptLines(base, language, code), base, language) == code
  {
    var h := base + "\nCode in " + language + ":\n```" + language + "\n";
    var p := PromptLines(base, language, code);
    PromptLinesShape(base, language, code);
    assert p == h + code + "\n```";
    assert p[|h|..|p| - 4] == code;
  }

  /** Some required field of the explanation is missing or falsy. */
  predicate MissingField(explanation: Value) {
    exists f :: f in RequiredFields && !Truthy(Get(explanation, f))
  }

  /* A field is missing exactly when one of the four reads is falsy. */
  lemma MissingFieldCases(explanation: Value)
    ensures MissingField(explanation)
            <==> || !Truthy(Get(explanation, "summary"))
                 || !Truthy(Get(explanation, "complexity"))
                 || !Truthy(Get(explanation, "flowchart"))
                 || !Truthy(Get(explanation, "recommendations"))
  {
    assert RequiredFields[0] == "summary" && RequiredFields[1] == "complexity";
    assert RequiredFields[2] == "flowchart" && RequiredFields[3] == "recommendations";
  }

  /** Lines 67-87 after parsing: read the four fields (reading from null
      throws), reject the explanation if any is falsy, call `trim` on the
      flowchart (which throws unless it is a string), and repair it. Nothing
      but the flowchart changes. */
  function Validate(explanation: Value): (r: Response)
    ensures r.Err? ==> r.status == 500
    ensures r.Ok? <==> && explanation.JObj?
                       && !MissingField(explanation)
                       && "flowchart" in explanation.fields
                       && explanation.fields["flowchart"].JStr?
    ensures explanation != JNull && MissingField(explanation) ==> r == Err(500, InvalidFormat)
    ensures r.Ok? ==> && r.body.JObj?
                      && r.body.fields.Keys == explanation.fields.Keys
                      && (forall key :: key in explanation.fields && key != "flowchart"
                            ==> r.body.fields[key] == explanation.fields[key])
                      && r.body.fields["flowchart"] == JStr(Repair(explanation.fields["flowchart"].s))
    ensures r.Ok? ==> !MissingField(r.body) && Renderable(r.body.fields["flowchart"].s)
  {
    MissingFieldCases(explanation);
    if explanation.JNull? then Err(500, SummaryOfNull)
    else if || !Truthy(Get(explanation, "summary"))
            || !Truthy(Get(explanation, "complexity"))
            || !Truthy(Get(explanation, "flowchart"))
            || !Truthy(Get(explanation, "recommendations"))
    then Err(500, InvalidFormat)
    else
      var flowchart := explanation.fields["flowchart"];
      if !flowchart.JStr? then Err(500, TrimNotFunction)
      else
        var repaired := Repair(flowchart.s);
        assert repaired != [] by {
          var k :| OccursAt(repaired, Edge, k);
        }
        Ok(JObj(explanation.fields["flowchart" := JStr(repaired)]))
  }

  /** Lines 53-94 from the service's reply on: the call's own error, an empty
      reply, a syntax error, or the validated explanation. */
  function ExplainReply(reply: Completion, parse: string -> ParseOutcome): (r: Response)
    ensures r.Err? ==> r.status == 500
    ensures reply.CallFailed? ==> r == Err(500, reply.error.GetOr(GenericFailure))
    ensures reply.Replied? && reply.content.GetOr("") == "" ==> r == Err(500, NoResponse)
    ensures (&& reply.Replied? && reply.content.GetOr("") != ""
             && parse(reply.content.value).SyntaxError?)
            ==> r == Err(500, parse(reply.content.value).message)
    ensures (&& reply.Replied? && reply.content.GetOr("") != ""
             && parse(reply.content.value).Parsed?)
            ==> r == Validate(parse(reply.content.value).value)
    ensures r.Ok? ==> && reply.Replied? && reply.content.Some? && reply.content.value != ""
                      && parse(reply.content.value).Parsed?
                      && r == Validate(parse(reply.content.value).value)
  {
    match reply
    case CallFailed(error) => Err(500, error.GetOr(GenericFailure))
    case Replied(content) =>
      if content.None? || content.value == "" then Err(500, NoResponse)
      else
        match parse(content.value)
        case SyntaxError(message) => Err(500, message)
        case Parsed(explanation) => Validate(explanation)
  }

  /** The whole route. `apiKey` is the environment's key, `body` the request
      body as parsed JSON (None when it is not JSON, which the route reads as
      `{}`), `complete` the completion service and `parse` JSON.parse. */
  function Explain(apiKey: Option<string>, body: Option<Value>,
                   complete: string -> Completion, parse: string -> ParseOutcome): (x: Exchange)
    ensures !Configured(apiKey) ==> x == Exchange(None, Err(500, NotConfigured))
    ensures Configured(apiKey) && body.None? ==> x == Exchange(None, Err(400, InputRequired))
    ensures Configured(apiKey) && body == Some(JNull) ==> x == Exchange(None, Err(500, DestructureNull))
    ensures (&& Configured(apiKey) && body.Some? && body.value != JNull
             && !(Truthy(Get(body.value, "code")) && Truthy(Get(body.value, "language"))))
            ==> x == Exchange(None, Err(400, InputRequired))
    ensures (&& Configured(apiKey) && body.Some? && body.value != JNull
             && Truthy(Get(body.value, "code")) && Truthy(Get(body.value, "language"))
             && !(Converts(Get(body.value, "language")) && Converts(Get(body.value, "code"))))
            ==> x == Exchange(None, Err(500, NotPrimitive))
    ensures x.sent.Some? <==> && Configured(apiKey) && body.Some? && body.value != JNull
                              && Truthy(Get(body.value, "code")) && Truthy(Get(body.value, "language"))
                              && Converts(Get(body.value, "language")) && Converts(Get(body.value, "code"))
    ensures x.sent.Some? ==> x.sent.value == ExplainPrompt(ValueString(Get(body.value, "language")).value,
                                                           ValueString(Get(body.value, "code")).value)
    ensures x.sent.Some? ==> x.response == ExplainReply(complete(x.sent.value), parse)
    ensures x.response.Err? ==> x.response.status in {400, 500}
    ensures x.response.Err? && x.response.status == 400 ==> x.response.message == InputRequired
  {
    if !Configured(apiKey) then Exchange(None, Err(500, NotConfigured))
    else
      var request := body.GetOr(JObj(map[]));
      if request.JNull? then
        // Destructuring null throws.
        Exchange(None, Err(500, DestructureNull))
      else
        var code := Get(request, "code");
        var language := Get(request, "language");
        if !Truthy(code) || !Truthy(language) then Exchange(None, Err(400, InputRequired))
        else
          // The template literal converts the language and `join` the code;
          // either conversion may throw.
          var lang := ValueString(language);
          var text := ValueString(code);
          if lang.None? || text.None? then Exchange(None, Err(500, NotPrimitive))
          else
            var prompt := ExplainPrompt(lang.value, text.value);
            Exchange(Some(prompt), ExplainReply(complete(prompt), parse))
  }

  /** The configuration check comes first: without a key every request gets
      the same 500, whatever its body, and no completion is requested. */
  lemma ConfigCheckedFirst(body1: Option<Value>, body2: Option<Value>,
                           complete: string -> Completion, parse: string -> ParseOutcome)
    ensures Explain(None, body1, complete, parse) == Explain(Some(""), body2, complete, parse)
    ensures Explain(None, body1, complete, parse).sent.None?
  {
  }

  /** What the client receives when the key is missing or the input is: the
      error object with the configuration message or the input message. */
  lemma ExplainErrorBodies(apiKey: Option<string>, body: Option<Value>,
                           complete: string -> Completion, parse: string -> ParseOutcome)
    ensures var r := Explain(apiKey, body, complete, parse).response;
            && (!Configured(apiKey) ==> r.Body() == JObj(map["error" := JStr("OpenAI API key is not configured")]))
            && (r.Err? && r.status == 400 ==> r.Body() == JObj(map["error" := JStr("Code and language are required")]))
  {
  }

  /** An explanation with the four fields set and a string flowchart is
      accepted, with exactly its own fields and the flowchart repaired. */
  lemma ValidateAccepts(explanation: map<string, Value>)
    requires forall f :: f in RequiredFields ==> f in explanation && Truthy(Some(explanation[f]))
    requires explanation["flowchart"].JStr?
    ensures Validate(JObj(explanation))
            == Ok(JObj(explanation["flowchart" := JStr(Repair(explanation["flowchart"].s))]))
  {
    var v := JObj(explanation);
    forall f | f in RequiredFields
      ensures Truthy(Get(v, f))
    {
    }
    MissingFieldCases(v);
  }

  /** A reply that parses to a well-formed explanation comes back with exactly
      its own fields, the flowchart repaired so that it renders. */
  lemma ExplainSuccess(content: string, parse: string -> ParseOutcome, explanation: map<string, Value>)
    requires content != "" && parse(content) == Parsed(JObj(explanation))
    requires forall f :: f in RequiredFields ==> f in explanation && Truthy(Some(explanation[f]))
    requires explanation["flowchart"].JStr?
    ensures ExplainReply(Replied(Some(content)), parse)
            == Ok(JObj(explanation["flowchart" := JStr(Repair(explanation["flowchart"].s))]))
  {
    ValidateAccepts(explanation);
  }
}
