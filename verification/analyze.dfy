/** The code-rewrite route (app/api/analyze/route.ts): check that code was
    sent, assemble the prompt from the fixed preamble, the instruction for the
    analysis mode and the fenced code, call the completion service once, and
    answer with the code extracted from its reply. Every thrown error becomes
    one uniform 500. */
module Analyze {
  import opened Options
  import opened Text
  import opened Json
  import opened Http
  import opened Fence

  const BasePrompt: string :=
    "You are an AI specialized in debugging and optimizing code. Analyze the following code and provide:\n"
    + "1. A corrected/optimized version\n"
    + "2. Identify and fix any bugs\n"
    + "3. Suggest performance improvements\n"
    + "4. Address security concerns\n"
    + "5. Improve code readability and maintainability\n\n"
    + "Please respond in the following format:\n"
    + "```[language]\n"
    + "[optimized code]\n"
    + "```"

  /** The source's MODE_INSTRUCTIONS table. */
  const ModeInstructions: map<string, string> := map[
    "default" := "Focus on general improvements and bug fixes.",
    "security" := "Focus primarily on security vulnerabilities and their fixes.",
    "performance" := "Focus on performance optimizations and efficiency improvements.",
    "readability" := "Focus on improving code readability, documentation, and maintainability.",
    "all" := "Provide comprehensive improvements across all aspects: security, performance, readability, and bug fixes."
  ]

  const NoCode: string := "No code provided"
  const AnalyzeFailed: string := "Failed to analyze code"

  /* No inherited member's text has the length of one of the instructions. */
  lemma InheritedLengths(key: string)
    ensures InheritedMember(key).Some? ==> |InheritedMember(key).value| !in {44, 60, 63, 72, 105}
  {
  }

  /** `MODE_INSTRUCTIONS[key]` as it appears in the prompt, for the property
      key the analysis mode converts to. Only an exact key of the table
      selects one of its instructions; a key the object lacks altogether reads
      as `undefined`, which concatenation writes out as "undefined". */
  function ModeInstruction(key: string): (r: string)
    ensures key in ModeInstructions ==> r == ModeInstructions[key]
    ensures key !in ModeInstructions && InheritedMember(key).Some? ==> r == InheritedMember(key).value
    ensures key !in ModeInstructions && InheritedMember(key).None? ==> r == "undefined"
  {
    if key in ModeInstructions then ModeInstructions[key]
    else InheritedMember(key).GetOr("undefined")
  }

  /** The lookup is exact: the prompt carries one of the table's instructions
      exactly when the mode is one of the table's keys. */
  lemma ModeLookupExact(key: string)
    ensures ModeInstruction(key) in ModeInstructions.Values <==> key in ModeInstructions
  {
    if key !in ModeInstructions {
      var r := ModeInstruction(key);
      assert r == InheritedMember(key).GetOr("undefined");
      InheritedLengths(key);
      assert |r| !in {44, 60, 63, 72, 105};
      InstructionLengths();
    }
  }

  /* The five instructions have lengths no inherited member's text has. */
  lemma InstructionLengths()
    ensures forall v :: v in ModeInstructions.Values ==> |v| in {44, 60, 63, 72, 105}
  {
  }

  /** Lines 42-47, with the preamble as a parameter. */
  function Assemble(base: string, instruction: string, language: string, code: string): string {
    base + "\n\n" + "Additional request: " + instruction + "\n\n" + "Code:\n"
    + "```" + language + "\n" + code + "\n" + "```"
  }

  /** The part of the prompt before the user's code. */
  function PromptHead(base: string, instruction: string, language: string): string {
    base + "\n\n" + "Additional request: " + instruction + "\n\n" + "Code:\n" + "```" + language + "\n"
  }

  /* Whatever the preamble, the prompt opens with it and the instruction. */
  lemma AssembleStartsWithInstruction(base: string, instruction: string, language: string, code: string)
    ensures StartsWith(Assemble(base, instruction, language, code),
                       base + "\n\n" + "Additional request: " + instruction + "\n\n")
  {
    var pre := base + "\n\n" + "Additional request: " + instruction + "\n\n";
    assert pre[..|pre|] == pre;
    StartsWithAppend(pre, pre, "Code:\n");
    StartsWithAppend(pre + "Code:\n", pre, "```");
    StartsWithAppend(pre + "Code:\n" + "```", pre, language);
    StartsWithAppend(pre + "Code:\n" + "```" + language, pre, "\n");
    StartsWithAppend(pre + "Code:\n" + "```" + language + "\n", pre, code);
    StartsWithAppend(pre + "Code:\n" + "```" + language + "\n" + code, pre, "\n");
    StartsWithAppend(pre + "Code:\n" + "```" + language + "\n" + code + "\n", pre, "```");
  }

  /* Whatever the preamble, the prompt closes with the code fenced and tagged
     with the language. */
  lemma AssembleEndsWithFence(base: string, instruction: string, language: string, code: string)
    ensures EndsWith(Assemble(base, instruction, language, code),
                     "```" + language + "\n" + code + "\n" + "```")
  {
    var h := base + "\n\n" + "Additional request: " + instruction + "\n\n" + "Code:\n";
    var f := "```";
    assert (h + f)[|h + f| - |f|..] == f;
    EndsWithAppend(h + f, f, language);
    EndsWithAppend(h + f + language, f + language, "\n");
    EndsWithAppend(h + f + language + "\n", f + language + "\n", code);
    EndsWithAppend(h + f + language + "\n" + code, f + language + "\n" + code, "\n");
    EndsWithAppend(h + f + language + "\n" + code + "\n", f + language + "\n" + code + "\n", "```");
  }

  /* Whatever the preamble, the pieces run together into the preamble, a blank
     line, the instruction line, a blank line, "Code:", the tagged fence, the
     code and the closing fence. */
  lemma AssembleLayout(base: string, instruction: string, language: string, code: string)
    ensures Assemble(base, instruction, language, code)
            == base + "\n\nAdditional request: " + instruction + "\n\nCode:\n```" + language + "\n"
               + code + "\n```"
  {
    assert "\n\n" + "Additional request: " == "\n\nAdditional request: ";
    assert "\n\n" + "Code:\n" + "```" == "\n\nCode:\n```";
    assert "\n" + "```" == "\n```";
  }

  /** The prompt: preamble, instruction, then the code verbatim inside a fence
      tagged with the language. */
  function AnalyzePrompt(instruction: string, language: string, code: string): (p: string)
    ensures StartsWith(p, BasePrompt + "\n\n" + "Additional request: " + instruction + "\n\n")
    ensures EndsWith(p, "```" + language + "\n" + code + "\n" + "```")
  {
    AssembleStartsWithInstruction(BasePrompt, instruction, language, code);
    AssembleEndsWithFence(BasePrompt, instruction, language, code);
    Assemble(BasePrompt, instruction, language, code)
  }

  /** The prompt is exactly the preamble, a blank line, "Additional request: "
      and the instruction, a blank line, "Code:", then the code verbatim
      between a fence tagged with the language and a closing fence. */
  lemma AnalyzePromptLayout(instruction: string, language: string, code: string)
    ensures AnalyzePrompt(instruction, language, code)
            == BasePrompt + "\n\nAdditional request: " + instruction + "\n\nCode:\n```" + language + "\n"
               + code + "\n```"
  {
    AssembleLayout(BasePrompt, instruction, language, code);
  }

  /** Reads the code back out of a prompt built with the given instruction
      and language. */
  function PromptCode(p: string, instruction: string, language: string): string {
    var n := |PromptHead(BasePrompt, instruction, language)|;
    if n + 4 <= |p| then p[n..|p| - 4] else ""
  }

  /* Whatever the preamble, the code follows the head and precedes the
     closing line break and fence. */
  lemma AssembleCodeAt(base: string, instruction: string, language: string, code: string)
    ensures |PromptHead(base, instruction, language)| + 4 <= |Assemble(base, instruction, language, code)|
    ensures Assemble(base, instruction, language, code)[|PromptHead(base, instruction, language)|
                                                        ..|Assemble(base, instruction, language, code)| - 4]
            == code
  {
    var h := PromptHead(base, instruction, language);
    var p := Assemble(base, instruction, language, code);
    assert p == h + code + "\n" + "```";
    assert p[|h|..|p| - 4] == code;
  }

  /** The code is embedded whole: it can be read back from the prompt. */
  lemma PromptCodeRoundTrip(instruction: string, language: string, code: string)
    ensures PromptCode(AnalyzePrompt(instruction, language, code), instruction, language) == code
  {
    AssembleCodeAt(BasePrompt, instruction, language, code);
  }

  /** The response to the completion service's reply (lines 56-68). Missing
      content counts as the empty text; a failed call is the uniform 500. */
  function AnalyzeReply(reply: Completion): (r: Response)
    ensures r.Ok? <==> reply.Replied?
    ensures r.Err? ==> r == Err(500, AnalyzeFailed)
    ensures r.Ok? ==> r.body == JObj(map["optimizedCode" := JStr(ExtractCode(reply.content.GetOr("")))])
    ensures r.Ok? ==> IsTrimmed(r.body.fields["optimizedCode"].s)
    ensures r.Ok? && reply.content.GetOr("") == "" ==> r.body.fields["optimizedCode"].s == ""
  {
    match reply
    case CallFailed(_) => Err(500, AnalyzeFailed)
    case Replied(content) =>
      var text := content.GetOr("");
      assert text == "" ==> Trim(text) == "";
      Ok(JObj(map["optimizedCode" := JStr(ExtractCode(text))]))
  }

  /** The whole route. `body` is the request body as parsed JSON (None when it
      is not JSON); `complete` is the completion service. */
  function Analyze(body: Option<Value>, complete: string -> Completion): (x: Exchange)
    ensures body.None? || body == Some(JNull) ==> x == Exchange(None, Err(500, AnalyzeFailed))
    ensures (body.Some? && body.value != JNull && !Truthy(Get(body.value, "code")))
              ==> x == Exchange(None, Err(400, NoCode))
    ensures (&& body.Some? && body.value != JNull && Truthy(Get(body.value, "code"))
             && !(&& Converts(Get(body.value, "analysisMode"))
                  && Converts(Get(body.value, "language"))
                  && Converts(Get(body.value, "code"))))
            ==> x == Exchange(None, Err(500, AnalyzeFailed))
    ensures x.sent.Some? <==> && body.Some? && body.value != JNull && Truthy(Get(body.value, "code"))
                              && Converts(Get(body.value, "analysisMode"))
                              && Converts(Get(body.value, "language"))
                              && Converts(Get(body.value, "code"))
    ensures x.sent.Some? ==> x.sent.value == AnalyzePrompt(
              ModeInstruction(ValueString(Get(body.value, "analysisMode")).value),
              ValueString(Get(body.value, "language")).value,
              ValueString(Get(body.value, "code")).value)
    ensures x.sent.Some? ==> x.response == AnalyzeReply(complete(x.sent.value))
    ensures x.response.Err? ==> x.response.status in {400, 500}
  {
    match body
    case None => Exchange(None, Err(500, AnalyzeFailed))
    case Some(request) =>
      if request.JNull? then
        // Destructuring null throws.
        Exchange(None, Err(500, AnalyzeFailed))
      else
        var code := Get(request, "code");
        if !Truthy(code) then Exchange(None, Err(400, NoCode))
        else
          // The mode becomes a property key, the language and the code strings;
          // each conversion may throw.
          var mode := ValueString(Get(request, "analysisMode"));
          var language := ValueString(Get(request, "language"));
          var text := ValueString(code);
          if mode.None? || language.None? || text.None? then Exchange(None, Err(500, AnalyzeFailed))
          else
            var prompt := AnalyzePrompt(ModeInstruction(mode.value), language.value, text.value);
            Exchange(Some(prompt), AnalyzeReply(complete(prompt)))
  }

  /** What the client receives on an error: a 400 carries
      `{"error": "No code provided"}` and every 500 the same
      `{"error": "Failed to analyze code"}`, whatever was thrown. */
  lemma AnalyzeErrorBodies(body: Option<Value>, complete: string -> Completion)
    ensures var r := Analyze(body, complete).response;
            && (r.Err? && r.status == 400 ==> r.Body() == JObj(map["error" := JStr("No code provided")]))
            && (r.Err? && r.status == 500 ==> r.Body() == JObj(map["error" := JStr("Failed to analyze code")]))
  {
  }

  /** Code sent as a string reaches the completion service verbatim, inside
      the closing fence. */
  lemma AnalyzeSendsCodeVerbatim(body: Option<Value>, complete: string -> Completion, code: string)
    requires body.Some? && Get(body.value, "code") == Some(JStr(code)) && code != ""
    requires Converts(Get(body.value, "analysisMode")) && Converts(Get(body.value, "language"))
    ensures Analyze(body, complete).sent.Some?
    ensures EndsWith(Analyze(body, complete).sent.value,
                     "```" + ValueString(Get(body.value, "language")).value + "\n" + code + "\n" + "```")
  {
    assert ValueString(Get(body.value, "code")) == Some(code);
  }

  /** An unrecognised mode does not stop the request: the prompt is sent with
      the instruction written out as "undefined". */
  lemma UnknownModeSendsUndefined(body: Option<Value>, complete: string -> Completion)
    requires body.Some? && body.value != JNull && Truthy(Get(body.value, "code"))
    requires Converts(Get(body.value, "language")) && Converts(Get(body.value, "code"))
    requires ValueString(Get(body.value, "analysisMode")).Some?
    requires ValueString(Get(body.value, "analysisMode")).value !in ModeInstructions
    requires InheritedMember(ValueString(Get(body.value, "analysisMode")).value).None?
    ensures Analyze(body, complete).sent
            == Some(AnalyzePrompt("undefined", ValueString(Get(body.value, "language")).value,
                                  ValueString(Get(body.value, "code")).value))
  {
    assert ModeInstruction(ValueString(Get(body.value, "analysisMode")).value) == "undefined";
  }

  /** Code that is an object with its own "toString" property cannot be
      converted into the prompt: the route answers the uniform 500 without
      calling the service. */
  lemma UnconvertibleCodeFails(complete: string -> Completion)
    ensures Analyze(Some(JObj(map["code" := JObj(map["toString" := JNum(1)])])), complete)
            == Exchange(None, Err(500, AnalyzeFailed))
  {
    var code := JObj(map["toString" := JNum(1)]);
    var request := JObj(map["code" := code]);
    assert Get(request, "code") == Some(code);
    assert Unconvertible(code);
  }

  /** The code returned to the client is a fixed point of the extraction. */
  lemma ReturnedCodeIsStable(reply: Completion)
    requires reply.Replied?
    ensures AnalyzeReply(reply).Ok?
    ensures ExtractCode(AnalyzeReply(reply).body.fields["optimizedCode"].s)
            == AnalyzeReply(reply).body.fields["optimizedCode"].s
  {
    ExtractIdempotent(reply.content.GetOr(""));
  }
}
