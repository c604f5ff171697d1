/** The request pipeline of `AIService`: sanitise the input, resolve the
    active model, invoke it, sanitise its output. A failed lookup propagates
    as is; a failed invocation is replaced by a fixed message. */
module AIService {
  import opened Wrappers
  import opened SecurityManager
  import opened ModelManager

  const SuggestionFailed: string := "Failed to generate suggestion"
  const ResponseFailed: string := "Failed to generate response"

  /** Which of the two model operations a request runs. */
  datatype Request = Suggestion | Response

  function Invoke(model: AIModel, request: Request, input: string): Reply {
    match request
    case Suggestion => model.generateSuggestion(input)
    case Response => model.generateResponse(input)
  }

  function FailureMessage(request: Request): string {
    match request
    case Suggestion => SuggestionFailed
    case Response => ResponseFailed
  }

  /** The shared body of `getSuggestion` and `chat`. */
  function Mediate(m: Manager, request: Request, input: string): (r: Result<string>)
    ensures r.Ok? ==> NoBrackets(r.value)
    ensures r.Err? ==> r.message in {NoModelAvailable, FailureMessage(request)}
  {
    var sanitized := SanitizeInput(input);
    match GetCurrentModel(m)
    case Err(e) => Err(e)
    case Ok(model) =>
      match Invoke(model, request, sanitized)
      case Err(_) => Err(FailureMessage(request))
      case Ok(output) => Ok(ValidateOutput(output))
  }

  function GetSuggestion(m: Manager, code: string): (r: Result<string>)
    ensures GetCurrentModel(m).Err? ==> r == Err(GetCurrentModel(m).message)
    ensures m.currentModel in m.models ==>
      var reply := m.models[m.currentModel].generateSuggestion(SanitizeInput(code));
      && (reply.Err? ==> r == Err(SuggestionFailed))
      && (reply.Ok? ==> r == Ok(ValidateOutput(reply.value)))
    ensures r.Ok? ==> NoBrackets(r.value)
    ensures r.Err? ==> r.message == NoModelAvailable || r.message == SuggestionFailed
  {
    Mediate(m, Suggestion, code)
  }

  function Chat(m: Manager, message: string): (r: Result<string>)
    ensures GetCurrentModel(m).Err? ==> r == Err(GetCurrentModel(m).message)
    ensures m.currentModel in m.models ==>
      var reply := m.models[m.currentModel].generateResponse(SanitizeInput(message));
      && (reply.Err? ==> r == Err(ResponseFailed))
      && (reply.Ok? ==> r == Ok(ValidateOutput(reply.value)))
    ensures r.Ok? ==> NoBrackets(r.value)
    ensures r.Err? ==> r.message == NoModelAvailable || r.message == ResponseFailed
  {
    Mediate(m, Response, message)
  }

  /** Two managers with the same active name, each holding a handle for it. */
  ghost predicate BothServe(m: Manager, m': Manager) {
    && m.currentModel == m'.currentModel
    && m.currentModel in m.models && m'.currentModel in m'.models
  }

  /** The model never sees a raw bracket: handles that agree on every
      bracket-free input produce the same pipeline result. */
  lemma ModelSeesOnlySanitizedInput(m: Manager, m': Manager, request: Request, input: string)
    requires BothServe(m, m')
    requires forall s :: NoBrackets(s) ==>
      Invoke(m.models[m.currentModel], request, s) == Invoke(m'.models[m'.currentModel], request, s)
    ensures Mediate(m, request, input) == Mediate(m', request, input)
  {
  }

  /** Sanitising the input first changes nothing: the pipeline depends only on
      the sanitised input. */
  lemma PipelineAbsorbsSanitisation(m: Manager, request: Request, input: string)
    ensures Mediate(m, request, SanitizeInput(input)) == Mediate(m, request, input)
  {
    SanitizeIdempotent(input);
  }

  /** The cause of an invocation failure never reaches the caller: whatever
      message the active handle throws, the error is the fixed one. */
  lemma FailureCauseDiscarded(m: Manager, request: Request, input: string, cause: string)
    requires m.currentModel in m.models
    ensures
      var h := m.models[m.currentModel];
      var failing := AIModel(h.name, _ => Err(cause), _ => Err(cause));
      Mediate(m.(models := m.models[m.currentModel := failing]), request, input) == Err(FailureMessage(request))
  {
  }

  /** With the mock handle active, the pipeline returns the mock's echo of the
      sanitised input; the prefix brings no bracket, so output sanitisation is
      invisible. */
  lemma MockPipeline(m: Manager, input: string)
    requires m.currentModel in m.models && IsMock(m.models[m.currentModel])
    ensures GetSuggestion(m, input) == Ok(SuggestionPrefix + SanitizeInput(input))
    ensures Chat(m, input) == Ok(ResponsePrefix + SanitizeInput(input))
  {
    var s := SanitizeInput(input);
    assert NoBrackets(SuggestionPrefix) && NoBrackets(ResponsePrefix);
    CleanConcatenation(SuggestionPrefix, s);
    CleanConcatenation(ResponsePrefix, s);
  }

  /** In every state the manager's own operations can reach, a request either
      finds no model or succeeds with the mock's echo: the wrapped invocation
      error cannot occur. */
  lemma ReachableRequests(ops: seq<Op>, input: string)
    ensures var m := Run(Init(), ops);
      && (GetSuggestion(m, input).Err? ==> GetSuggestion(m, input) == Err(NoModelAvailable))
      && (Chat(m, input).Err? ==> Chat(m, input) == Err(NoModelAvailable))
  {
    var m := Run(Init(), ops);
    RunKeepsAllMock(Init(), ops);
    if m.currentModel in m.models {
      MockPipeline(m, input);
    }
  }

  /** Initialising `gpt4` and `codellama` serves requests with the `gpt4` mock;
      markup is stripped before the model sees it. */
  lemma ScriptScenario(m: Manager, code: string)
    requires m == InitializeModels(Init(), [ModelConfig("gpt4", None, None), ModelConfig("codellama", None, None)])
    requires code == "<script>x</script>"
    ensures GetCurrentModel(m).Ok? && GetCurrentModel(m).value.name == "gpt4"
    ensures GetSuggestion(m, code) == Ok("Suggestion for: scriptx/script")
  {
    var cs := [ModelConfig("gpt4", None, None), ModelConfig("codellama", None, None)];
    assert IsLastOfName(cs, 0);
    MockPipeline(m, code);
    ScriptSanitised(code);
    assert SuggestionPrefix + "scriptx/script" == "Suggestion for: scriptx/script";
  }

  /** A switch to a declared but uninitialised model fails and the `gpt4`
      handle keeps serving. */
  lemma UninitialisedSwitchScenario()
    ensures var m := InitializeModels(Init(), [ModelConfig("gpt4", None, None), ModelConfig("codellama", None, None)]);
      var r := SwitchModel(m, "mistral");
      && r.1 == Fail(ModelNotFound)
      && GetCurrentModel(r.0) == GetCurrentModel(m) && GetCurrentModel(r.0).Ok?
  {
    var cs := [ModelConfig("gpt4", None, None), ModelConfig("codellama", None, None)];
    assert IsLastOfName(cs, 0);
    assert "mistral" !in ConfigNames(cs);
  }
}
