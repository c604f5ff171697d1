/** The model registry of `ModelManager`: a map from model name to handle,
    the name of the active model and a fixed declared list of names. */
module ModelManager {
  import opened Wrappers

  /** What a model invocation yields: its text, or the message it threw. */
  type Reply = Result<string>

  /** The descriptor `initializeModels` receives; only `name` is read. */
  datatype ModelConfig = ModelConfig(name: string, apiKey: Option<string>, endpoint: Option<string>)

  /** An invocable model handle with its two text-in/text-out operations. */
  datatype AIModel = AIModel(
    name: string,
    generateSuggestion: string -> Reply,
    generateResponse: string -> Reply)

  datatype Manager = Manager(
    models: map<string, AIModel>,
    currentModel: string,
    availableModels: seq<string>)

  const DefaultModel: string := "gpt4"
  const DeclaredModels: seq<string> := ["gpt4", "codellama", "mistral"]
  const SuggestionPrefix: string := "Suggestion for: "
  const ResponsePrefix: string := "Response to: "

  const NoModelAvailable: string := "No model available"
  const ModelNotFound: string := "Model not found"

  /** The state a freshly constructed manager holds. */
  function Init(): Manager {
    Manager(map[], DefaultModel, DeclaredModels)
  }

  /** A handle behaving as the built-in mock: it never fails and echoes its
      input behind a fixed prefix. */
  ghost predicate IsMock(h: AIModel) {
    forall s :: h.generateSuggestion(s) == Ok(SuggestionPrefix + s)
             && h.generateResponse(s) == Ok(ResponsePrefix + s)
  }

  function CreateModel(config: ModelConfig): (h: AIModel)
    ensures h.name == config.name
    ensures IsMock(h)
  {
    AIModel(config.name, s => Ok(SuggestionPrefix + s), s => Ok(ResponsePrefix + s))
  }

  /** The names of a sequence of descriptors. */
  function ConfigNames(configs: seq<ModelConfig>): set<string> {
    set i | 0 <= i < |configs| :: configs[i].name
  }

  /** No descriptor after position `i` carries the name of `configs[i]`. */
  ghost predicate IsLastOfName(configs: seq<ModelConfig>, i: int)
    requires 0 <= i < |configs|
  {
    forall j :: i < j < |configs| ==> configs[j].name != configs[i].name
  }

  /** Builds a handle for each descriptor in order and stores it under the
      descriptor's name, overwriting any earlier handle of that name. */
  function InitializeModels(m: Manager, configs: seq<ModelConfig>): (r: Manager)
    ensures r.currentModel == m.currentModel
    ensures r.availableModels == m.availableModels
    ensures r.models.Keys == m.models.Keys + ConfigNames(configs)
    ensures forall n :: n in m.models && n !in ConfigNames(configs) ==>
      n in r.models && r.models[n] == m.models[n]
    ensures forall i :: 0 <= i < |configs| && IsLastOfName(configs, i) ==>
      configs[i].name in r.models && r.models[configs[i].name] == CreateModel(configs[i])
    decreases |configs|
  {
    if configs == [] then m
    else
      var first := configs[0];
      var next := m.(models := m.models[first.name := CreateModel(first)]);
      ConfigNamesCons(configs);
      LastOfNameCons(configs);
      InitializeModels(next, configs[1..])
  }

  lemma ConfigNamesCons(configs: seq<ModelConfig>)
    requires configs != []
    ensures ConfigNames(configs) == {configs[0].name} + ConfigNames(configs[1..])
  {
    forall n | n in ConfigNames(configs)
      ensures n in {configs[0].name} + ConfigNames(configs[1..])
    {
      var i :| 0 <= i < |configs| && configs[i].name == n;
      if i > 0 { assert configs[1..][i - 1] == configs[i]; }
    }
  }

  /** Being the last of its name carries over to the tail, and the head is
      last of its name only if the tail does not mention it. */
  lemma LastOfNameCons(configs: seq<ModelConfig>)
    requires configs != []
    ensures forall i :: 1 <= i < |configs| && IsLastOfName(configs, i) ==>
      IsLastOfName(configs[1..], i - 1)
    ensures IsLastOfName(configs, 0) ==> configs[0].name !in ConfigNames(configs[1..])
  {
  }

  function GetCurrentModel(m: Manager): (r: Result<AIModel>)
    ensures r.Ok? <==> m.currentModel in m.models
    ensures r.Ok? ==> r.value == m.models[m.currentModel]
    ensures r.Err? ==> r.message == NoModelAvailable
  {
    if m.currentModel in m.models then Ok(m.models[m.currentModel]) else Err(NoModelAvailable)
  }

  function GetAvailableModels(m: Manager): seq<string> {
    m.availableModels
  }

  /** Makes `name` the active model if a handle exists for it; the check is
      against the handle map, not the declared list. */
  function SwitchModel(m: Manager, name: string): (r: (Manager, Outcome))
    ensures r.1.Fail? <==> name !in m.models
    ensures r.1.Fail? ==> r.1.message == ModelNotFound && r.0 == m
    ensures r.1.Pass? ==> r.0.currentModel == name
    ensures r.1.Pass? ==> r.0.models == m.models && r.0.availableModels == m.availableModels
    ensures r.1.Pass? ==> GetCurrentModel(r.0) == Ok(m.models[name])
  {
    if name !in m.models then (m, Fail(ModelNotFound))
    else (m.(currentModel := name), Pass)
  }

  /** The state-changing calls a host can make on the manager. */
  datatype Op = Initialize(configs: seq<ModelConfig>) | Switch(name: string)

  function Apply(m: Manager, op: Op): Manager {
    match op
    case Initialize(configs) => InitializeModels(m, configs)
    case Switch(name) => SwitchModel(m, name).0
  }

  function Run(m: Manager, ops: seq<Op>): Manager
    decreases |ops|
  {
    if ops == [] then m else Run(Apply(m, ops[0]), ops[1..])
  }

  /** A fresh manager has no handles: it cannot serve a request and refuses
      every switch, yet still lists the three declared names. */
  lemma InitialState(name: string)
    ensures Init().models == map[] && Init().currentModel == "gpt4"
    ensures GetAvailableModels(Init()) == ["gpt4", "codellama", "mistral"]
    ensures GetCurrentModel(Init()) == Err(NoModelAvailable)
    ensures SwitchModel(Init(), name) == (Init(), Fail(ModelNotFound))
  {
  }

  /** No operation removes a handle, and none touches the declared list. */
  lemma {:induction false} RunMonotone(m: Manager, ops: seq<Op>)
    ensures m.models.Keys <= Run(m, ops).models.Keys
    ensures GetAvailableModels(Run(m, ops)) == GetAvailableModels(m)
    decreases |ops|
  {
    if ops != [] {
      RunMonotone(Apply(m, ops[0]), ops[1..]);
    }
  }

  /** The declared list is reported verbatim in every reachable state,
      whichever handles exist. */
  lemma AvailableModelsFixed(ops: seq<Op>)
    ensures GetAvailableModels(Run(Init(), ops)) == DeclaredModels
  {
    RunMonotone(Init(), ops);
  }

  /** Once the active model has a handle, it keeps one: `getCurrentModel`
      cannot fail again. */
  lemma {:induction false} RunKeepsActiveModel(m: Manager, ops: seq<Op>)
    requires GetCurrentModel(m).Ok?
    ensures GetCurrentModel(Run(m, ops)).Ok?
    decreases |ops|
  {
    if ops != [] {
      RunKeepsActiveModel(Apply(m, ops[0]), ops[1..]);
    }
  }

  /** After a successful switch, whatever follows, a request finds a model. */
  lemma SwitchSucceededStaysServable(m: Manager, name: string, ops: seq<Op>)
    requires SwitchModel(m, name).1 == Pass
    ensures GetCurrentModel(Run(SwitchModel(m, name).0, ops)).Ok?
  {
    RunKeepsActiveModel(SwitchModel(m, name).0, ops);
  }

  /** A switch succeeds for any name that has a handle, including one the
      declared list does not offer; the active name then lies outside it. */
  lemma SwitchOutsideDeclaredList()
    ensures var m := InitializeModels(Init(), [ModelConfig("local", None, None)]);
      var r := SwitchModel(m, "local");
      r.1 == Pass && r.0.currentModel !in GetAvailableModels(r.0)
  {
    var cs := [ModelConfig("local", None, None)];
    assert IsLastOfName(cs, 0);
    assert "local" !in DeclaredModels;
  }

  /** Every handle of a state built only by the manager's own operations is
      the mock. */
  ghost predicate AllMock(m: Manager) {
    forall n :: n in m.models ==> IsMock(m.models[n])
  }

  lemma {:induction false} RunKeepsAllMock(m: Manager, ops: seq<Op>)
    requires AllMock(m)
    ensures AllMock(Run(m, ops))
    decreases |ops|
  {
    if ops != [] {
      var next := Apply(m, ops[0]);
      if ops[0].Initialize? {
        InitializeAllMock(m, ops[0].configs);
      }
      RunKeepsAllMock(next, ops[1..]);
    }
  }

  lemma {:induction false} InitializeAllMock(m: Manager, configs: seq<ModelConfig>)
    requires AllMock(m)
    ensures AllMock(InitializeModels(m, configs))
    decreases |configs|
  {
    if configs != [] {
      var next := m.(models := m.models[configs[0].name := CreateModel(configs[0])]);
      InitializeAllMock(next, configs[1..]);
    }
  }
}
