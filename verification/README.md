# Model registry and request pipeline of an editor chat assistant

A Dafny model of the service core of an editor extension that routes code and
chat prompts to a selectable language model. The core has three parts:

- **SecurityManager** (`security.dfy`): the sanitisation policy. Both
  `sanitizeInput` and `validateOutput` apply the global strip
  `replace(/[<>]/g, '')`. It is modelled as the recursive filter
  `StripBrackets` over `seq<char>`.
- **ModelManager** (`model_manager.dfy`): the model registry. Its state is an
  immutable `Manager` value. It holds a map from model name to handle, the
  active name (initially `"gpt4"`) and the declared list
  `["gpt4", "codellama", "mistral"]`. A handle (`AIModel`) is a record with
  two total string functions that may fail (`Result<string>`). `createModel`
  builds the mock handle, which echoes its input behind `"Suggestion for: "`
  or `"Response to: "`. `initializeModels`, `switchModel` and the trace
  function `Run` return the next state. `getCurrentModel` and
  `getAvailableModels` only read the state. `switchModel` returns the next
  state together with an `Outcome`, so "unchanged on failure" is part of its
  contract.
- **AIService** (`ai_service.dfy`): the request pipeline shared by
  `getSuggestion` and `chat` (`Mediate`). It sanitises the input, resolves
  the active model, invokes it and sanitises the output. A failed lookup
  propagates its own error. A failed invocation becomes the fixed message
  `"Failed to generate suggestion"` or `"Failed to generate response"`.
  Both functions take the registry state as input and return only a
  `Result`, so by construction they cannot change the registry.

Thrown errors are modelled as `Err(message)` (`wrappers.dfy`). A caller of
the services sees only the message.

`switchModel` checks its target against the handle map only
(src/services/ModelManager.ts:34), so the active name can leave the declared
list; `SwitchOutsideDeclaredList` exhibits this. The cause of an invocation
failure is discarded (src/services/AIService.ts:24-26, 36-38);
`FailureCauseDiscarded` states that.

`getAvailableModels` returns the declared list unchanged. Its property is
stated by `RunMonotone` and `AvailableModelsFixed` rather than on the
function itself.

## Model

| member | source | states |
|---|---|---|
| SecurityManager.StripBrackets | src/services/SecurityManager.ts:8 | the stripped string contains neither `<` nor `>` |
| SecurityManager.SanitizeInput | src/services/SecurityManager.ts:6-9 | the sanitised input has no angle brackets, and an input without brackets comes back unchanged |
| SecurityManager.ValidateOutput | src/services/SecurityManager.ts:11-14 | output validation has no brackets in its result and agrees with input sanitisation on every string |
| SecurityManager.StripLength | src/services/SecurityManager.ts:8 | the strip shortens a string by exactly the number of `<` and `>` in it |
| SecurityManager.StripFixedPoint | src/services/SecurityManager.ts:8 | a string is left unchanged by the strip if and only if it contains no bracket |
| SecurityManager.SanitizeIdempotent | src/services/SecurityManager.ts:8 | sanitising twice gives the same as sanitising once |
| SecurityManager.StripDistributes | src/services/SecurityManager.ts:8 | stripping a concatenation is the concatenation of the stripped parts |
| SecurityManager.StripIsSubsequence | src/services/SecurityManager.ts:8 | the stripped string keeps its characters in their original order: it is a subsequence of the input |
| SecurityManager.SanitizeCharacterised | src/services/SecurityManager.ts:8 | `r` is the sanitised form of `s` exactly when `r` is a bracket-free subsequence of `s` that is as long as `s` less its brackets, so only brackets are dropped |
| SecurityManager.StripKeepsOtherCharacters | src/services/SecurityManager.ts:8 | each character other than `<` and `>` occurs as often after the strip as before |
| ModelManager.InitialState | src/services/ModelManager.ts:8-12 | a new manager has no handles and `"gpt4"` active; it lists the three declared names, fails lookup with "No model available" and refuses every switch with no state change |
| ModelManager.CreateModel | src/services/ModelManager.ts:40-53 | the built handle carries the descriptor's name, never fails, and answers `"Suggestion for: " + s` and `"Response to: " + s` |
| ModelManager.InitializeModels | src/services/ModelManager.ts:14-19 | every descriptor name becomes a key; the last descriptor of a name wins; other keys keep their handles; the active name and declared list are unchanged |
| ModelManager.GetCurrentModel | src/services/ModelManager.ts:21-27 | the lookup fails with "No model available" if and only if the active name has no handle; otherwise it returns that handle |
| ModelManager.SwitchModel | src/services/ModelManager.ts:33-38 | the switch fails with "Model not found" if and only if the name has no handle, and then the whole state is unchanged; on success only the active name changes, and the next lookup returns the target's handle |
| ModelManager.RunMonotone | src/services/ModelManager.ts:14-38 | no sequence of initialisations and switches removes a handle or alters the declared list |
| ModelManager.AvailableModelsFixed | src/services/ModelManager.ts:29-31 | in every reachable state the available list is the declared list, whichever handles exist |
| ModelManager.RunKeepsActiveModel | src/services/ModelManager.ts:14-38 | once the active name has a handle, no later operation makes the lookup fail |
| ModelManager.SwitchSucceededStaysServable | src/services/ModelManager.ts:33-38 | after a successful switch, the lookup succeeds whatever operations follow |
| ModelManager.SwitchOutsideDeclaredList | src/services/ModelManager.ts:33-38 | a switch to an initialised name outside the declared list succeeds, leaving the active name outside the list |
| ModelManager.InitializeAllMock | src/services/ModelManager.ts:14-19 | initialisation stores only handles that behave as the mock |
| ModelManager.RunKeepsAllMock | src/services/ModelManager.ts:14-53 | every handle in a state reached by the manager's own operations behaves as the mock |
| AIService.Mediate | src/services/AIService.ts:13-39 | a pipeline result has no brackets, and its only possible errors are "No model available" and the request's fixed failure message |
| AIService.GetSuggestion | src/services/AIService.ts:13-27 | a lookup failure propagates unchanged; the model gets the sanitised code; a model failure becomes "Failed to generate suggestion"; a model reply is returned after output validation |
| AIService.Chat | src/services/AIService.ts:29-39 | the same pipeline as a suggestion, using the response operation and "Failed to generate response" |
| AIService.ModelSeesOnlySanitizedInput | src/services/AIService.ts:15-22 | the model is only called on bracket-free input: handles that agree on all such inputs give the same result |
| AIService.PipelineAbsorbsSanitisation | src/services/AIService.ts:13-39 | sanitising the input before the call changes nothing |
| AIService.FailureCauseDiscarded | src/services/AIService.ts:21-38 | whatever message a failing model throws, the caller sees only the fixed failure message |
| AIService.MockPipeline | src/services/AIService.ts:13-39 | with the mock active, a suggestion is `"Suggestion for: "` and a chat reply is `"Response to: "`, each followed by the sanitised input |
| AIService.ReachableRequests | src/services/AIService.ts:13-39 | in every state the manager's own operations reach, a request can fail only with "No model available" |
| AIService.ScriptScenario | src/services/AIService.ts:13-27 | after initialising `gpt4` and `codellama`, the `gpt4` handle serves, and the suggestion for `<script>x</script>` is `Suggestion for: scriptx/script` |
| SecurityManager.ScriptSanitised | src/services/SecurityManager.ts:8 | `<script>x</script>` sanitises to `scriptx/script` |
| AIService.UninitialisedSwitchScenario | src/services/ModelManager.ts:33-38 | a switch to the declared but uninitialised `mistral` fails and the `gpt4` handle keeps serving |

## Left out

- `createSandbox` and `executeSandboxed` (src/services/SecurityManager.ts:16-25): empty stubs with no behaviour.
- `async`/`Promise` and interleaved concurrent calls: no operation of the core waits on real I/O, so each is modelled as one sequential step.
- Real model backends: only the mock handle exists in the code. Error wrapping is stated for an arbitrary handle in the map. Such a handle cannot be built through `initializeModels`.
- The webview provider and the extension entry point (command registration, editor edits, notifications): host wiring around the services.
- `Message` from the type declarations is not used by the core. `apiKey` and `endpoint` are carried in `ModelConfig` but never read, as in the code.
- Aliasing and object identity: `getAvailableModels` returns the private array itself, so a caller could mutate it; the model uses value semantics. Handle identity is not modelled either: `createModel` reads only the descriptor's name, so two descriptors of the same name build equal handles, and "last write wins" in `InitializeModels` is stated but not observable.
- String encoding: JavaScript strings are UTF-16 code units and Dafny strings are sequences of `char`. JavaScript strings may also hold lone surrogate code units, which a Dafny `char` cannot represent. The strip only touches the ASCII characters `<` and `>`, so it agrees with the source on every string both languages can represent.
- The truthiness test in `getCurrentModel` is modelled as map membership. A stored handle is a non-null object, so it is always truthy.
