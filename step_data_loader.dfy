/**
 * `useStepDataLoader` (RulesAsCodeApp/rules-as-code-app/src/components/stages/StepDataLoader.tsx):
 * what a stage component sees of its step, of the previous step, and the
 * text its editor starts from. The two store reads (`projectId` and the
 * `steps` record) are passed in as parameters; `steps` is the plain
 * string-keyed object the hook reads.
 */
module StepDataLoader {
  import opened Wrappers
  import opened JsValues
  import opened JsText
  import WizardStore

  datatype PreviousStep = PreviousStep(input: JsValue, output: JsValue, content: JsValue, approved: JsValue)

  datatype LoaderResult = LoaderResult(
    phase: JsValue,
    stepName: JsValue,
    content: JsValue,
    input: JsValue,
    output: JsValue,
    approved: JsValue,
    projectId: Option<int>,
    previousStep: Option<PreviousStep>,
    initialInput: JsValue,
    hasLlmContent: bool)

  /** `previousKey && typeof previousKey === "string"`: a key that is present and not empty. */
  predicate UsableKey(previousKey: Option<string>) {
    previousKey.Some? && previousKey.value != ""
  }

  /** The previous record the hook looks up, `undefined` when there is none. */
  function PreviousRecord(steps: map<string, JsValue>, previousKey: Option<string>): JsValue {
    if UsableKey(previousKey) && previousKey.value in steps then steps[previousKey.value] else Undefined
  }

  /** The `previousStep` view of a truthy previous record. */
  function ReadPrevious(raw: JsValue): (r: Option<PreviousStep>)
    ensures r.Some? <==> Truthy(raw)
    // the four fields are read off the record, `undefined` where it has none
    ensures r.Some? ==> r.value.input == Prop(raw, "input") && r.value.output == Prop(raw, "output")
                        && r.value.content == Prop(raw, "content") && r.value.approved == Prop(raw, "approved")
  {
    if Truthy(raw) then Some(PreviousStep(Prop(raw, "input"), Prop(raw, "output"), Prop(raw, "content"), Prop(raw, "approved")))
    else None
  }

  /** A saved input worth starting from: a string whose trimmed form is not empty. */
  predicate HasText(input: JsValue) {
    input.Str? && |Trim(input.s)| > 0
  }

  /** `input.trim()` is non-empty exactly when some character of `input` is not whitespace. */
  lemma HasTextIff(input: JsValue)
    ensures HasText(input) <==> input.Str? && !AllWhitespace(input.s)
  {
    if input.Str? { TrimNonEmptyIff(input.s); }
  }

  /** `initialInput`: the previous step's output, else the step's own text, else "". */
  function InitialInput(previousKey: Option<string>, previousStep: Option<PreviousStep>, input: JsValue): (r: JsValue)
    ensures UsableKey(previousKey) && previousStep.Some? && Truthy(previousStep.value.output) ==>
              r == previousStep.value.output
    ensures !(UsableKey(previousKey) && previousStep.Some? && Truthy(previousStep.value.output)) ==>
              (r == if HasText(input) then input else Str(""))
  {
    if UsableKey(previousKey) && previousStep.Some? && Truthy(previousStep.value.output) then previousStep.value.output
    else if HasText(input) then input
    else Str("")
  }

  /** `hasLlmContent`: the content is an object whose `result` is a non-null object. */
  predicate HasLlmContent(content: JsValue)
    ensures HasLlmContent(content) <==>
              content.Obj? && "result" in content.props
              && (content.props["result"].Obj? || content.props["result"].Arr?)
  {
    TypeofObject(content) && content != Null && HasProperty(content, "result")
    && TypeofObject(Prop(content, "result")) && Prop(content, "result") != Null
  }

  /** `useStepDataLoader(step, previousKey)` with the store's `projectId` and `steps`. */
  function LoadStepData(step: JsValue, previousKey: Option<string>, projectId: Option<int>,
                        steps: map<string, JsValue>): (r: LoaderResult)
    // the step's own fields come back unchanged; a missing step reads as phase "", stepName "", content {}
    ensures r.input == Prop(step, "input") && r.output == Prop(step, "output") && r.approved == Prop(step, "approved")
    ensures r.projectId == projectId
    ensures Nullish(step) ==> r.phase == Str("") && r.stepName == Str("") && r.content == EmptyObject
    // phase, stepName and content pass through unless undefined, which reads as "", "" and {}
    ensures !Prop(step, "phase").Undefined? ==> r.phase == Prop(step, "phase")
    ensures Prop(step, "phase").Undefined? ==> r.phase == Str("")
    ensures !Prop(step, "stepName").Undefined? ==> r.stepName == Prop(step, "stepName")
    ensures Prop(step, "stepName").Undefined? ==> r.stepName == Str("")
    ensures !Prop(step, "content").Undefined? ==> r.content == Prop(step, "content")
    ensures Prop(step, "content").Undefined? ==> r.content == EmptyObject
    // no usable key: no previous step, and only the step's own input matters
    ensures !UsableKey(previousKey) ==> r.previousStep.None?
    // a usable key: the previous step is read off a truthy record at that key, and is absent otherwise
    ensures UsableKey(previousKey) && previousKey.value in steps && Truthy(steps[previousKey.value]) ==>
              r.previousStep.Some? && r.previousStep.value.input == Prop(steps[previousKey.value], "input")
              && r.previousStep.value.output == Prop(steps[previousKey.value], "output")
              && r.previousStep.value.content == Prop(steps[previousKey.value], "content")
              && r.previousStep.value.approved == Prop(steps[previousKey.value], "approved")
    ensures UsableKey(previousKey) && !(previousKey.value in steps && Truthy(steps[previousKey.value])) ==>
              r.previousStep.None?
    ensures !UsableKey(previousKey) ==> r.initialInput == InitialInput(None, None, Prop(step, "input"))
    // a truthy output of the previous record wins
    ensures UsableKey(previousKey) && previousKey.value in steps
            && Truthy(Prop(steps[previousKey.value], "output")) ==>
              r.initialInput == Prop(steps[previousKey.value], "output")
    // otherwise the step's own text, else ""
    ensures !(UsableKey(previousKey) && previousKey.value in steps && Truthy(Prop(steps[previousKey.value], "output"))) ==>
              r.initialInput == (if HasText(Prop(step, "input")) then Prop(step, "input") else Str(""))
    ensures r.hasLlmContent <==> HasLlmContent(r.content)
  {
    var s := if Nullish(step) then EmptyObject else step;
    var content := DefaultIfUndefined(Prop(s, "content"), EmptyObject);
    var previousStep := ReadPrevious(PreviousRecord(steps, previousKey));
    LoaderResult(
      phase := DefaultIfUndefined(Prop(s, "phase"), Str("")),
      stepName := DefaultIfUndefined(Prop(s, "stepName"), Str("")),
      content := content,
      input := Prop(s, "input"),
      output := Prop(s, "output"),
      approved := Prop(s, "approved"),
      projectId := projectId,
      previousStep := previousStep,
      initialInput := InitialInput(previousKey, previousStep, Prop(s, "input")),
      hasLlmContent := HasLlmContent(content))
  }

  /** The previous record's `approved` flag plays no part in choosing the initial input. */
  lemma ApprovalNotConsulted(step: JsValue, previousKey: Option<string>, projectId: Option<int>,
                             steps: map<string, JsValue>, key: string, flag: JsValue)
    requires key in steps && steps[key].Obj?
    ensures LoadStepData(step, previousKey, projectId, steps[key := Obj(steps[key].props["approved" := flag])]).initialInput
         == LoadStepData(step, previousKey, projectId, steps).initialInput
  {
    var steps' := steps[key := Obj(steps[key].props["approved" := flag])];
    assert Prop(steps'[key], "output") == Prop(steps[key], "output");
  }

  /**
   * The code puts the previous step's output before the step's own saved input,
   * the reverse of the order the result type's documentation gives: with input
   * "x" and a previous output "y", the initial input is "y", not "x".
   */
  lemma PreviousOutputBeforeOwnInput(previousKey: string, projectId: Option<int>)
    requires previousKey != ""
    ensures var step := Obj(map["input" := Str("x")]);
            var steps := map[previousKey := Obj(map["output" := Str("y")])];
            LoadStepData(step, Some(previousKey), projectId, steps).initialInput == Str("y")
  {
    var steps := map[previousKey := Obj(map["output" := Str("y")])];
    assert Prop(steps[previousKey], "output") == Str("y");
  }

  /* ---------------- Reading the store's records ---------------- */

  /** A store record has no `output` property: the output lives in `llmOutput` and `humanOutput`. */
  lemma StoreRecordHasNoOutput(rec: WizardStore.DBStep)
    ensures Prop(WizardStore.ToJs(rec), "output") == Undefined
  {
  }

  /**
   * As written, the previous step's record from the store never supplies the
   * initial input, whatever it holds: e.g. "1-1" approved with llmOutput "rules"
   * and a step without input start from "".
   */
  lemma PreviousStoreOutputNeverUsed(step: JsValue, key: string, projectId: Option<int>,
                                     steps: map<string, JsValue>, rec: WizardStore.DBStep)
    requires key != "" && key in steps && steps[key] == WizardStore.ToJs(rec)
    ensures LoadStepData(step, Some(key), projectId, steps).initialInput
         == (if HasText(Prop(step, "input")) then Prop(step, "input") else Str(""))
  {
    StoreRecordHasNoOutput(rec);
  }

  /**
   * The initial input as the store's own design describes it: the previous
   * step's effective (approved) output when it is truthy, else the step's own
   * text, else "".
   */
  function InitialInputFromStore(previousId: Option<WizardStore.StepId>, steps: map<WizardStore.StepId, WizardStore.DBStep>,
                                 input: JsValue): (r: JsValue)
    ensures previousId.Some? && WizardStore.Approved(steps, previousId.value)
            && Truthy(WizardStore.ChosenOutput(steps[previousId.value])) ==>
              r == WizardStore.ChosenOutput(steps[previousId.value])
    ensures previousId.Some? && !(WizardStore.Approved(steps, previousId.value)
                                  && Truthy(WizardStore.ChosenOutput(steps[previousId.value]))) ==>
              r == (if HasText(input) then input else Str(""))
    ensures previousId.None? ==> r == (if HasText(input) then input else Str(""))
  {
    var previous := if previousId.Some?
                    then WizardStore.EffectiveOutput(steps, previousId.value.0, previousId.value.1)
                    else Null;
    if Truthy(previous) then previous
    else if HasText(input) then input
    else Str("")
  }

  /** Once the previous step is approved through the store, the next step starts from its chosen output. */
  lemma ApprovedOutputFlowsForward(w: WizardStore.Wizard, phase: int, stepNumber: int, input: JsValue)
    requires var rec := WizardStore.Upsert(w, phase, stepNumber, WizardStore.ApprovalPatch).steps[(phase, stepNumber)];
             Truthy(WizardStore.ChosenOutput(rec))
    ensures InitialInputFromStore(Some((phase, stepNumber)), WizardStore.Approve(w, phase, stepNumber).steps, input)
         == WizardStore.ChosenOutput(WizardStore.Upsert(w, phase, stepNumber, WizardStore.ApprovalPatch).steps[(phase, stepNumber)])
  {
    WizardStore.ApproveExposesOutput(w, phase, stepNumber);
  }
}
