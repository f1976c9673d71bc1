/**
 * The wizard's client-side state (RulesAsCodeApp/rules-as-code-app/src/lib/store.ts):
 * a fixed five-step methodology in global order, step records keyed by
 * (phase, stepNumber), a cursor, and approval-gated navigation.
 *
 * `Store` is the mutable store; each of its methods is specified by a pure
 * transition on the `Wizard` snapshot (`Navigate`, `Hydrate`, `Upsert`,
 * `Advance`, `Approve`), and the properties of the store are lemmas about
 * those transitions.
 */
module WizardStore {
  import opened Wrappers
  import opened JsValues
  import opened JsText

  /* ---------------- Methodology ---------------- */

  /** An element of `methodology[phase]`. */
  datatype MethodologyEntry = MethodologyEntry(stepNumber: int, stepName: string)

  /** A step as `stepIterator` yields it. */
  datatype StepDef = StepDef(phase: int, stepNumber: int, stepName: string) {
    function Id(): StepId { (phase, stepNumber) }
  }

  /** A step record's identity; the store's key `${phase}-${stepNumber}` stands for it (see `StepKeyInjective`). */
  type StepId = (int, int)

  const Methodology: map<int, seq<MethodologyEntry>> := map[
    1 := [MethodologyEntry(1, "Segment Text"), MethodologyEntry(2, "Extract Rules"),
          MethodologyEntry(3, "Detect Conflicts")],
    2 := [MethodologyEntry(4, "Create Data Model"), MethodologyEntry(5, "Generate Business Rules")]]

  /** The phase numbers in ascending order. */
  const PhaseOrder: seq<int> := [1, 2]

  /** The global step order: every phase's steps, phase after phase. */
  const Order: seq<StepDef> := [
    StepDef(1, 1, "Segment Text"), StepDef(1, 2, "Extract Rules"), StepDef(1, 3, "Detect Conflicts"),
    StepDef(2, 4, "Create Data Model"), StepDef(2, 5, "Generate Business Rules")]

  /** The steps of the given phases, in the order `stepIterator` visits them. */
  function Iterate(phases: seq<int>): seq<StepDef> {
    if phases == [] then []
    else
      var entries := if phases[0] in Methodology then Methodology[phases[0]] else [];
      seq(|entries|, i requires 0 <= i < |entries| => StepDef(phases[0], entries[i].stepNumber, entries[i].stepName))
      + Iterate(phases[1..])
  }

  /** `PhaseOrder` is the sorted key set of the methodology, and iterating it yields `Order`. */
  lemma OrderIsIteration()
    ensures forall p :: p in Methodology <==> p in PhaseOrder
    ensures forall i, j :: 0 <= i < j < |PhaseOrder| ==> PhaseOrder[i] < PhaseOrder[j]
    ensures Iterate(PhaseOrder) == Order
  {
    assert PhaseOrder[1..] == [2];
    assert Iterate([2][1..]) == [];
  }

  /** The store key of a step. */
  function StepKey(phase: int, stepNumber: int): string {
    IntToDecimal(phase) + "-" + IntToDecimal(stepNumber)
  }

  /**
   * Keying by the pair loses nothing: distinct pairs have distinct string keys,
   * negative numbers included (the separator is the first `-` after position 0).
   */
  lemma StepKeyInjective(p: int, s: int, p': int, s': int)
    requires StepKey(p, s) == StepKey(p', s')
    ensures p == p' && s == s'
  {
    var a, b, c, d := IntToDecimal(p), IntToDecimal(s), IntToDecimal(p'), IntToDecimal(s');
    var k := a + "-" + b;
    SeparatorDash(p, b);
    SeparatorDash(p', d);
    assert a == k[..|a|] == c;
    assert b == k[|a| + 1..] == d;
    IntToDecimalInjective(p, p');
    IntToDecimalInjective(s, s');
  }

  /** In `${p}-${b}`, the first dash after position 0 is the one right after `${p}`. */
  lemma SeparatorDash(p: int, b: string)
    ensures var a := IntToDecimal(p);
            && |a| >= 1 && (a + "-" + b)[|a|] == '-'
            && forall i :: 1 <= i < |a| ==> (a + "-" + b)[i] != '-'
  {
    var a := IntToDecimal(p);
    var digits := NatToDecimal(if p < 0 then -p else p);
    forall i | 1 <= i < |a| ensures (a + "-" + b)[i] != '-' {
      assert (a + "-" + b)[i] == a[i];
      if p < 0 {
        assert a[i] == digits[i - 1];
      } else {
        assert a[i] == digits[i];
      }
    }
  }

  /** The first position of `id` in `steps`. */
  function FindIndex(steps: seq<StepDef>, id: StepId): (r: Option<nat>)
    ensures r.Some? ==> r.value < |steps| && steps[r.value].Id() == id
    ensures r.Some? ==> forall j :: 0 <= j < r.value ==> steps[j].Id() != id
    ensures r.None? ==> forall j :: 0 <= j < |steps| ==> steps[j].Id() != id
  {
    if steps == [] then None
    else if steps[0].Id() == id then Some(0)
    else match FindIndex(steps[1..], id)
      case None => None
      case Some(k) => Some(k + 1)
  }

  /** Every step occurs once in the global order. */
  lemma IndexOfOrderStep(i: nat)
    requires i < |Order|
    ensures FindIndex(Order, Order[i].Id()) == Some(i)
  {
  }

  /* ---------------- Step records and the store snapshot ---------------- */

  /** A step record as the store keeps it (the `DBStep` type); `Undefined` marks an absent optional field. */
  datatype DBStep = DBStep(
    id: Option<int>,
    projectId: int,
    phase: int,
    stepNumber: int,
    stepName: string,
    input: JsValue,
    llmOutput: JsValue,
    humanOutput: JsValue,
    confidenceScore: JsValue,
    schemaValid: bool,
    humanModified: bool,
    approved: bool,
    reviewNotes: JsValue)

  /** A step row as the backend returns it, before `setStepsFromDB` fills in missing fields. */
  datatype RawStep = RawStep(
    id: Option<int>,
    projectId: Option<int>,
    phase: int,
    stepNumber: int,
    stepName: string,
    input: JsValue,
    llmOutput: JsValue,
    humanOutput: JsValue,
    confidenceScore: JsValue,
    schemaValid: JsValue,
    humanModified: JsValue,
    approved: JsValue,
    reviewNotes: JsValue)

  /** `Partial<Omit<DBStep, "projectId" | "phase" | "stepNumber">>`: `None` is a key the patch leaves out. */
  datatype Patch = Patch(
    id: Option<int>,
    stepName: Option<string>,
    input: Option<JsValue>,
    llmOutput: Option<JsValue>,
    humanOutput: Option<JsValue>,
    confidenceScore: Option<JsValue>,
    schemaValid: Option<bool>,
    humanModified: Option<bool>,
    approved: Option<bool>,
    reviewNotes: Option<JsValue>)

  const EmptyPatch: Patch := Patch(None, None, None, None, None, None, None, None, None, None)

  /** The store state (persistence and the setters' closures aside). */
  datatype Wizard = Wizard(
    projectId: Option<int>,
    projectName: Option<string>,
    currentPhase: int,
    currentStepNumber: int,
    steps: map<StepId, DBStep>)

  const Initial: Wizard := Wizard(None, None, 1, 1, map[])

  /** Every record sits under its own (phase, stepNumber). */
  ghost predicate KeysConsistent(steps: map<StepId, DBStep>) {
    forall k :: k in steps ==> steps[k].phase == k.0 && steps[k].stepNumber == k.1
  }

  /** `steps[key]?.approved`: a missing record counts as not approved. */
  predicate Approved(steps: map<StepId, DBStep>, id: StepId) {
    id in steps && steps[id].approved
  }

  /* ---------------- canNavigateTo / setCurrentStep ---------------- */

  /**
   * `canNavigateTo`: the first step always; a step of the methodology when every
   * step before it in the global order is approved; nothing else.
   */
  predicate Navigable(steps: map<StepId, DBStep>, phase: int, stepNumber: int) {
    || (phase == 1 && stepNumber == 1)
    || (var i := FindIndex(Order, (phase, stepNumber));
        i.Some? && forall j :: 0 <= j < i.value ==> Approved(steps, Order[j].Id()))
  }

  /** A step of the methodology is reachable exactly when all strictly earlier steps are approved. */
  lemma NavigableIff(steps: map<StepId, DBStep>, i: nat)
    requires i < |Order|
    ensures Navigable(steps, Order[i].phase, Order[i].stepNumber)
        <==> forall j :: 0 <= j < i ==> Approved(steps, Order[j].Id())
  {
    IndexOfOrderStep(i);
  }

  /** A pair outside the methodology, other than (1, 1), is never reachable. */
  lemma NotInMethodologyNotNavigable(steps: map<StepId, DBStep>, phase: int, stepNumber: int)
    requires !(phase == 1 && stepNumber == 1)
    requires forall i :: 0 <= i < |Order| ==> Order[i].Id() != (phase, stepNumber)
    ensures !Navigable(steps, phase, stepNumber)
  {
  }

  /** Whatever is reachable, every earlier step is reachable too. */
  lemma NavigablePrefixClosed(steps: map<StepId, DBStep>, i: nat, j: nat)
    requires j <= i < |Order|
    requires Navigable(steps, Order[i].phase, Order[i].stepNumber)
    ensures Navigable(steps, Order[j].phase, Order[j].stepNumber)
  {
    NavigableIff(steps, i);
    NavigableIff(steps, j);
  }

  /** Approving more steps never takes reachability away. */
  lemma NavigableMonotone(steps: map<StepId, DBStep>, steps': map<StepId, DBStep>, phase: int, stepNumber: int)
    requires forall k :: Approved(steps, k) ==> Approved(steps', k)
    requires Navigable(steps, phase, stepNumber)
    ensures Navigable(steps', phase, stepNumber)
  {
  }

  /** `setCurrentStep`: the cursor moves to a reachable step; otherwise nothing changes. */
  function Navigate(w: Wizard, phase: int, stepNumber: int): (r: Wizard)
    ensures r.steps == w.steps && r.projectId == w.projectId && r.projectName == w.projectName
    ensures Navigable(w.steps, phase, stepNumber) ==> r.currentPhase == phase && r.currentStepNumber == stepNumber
    ensures !Navigable(w.steps, phase, stepNumber) ==> r == w
  {
    if Navigable(w.steps, phase, stepNumber) then w.(currentPhase := phase, currentStepNumber := stepNumber) else w
  }

  /* ---------------- setStepsFromDB ---------------- */

  /** The record `setStepsFromDB` stores for a backend row. */
  function Normalize(s: RawStep, stateProjectId: Option<int>): (r: DBStep)
    ensures r.phase == s.phase && r.stepNumber == s.stepNumber && r.stepName == s.stepName
    ensures r.projectId == if s.projectId.Some? then s.projectId.value else stateProjectId.GetOr(0)
    // the required JSON fields always exist afterwards
    ensures !Nullish(r.input) && !Nullish(r.llmOutput) && !r.humanOutput.Undefined? && !r.reviewNotes.Undefined?
    // a field the row carries is kept; a null or missing one gets its default
    ensures !Nullish(s.input) ==> r.input == s.input
    ensures Nullish(s.input) ==> r.input == EmptyObject
    ensures !Nullish(s.llmOutput) ==> r.llmOutput == s.llmOutput
    ensures Nullish(s.llmOutput) ==> r.llmOutput == EmptyObject
    ensures !Nullish(s.humanOutput) ==> r.humanOutput == s.humanOutput
    ensures Nullish(s.humanOutput) ==> r.humanOutput == Null
    ensures !Nullish(s.confidenceScore) ==> r.confidenceScore == s.confidenceScore
    ensures Nullish(s.confidenceScore) ==> r.confidenceScore == Null
    ensures !Nullish(s.reviewNotes) ==> r.reviewNotes == s.reviewNotes
    ensures Nullish(s.reviewNotes) ==> r.reviewNotes == Null
    ensures r.id == s.id
    // the flags are the row's truthiness (`Boolean(...)`)
    ensures r.schemaValid == Truthy(s.schemaValid) && r.humanModified == Truthy(s.humanModified)
    ensures r.approved == Truthy(s.approved)
  {
    DBStep(
      id := s.id,
      projectId := if s.projectId.Some? then s.projectId.value else stateProjectId.GetOr(0),
      phase := s.phase,
      stepNumber := s.stepNumber,
      stepName := s.stepName,
      input := Coalesce(s.input, EmptyObject),
      llmOutput := Coalesce(s.llmOutput, EmptyObject),
      humanOutput := Coalesce(s.humanOutput, Null),
      confidenceScore := Coalesce(s.confidenceScore, Null),
      schemaValid := Truthy(s.schemaValid),
      humanModified := Truthy(s.humanModified),
      approved := Truthy(s.approved),
      reviewNotes := Coalesce(s.reviewNotes, Null))
  }

  /** The records after merging `rows` into `steps` one after the other. */
  function Merge(steps: map<StepId, DBStep>, rows: seq<RawStep>, stateProjectId: Option<int>): map<StepId, DBStep> {
    if rows == [] then steps
    else
      var last := rows[|rows| - 1];
      Merge(steps, rows[..|rows| - 1], stateProjectId)[(last.phase, last.stepNumber) := Normalize(last, stateProjectId)]
  }

  /** The last row carrying `id`, if any. */
  function LastRowFor(rows: seq<RawStep>, id: StepId): (r: Option<RawStep>)
    ensures r.Some? ==> r.value in rows && (r.value.phase, r.value.stepNumber) == id
    ensures r.None? ==> forall i :: 0 <= i < |rows| ==> (rows[i].phase, rows[i].stepNumber) != id
  {
    if rows == [] then None
    else
      var last := rows[|rows| - 1];
      if (last.phase, last.stepNumber) == id then Some(last) else LastRowFor(rows[..|rows| - 1], id)
  }

  /** After merging, a key holds the normalized last row for it, or else its old record; the last write wins. */
  lemma {:induction false} MergeAt(steps: map<StepId, DBStep>, rows: seq<RawStep>, pid: Option<int>, id: StepId)
    ensures id in Merge(steps, rows, pid) <==> id in steps || LastRowFor(rows, id).Some?
    ensures LastRowFor(rows, id).Some? ==> Merge(steps, rows, pid)[id] == Normalize(LastRowFor(rows, id).value, pid)
    ensures LastRowFor(rows, id).None? && id in steps ==> Merge(steps, rows, pid)[id] == steps[id]
  {
    if rows != [] {
      MergeAt(steps, rows[..|rows| - 1], pid, id);
    }
  }

  /** Merging keeps every record under its own key. */
  lemma {:induction false} MergeConsistent(steps: map<StepId, DBStep>, rows: seq<RawStep>, pid: Option<int>)
    requires KeysConsistent(steps)
    ensures KeysConsistent(Merge(steps, rows, pid))
  {
    if rows != [] {
      MergeConsistent(steps, rows[..|rows| - 1], pid);
    }
  }

  /** `setStepsFromDB`: rows overwrite records by key; everything else stays. */
  function Hydrate(w: Wizard, rows: seq<RawStep>): (r: Wizard)
    ensures r.(steps := w.steps) == w
  {
    w.(steps := Merge(w.steps, rows, w.projectId))
  }

  /* ---------------- setStepData ---------------- */

  /** The first methodology entry of the phase with this step number. */
  function FindEntry(entries: seq<MethodologyEntry>, stepNumber: int): (r: Option<MethodologyEntry>)
    ensures r.Some? ==> r.value in entries && r.value.stepNumber == stepNumber
    ensures r.None? ==> forall e :: e in entries ==> e.stepNumber != stepNumber
  {
    if entries == [] then None
    else if entries[0].stepNumber == stepNumber then Some(entries[0])
    else FindEntry(entries[1..], stepNumber)
  }

  /** The methodology's name for a step, or `Step n`. */
  function DefaultStepName(phase: int, stepNumber: int): string {
    var entries := if phase in Methodology then Methodology[phase] else [];
    match FindEntry(entries, stepNumber)
    case Some(e) => e.stepName
    case None => "Step " + IntToDecimal(stepNumber)
  }

  /** Every step of the order gets its methodology name. */
  lemma DefaultStepNameOfOrder(i: nat)
    requires i < |Order|
    ensures DefaultStepName(Order[i].phase, Order[i].stepNumber) == Order[i].stepName
  {
  }

  /** The record `setStepData` starts from when the key has none. */
  function DefaultRecord(stateProjectId: Option<int>, phase: int, stepNumber: int): DBStep {
    DBStep(None, stateProjectId.GetOr(0), phase, stepNumber, DefaultStepName(phase, stepNumber),
           EmptyObject, EmptyObject, Null, Null, false, false, false, Null)
  }

  /** `{ ...base, ...patch }`: the patch's keys override the base's. */
  function ApplyPatch(base: DBStep, patch: Patch): DBStep {
    base.(
      id := if patch.id.Some? then patch.id else base.id,
      stepName := patch.stepName.GetOr(base.stepName),
      input := patch.input.GetOr(base.input),
      llmOutput := patch.llmOutput.GetOr(base.llmOutput),
      humanOutput := patch.humanOutput.GetOr(base.humanOutput),
      confidenceScore := patch.confidenceScore.GetOr(base.confidenceScore),
      schemaValid := patch.schemaValid.GetOr(base.schemaValid),
      humanModified := patch.humanModified.GetOr(base.humanModified),
      approved := patch.approved.GetOr(base.approved),
      reviewNotes := patch.reviewNotes.GetOr(base.reviewNotes))
  }

  /** `setStepData`: upsert the record at (phase, stepNumber) with the patch. */
  function Upsert(w: Wizard, phase: int, stepNumber: int, patch: Patch): (r: Wizard)
    // only the one key is written; cursor and project are untouched
    ensures r.(steps := w.steps) == w
    ensures r.steps.Keys == w.steps.Keys + {(phase, stepNumber)}
    ensures forall k :: k in w.steps && k != (phase, stepNumber) ==> r.steps[k] == w.steps[k]
    // identity cannot drift through the patch
    ensures var rec := r.steps[(phase, stepNumber)];
            && rec.phase == phase && rec.stepNumber == stepNumber
            && rec.projectId == (if (phase, stepNumber) in w.steps then w.steps[(phase, stepNumber)].projectId
                                 else w.projectId.GetOr(0))
    // a field the patch sets takes the patch's value; one it leaves out keeps the old or default value
    ensures var rec := r.steps[(phase, stepNumber)];
            var base := if (phase, stepNumber) in w.steps then w.steps[(phase, stepNumber)]
                        else DefaultRecord(w.projectId, phase, stepNumber);
            && rec.approved == patch.approved.GetOr(base.approved)
            && rec.humanModified == patch.humanModified.GetOr(base.humanModified)
            && rec.llmOutput == patch.llmOutput.GetOr(base.llmOutput)
            && rec.humanOutput == patch.humanOutput.GetOr(base.humanOutput)
            && rec.stepName == patch.stepName.GetOr(base.stepName)
            && rec.input == patch.input.GetOr(base.input)
            && rec.confidenceScore == patch.confidenceScore.GetOr(base.confidenceScore)
            && rec.schemaValid == patch.schemaValid.GetOr(base.schemaValid)
            && rec.reviewNotes == patch.reviewNotes.GetOr(base.reviewNotes)
            && rec.id == (if patch.id.Some? then patch.id else base.id)
  {
    var key := (phase, stepNumber);
    var base := if key in w.steps then w.steps[key] else DefaultRecord(w.projectId, phase, stepNumber);
    w.(steps := w.steps[key := ApplyPatch(base, patch).(phase := phase, stepNumber := stepNumber, projectId := base.projectId)])
  }

  /** A record created by an empty patch: not approved, not validated, not modified, named by the methodology. */
  lemma UpsertCreatesDefault(w: Wizard, phase: int, stepNumber: int)
    requires (phase, stepNumber) !in w.steps
    ensures var rec := Upsert(w, phase, stepNumber, EmptyPatch).steps[(phase, stepNumber)];
            && !rec.approved && !rec.schemaValid && !rec.humanModified
            && rec.projectId == w.projectId.GetOr(0)
            && rec.input == EmptyObject && rec.llmOutput == EmptyObject && rec.humanOutput == Null
            && (forall i :: 0 <= i < |Order| && Order[i].Id() == (phase, stepNumber) ==> rec.stepName == Order[i].stepName)
            && (phase !in Methodology ==> rec.stepName == "Step " + IntToDecimal(stepNumber))
  {
    forall i | 0 <= i < |Order| && Order[i].Id() == (phase, stepNumber)
      ensures DefaultStepName(phase, stepNumber) == Order[i].stepName
    {
      DefaultStepNameOfOrder(i);
    }
  }

  lemma UpsertConsistent(w: Wizard, phase: int, stepNumber: int, patch: Patch)
    requires KeysConsistent(w.steps)
    ensures KeysConsistent(Upsert(w, phase, stepNumber, patch).steps)
  {
  }

  /* ---------------- nextStep / approveStep ---------------- */

  /** The empty record `nextStep` seeds for a successor that has none. */
  function SeedPatch(stepName: string): Patch {
    Patch(None, Some(stepName), Some(EmptyObject), Some(EmptyObject), Some(Null), None,
          Some(false), Some(false), Some(false), Some(Null))
  }

  /** The successor's record as `nextStep` leaves it: untouched if present, else an empty unapproved one. */
  function SeedIfAbsent(w: Wizard, next: StepDef): (r: Wizard)
    ensures r.(steps := w.steps) == w
    ensures r.steps.Keys == w.steps.Keys + {next.Id()}
    ensures forall k :: k in w.steps ==> r.steps[k] == w.steps[k]
    ensures next.Id() !in w.steps ==> !r.steps[next.Id()].approved && r.steps[next.Id()].stepName == next.stepName
  {
    if next.Id() in w.steps then w else Upsert(w, next.phase, next.stepNumber, SeedPatch(next.stepName))
  }

  /** `nextStep`: seed the successor's record if missing, then try to move the cursor onto it. */
  function Advance(w: Wizard): Wizard {
    match FindIndex(Order, (w.currentPhase, w.currentStepNumber))
    case None => w
    case Some(k) =>
      if k + 1 >= |Order| then w
      else Navigate(SeedIfAbsent(w, Order[k + 1]), Order[k + 1].phase, Order[k + 1].stepNumber)
  }

  /** `nextStep` never alters or removes a record that exists. */
  lemma AdvancePreservesRecords(w: Wizard)
    ensures forall k :: k in w.steps ==> k in Advance(w).steps && Advance(w).steps[k] == w.steps[k]
    ensures Advance(w).projectId == w.projectId && Advance(w).projectName == w.projectName
  {
  }

  /** From the last step, or from a cursor outside the methodology, `nextStep` does nothing. */
  lemma AdvanceStays(w: Wizard)
    requires var k := FindIndex(Order, (w.currentPhase, w.currentStepNumber));
             k.None? || k.value == |Order| - 1
    ensures Advance(w) == w
  {
  }

  /**
   * From step `k` of the order, `nextStep` gives the successor a record: an
   * unapproved one named by the methodology when it had none.
   */
  lemma AdvanceSeeds(w: Wizard, k: nat)
    requires FindIndex(Order, (w.currentPhase, w.currentStepNumber)) == Some(k) && k + 1 < |Order|
    ensures Advance(w).steps.Keys == w.steps.Keys + {Order[k + 1].Id()}
    ensures Order[k + 1].Id() !in w.steps ==>
              !Advance(w).steps[Order[k + 1].Id()].approved
              && Advance(w).steps[Order[k + 1].Id()].stepName == Order[k + 1].stepName
  {
    assert Advance(w).steps == SeedIfAbsent(w, Order[k + 1]).steps;
  }

  /** From step `k` of the order, `nextStep` moves the cursor on exactly when steps 0..k are all approved. */
  lemma AdvanceMoves(w: Wizard, k: nat)
    requires FindIndex(Order, (w.currentPhase, w.currentStepNumber)) == Some(k) && k + 1 < |Order|
    ensures (forall j :: 0 <= j <= k ==> Approved(w.steps, Order[j].Id())) ==>
              Advance(w).currentPhase == Order[k + 1].phase && Advance(w).currentStepNumber == Order[k + 1].stepNumber
    ensures !(forall j :: 0 <= j <= k ==> Approved(w.steps, Order[j].Id())) ==>
              Advance(w).currentPhase == w.currentPhase && Advance(w).currentStepNumber == w.currentStepNumber
  {
    var next := Order[k + 1];
    var seeded := SeedIfAbsent(w, next);
    var r := Navigate(seeded, next.phase, next.stepNumber);
    assert Advance(w) == r;
    SeedKeepsEarlierApprovals(w, k);
    NavigableIff(seeded.steps, k + 1);
    if forall j :: 0 <= j <= k ==> Approved(w.steps, Order[j].Id()) {
      assert Navigable(seeded.steps, next.phase, next.stepNumber);
    } else {
      assert !Navigable(seeded.steps, next.phase, next.stepNumber);
      assert r == seeded;
    }
  }

  /** Seeding step `k + 1` leaves the approval of every step up to `k` as it was. */
  lemma SeedKeepsEarlierApprovals(w: Wizard, k: nat)
    requires k + 1 < |Order|
    ensures forall j :: 0 <= j <= k ==>
              (Approved(w.steps, Order[j].Id()) <==> Approved(SeedIfAbsent(w, Order[k + 1]).steps, Order[j].Id()))
  {
    forall j | 0 <= j <= k
      ensures Approved(w.steps, Order[j].Id()) <==> Approved(SeedIfAbsent(w, Order[k + 1]).steps, Order[j].Id())
    {
      IndexOfOrderStep(j);
      IndexOfOrderStep(k + 1);
    }
  }

  lemma AdvanceConsistent(w: Wizard)
    requires KeysConsistent(w.steps)
    ensures KeysConsistent(Advance(w).steps)
  {
  }

  /** The patch `approveStep` applies. */
  const ApprovalPatch: Patch := EmptyPatch.(approved := Some(true))

  /**
   * `approveStep`: mark the step approved, creating a full default record when
   * it has none, then `nextStep`.
   */
  function Approve(w: Wizard, phase: int, stepNumber: int): (r: Wizard)
    // the approved record is a whole record under its own key, even when the step had none
    ensures (phase, stepNumber) in r.steps && r.steps[(phase, stepNumber)].approved
    ensures r.steps[(phase, stepNumber)].phase == phase && r.steps[(phase, stepNumber)].stepNumber == stepNumber
    ensures (phase, stepNumber) !in w.steps ==>
              r.steps[(phase, stepNumber)] == DefaultRecord(w.projectId, phase, stepNumber).(approved := true)
    // an existing record keeps all its content and only becomes approved
    ensures (phase, stepNumber) in w.steps ==>
              r.steps[(phase, stepNumber)]
              == w.steps[(phase, stepNumber)].(approved := true, phase := phase, stepNumber := stepNumber)
    // every other record that existed is kept as it was
    ensures forall k :: k in w.steps && k != (phase, stepNumber) ==> k in r.steps && r.steps[k] == w.steps[k]
  {
    var u := Upsert(w, phase, stepNumber, ApprovalPatch);
    AdvancePreservesRecords(u);
    Advance(u)
  }

  /* ---------------- getEffectiveOutput / getStepDisplayName ---------------- */

  /** The output a record stands for once approved: the human edit if there is one, else the LLM's. */
  function ChosenOutput(rec: DBStep): JsValue {
    if rec.humanModified && !Nullish(rec.humanOutput) then rec.humanOutput else rec.llmOutput
  }

  /** `getEffectiveOutput`; `Null` is the `null` returned for a missing or unapproved step. */
  function EffectiveOutput(steps: map<StepId, DBStep>, phase: int, stepNumber: int): (r: JsValue)
    ensures !Approved(steps, (phase, stepNumber)) ==> r == Null
    ensures (Approved(steps, (phase, stepNumber)) && steps[(phase, stepNumber)].humanModified
             && !Nullish(steps[(phase, stepNumber)].humanOutput)) ==> r == steps[(phase, stepNumber)].humanOutput
    ensures (Approved(steps, (phase, stepNumber)) && !(steps[(phase, stepNumber)].humanModified
             && !Nullish(steps[(phase, stepNumber)].humanOutput))) ==> r == steps[(phase, stepNumber)].llmOutput
  {
    var key := (phase, stepNumber);
    if key !in steps || !steps[key].approved then Null else ChosenOutput(steps[key])
  }

  /**
   * Approving the current step, when every earlier step is approved already,
   * moves the cursor on to its successor: the "advance" of approve-and-advance.
   */
  lemma ApproveAdvances(w: Wizard, k: nat)
    requires k + 1 < |Order| && (w.currentPhase, w.currentStepNumber) == Order[k].Id()
    requires forall j :: 0 <= j < k ==> Approved(w.steps, Order[j].Id())
    ensures Approve(w, Order[k].phase, Order[k].stepNumber).currentPhase == Order[k + 1].phase
    ensures Approve(w, Order[k].phase, Order[k].stepNumber).currentStepNumber == Order[k + 1].stepNumber
  {
    var u := Upsert(w, Order[k].phase, Order[k].stepNumber, ApprovalPatch);
    IndexOfOrderStep(k);
    forall j | 0 <= j <= k ensures Approved(u.steps, Order[j].Id()) {
      IndexOfOrderStep(j);
    }
    AdvanceMoves(u, k);
  }

  /**
   * `nextStep` works from the cursor, not from the approved step: approval adds the
   * approved step's key and the key of the cursor's successor, and no other.
   */
  lemma ApproveKeys(w: Wizard, phase: int, stepNumber: int, k: nat)
    requires FindIndex(Order, (w.currentPhase, w.currentStepNumber)) == Some(k) && k + 1 < |Order|
    ensures Approve(w, phase, stepNumber).steps.Keys == w.steps.Keys + {(phase, stepNumber), Order[k + 1].Id()}
  {
    var u := Upsert(w, phase, stepNumber, ApprovalPatch);
    AdvanceSeeds(u, k);
  }

  /** Right after approval, a step's effective output is its chosen output, whatever `nextStep` did. */
  lemma ApproveExposesOutput(w: Wizard, phase: int, stepNumber: int)
    ensures var rec := Upsert(w, phase, stepNumber, ApprovalPatch).steps[(phase, stepNumber)];
            EffectiveOutput(Approve(w, phase, stepNumber).steps, phase, stepNumber) == ChosenOutput(rec)
  {
    AdvancePreservesRecords(Upsert(w, phase, stepNumber, ApprovalPatch));
  }

  /** Approval keeps every record under its own key and approves the step. */
  lemma ApproveConsistent(w: Wizard, phase: int, stepNumber: int)
    requires KeysConsistent(w.steps)
    ensures KeysConsistent(Approve(w, phase, stepNumber).steps)
    ensures Approved(Approve(w, phase, stepNumber).steps, (phase, stepNumber))
  {
    var u := Upsert(w, phase, stepNumber, ApprovalPatch);
    AdvancePreservesRecords(u);
    AdvanceConsistent(u);
  }

  /** On an existing record, the upsert equals the source's `{ ...steps[key], approved: true }`. */
  lemma ApproveMatchesSpreadOnExisting(w: Wizard, phase: int, stepNumber: int)
    requires KeysConsistent(w.steps) && (phase, stepNumber) in w.steps
    ensures Upsert(w, phase, stepNumber, ApprovalPatch).steps
         == w.steps[(phase, stepNumber) := w.steps[(phase, stepNumber)].(approved := true)]
  {
  }

  /** `getStepDisplayName`: `n. name`, the name falling back to the methodology's and then to `Step n`. */
  function DisplayName(steps: map<StepId, DBStep>, phase: int, stepNumber: int): (r: string)
    ensures var prefix := IntToDecimal(stepNumber) + ". ";
            |r| > |prefix| && r[..|prefix|] == prefix
    ensures (phase, stepNumber) in steps && steps[(phase, stepNumber)].stepName != "" ==>
              r == IntToDecimal(stepNumber) + ". " + steps[(phase, stepNumber)].stepName
    // a record with an empty name falls back to `Step n`, not to the methodology's name
    ensures (phase, stepNumber) in steps && steps[(phase, stepNumber)].stepName == "" ==>
              r == IntToDecimal(stepNumber) + ". Step " + IntToDecimal(stepNumber)
    // without a record: the methodology's name when it has a non-empty one, else `Step n`
    ensures (phase, stepNumber) !in steps && phase in Methodology && FindEntry(Methodology[phase], stepNumber).Some?
            && FindEntry(Methodology[phase], stepNumber).value.stepName != "" ==>
              r == IntToDecimal(stepNumber) + ". " + FindEntry(Methodology[phase], stepNumber).value.stepName
    ensures (phase, stepNumber) !in steps
            && (phase !in Methodology || FindEntry(Methodology[phase], stepNumber).None?
                || FindEntry(Methodology[phase], stepNumber).value.stepName == "") ==>
              r == IntToDecimal(stepNumber) + ". Step " + IntToDecimal(stepNumber)
  {
    var key := (phase, stepNumber);
    var entries := if phase in Methodology then Methodology[phase] else [];
    var name := if key in steps then steps[key].stepName
                else (match FindEntry(entries, stepNumber)
                      case Some(e) => e.stepName
                      case None => "");
    var shown := if name == "" then "Step " + IntToDecimal(stepNumber) else name;
    assert (IntToDecimal(stepNumber) + ". " + shown)[..|IntToDecimal(stepNumber) + ". "|] == IntToDecimal(stepNumber) + ". ";
    IntToDecimal(stepNumber) + ". " + shown
  }

  /** A methodology step without a record is labelled `n. <methodology name>`. */
  lemma DisplayNameOfOrderStep(steps: map<StepId, DBStep>, i: nat)
    requires i < |Order| && Order[i].Id() !in steps
    ensures DisplayName(steps, Order[i].phase, Order[i].stepNumber)
         == IntToDecimal(Order[i].stepNumber) + ". " + Order[i].stepName
  {
  }

  /* ---------------- The store ---------------- */

  class Store {
    var projectId: Option<int>
    var projectName: Option<string>
    var currentPhase: int
    var currentStepNumber: int
    var steps: map<StepId, DBStep>

    function State(): Wizard
      reads this
    {
      Wizard(projectId, projectName, currentPhase, currentStepNumber, steps)
    }

    ghost predicate Valid()
      reads this
    {
      KeysConsistent(steps)
    }

    constructor ()
      ensures State() == Initial && Valid()
    {
      projectId, projectName := None, None;
      currentPhase, currentStepNumber := 1, 1;
      steps := map[];
    }

    method SetProjectId(id: int)
      modifies this
      ensures State() == old(State()).(projectId := Some(id))
    {
      projectId := Some(id);
    }

    method SetProjectName(name: string)
      modifies this
      ensures State() == old(State()).(projectName := Some(name))
    {
      projectName := Some(name);
    }

    /** `canNavigateTo`: walk the global order, stopping at the target or at the first unapproved step. */
    method CanNavigateTo(phase: int, stepNumber: int) returns (ok: bool)
      ensures ok == Navigable(steps, phase, stepNumber)
      ensures phase == 1 && stepNumber == 1 ==> ok
    {
      if phase == 1 && stepNumber == 1 {
        return true;
      }
      var i := 0;
      while i < |Order|
        invariant 0 <= i <= |Order|
        invariant forall j :: 0 <= j < i ==> Order[j].Id() != (phase, stepNumber) && Approved(steps, Order[j].Id())
      {
        var it := Order[i];
        if it.phase == phase && it.stepNumber == stepNumber {
          return true;
        }
        if !(it.Id() in steps && steps[it.Id()].approved) {
          return false;
        }
        i := i + 1;
      }
      return false;
    }

    method SetCurrentStep(phase: int, stepNumber: int)
      modifies this
      ensures State() == Navigate(old(State()), phase, stepNumber)
    {
      var ok := CanNavigateTo(phase, stepNumber);
      if ok {
        currentPhase, currentStepNumber := phase, stepNumber;
      }
    }

    method SetStepsFromDB(dbSteps: seq<RawStep>)
      requires Valid()
      modifies this
      ensures Valid()
      ensures State() == Hydrate(old(State()), dbSteps)
    {
      var merged := steps;
      var i := 0;
      while i < |dbSteps|
        invariant 0 <= i <= |dbSteps|
        invariant merged == Merge(steps, dbSteps[..i], projectId)
      {
        var s := dbSteps[i];
        assert dbSteps[..i + 1][..i] == dbSteps[..i];
        merged := merged[(s.phase, s.stepNumber) := Normalize(s, projectId)];
        i := i + 1;
      }
      assert dbSteps[..|dbSteps|] == dbSteps;
      MergeConsistent(steps, dbSteps, projectId);
      steps := merged;
    }

    method SetStepData(phase: int, stepNumber: int, patch: Patch)
      requires Valid()
      modifies this
      ensures Valid()
      ensures State() == Upsert(old(State()), phase, stepNumber, patch)
    {
      var key := (phase, stepNumber);
      var base := if key in steps then steps[key] else DefaultRecord(projectId, phase, stepNumber);
      steps := steps[key := ApplyPatch(base, patch).(phase := phase, stepNumber := stepNumber, projectId := base.projectId)];
    }

    /** `nextStep`: scan the order for the cursor; act on the step right after it. */
    method NextStep()
      requires Valid()
      modifies this
      ensures Valid()
      ensures State() == Advance(old(State()))
    {
      var cursor := (currentPhase, currentStepNumber);
      var snapshot := steps;
      var advance := false;
      var i := 0;
      while i < |Order|
        invariant 0 <= i <= |Order|
        invariant State() == old(State())
        invariant !advance ==> forall j :: 0 <= j < i ==> Order[j].Id() != cursor
        invariant advance ==> i >= 1 && FindIndex(Order, cursor) == Some(i - 1)
      {
        var it := Order[i];
        if !advance {
          if it.phase == cursor.0 && it.stepNumber == cursor.1 {
            advance := true;
          }
          i := i + 1;
          continue;
        }
        if it.Id() !in snapshot {
          SetStepData(it.phase, it.stepNumber, SeedPatch(it.stepName));
        }
        SetCurrentStep(it.phase, it.stepNumber);
        return;
      }
    }

    /** `approveStep`, with the record created when missing (see `SpreadApproved`). */
    method ApproveStep(phase: int, stepNumber: int)
      requires Valid()
      modifies this
      ensures Valid()
      ensures State() == Approve(old(State()), phase, stepNumber)
    {
      SetStepData(phase, stepNumber, ApprovalPatch);
      NextStep();
    }
  }

  /* ---------------- approveStep as written ---------------- */

  /** A record as the plain JavaScript object the store holds. */
  function ToJs(rec: DBStep): JsValue {
    var fields := map[
      "projectId" := Num(rec.projectId), "phase" := Num(rec.phase), "stepNumber" := Num(rec.stepNumber),
      "stepName" := Str(rec.stepName), "input" := rec.input, "llmOutput" := rec.llmOutput,
      "humanOutput" := rec.humanOutput, "confidenceScore" := rec.confidenceScore,
      "schemaValid" := Bool(rec.schemaValid), "humanModified" := Bool(rec.humanModified),
      "approved" := Bool(rec.approved), "reviewNotes" := rec.reviewNotes];
    Obj(if rec.id.Some? then fields["id" := Num(rec.id.value)] else fields)
  }

  /** `{ ...state.steps[key], approved: true }`, as the source writes it; spreading `undefined` copies nothing. */
  function SpreadApproved(prev: JsValue): JsValue {
    Obj((if prev.Obj? then prev.props else map[])["approved" := Bool(true)])
  }

  /** As written, approving an existing record only sets its flag. */
  lemma SpreadApprovedOnRecord(rec: DBStep)
    ensures SpreadApproved(ToJs(rec)) == ToJs(rec.(approved := true))
  {
  }

  /** As written, approving a step that has no record stores `{approved: true}`: no phase, number, name or project. */
  lemma SpreadApprovedOnMissing()
    ensures SpreadApproved(Undefined) == Obj(map["approved" := Bool(true)])
    ensures !HasProperty(SpreadApproved(Undefined), "phase")
    ensures !HasProperty(SpreadApproved(Undefined), "stepNumber")
    ensures !HasProperty(SpreadApproved(Undefined), "projectId")
    ensures forall rec: DBStep :: SpreadApproved(Undefined) != ToJs(rec)
  {
    forall rec: DBStep ensures SpreadApproved(Undefined) != ToJs(rec) {
      assert "phase" in ToJs(rec).props;
    }
  }
}
