# Free-meal eligibility, study duration and the Rules-as-Code wizard, in Dafny

This project models the decision logic of a thesis repository on rules as code.

- **Eligibility rules.** The repository has three free-meal eligibility rules:
  - `check_eligibility` of the web application, which returns a verdict together with a Greek justification message;
  - `check_eligibility` of the Flask service, which returns a bare boolean;
  - `is_eligible_for_free_meal`, which matches special categories by string.
- **Study duration.** The latest permitted completion date of studies.
- **Wizard state.** The client-side state of the Rules-as-Code wizard:
  - the Zustand store, with its approval-gated navigation over a five-step methodology, its upserts, its approval and its effective-output rule;
  - the step data loader that stage components read their step through;
  - the resume logic that runs when a saved project is selected.

Modules:

- `Wrappers`: `Option`.
- `JsValues`: JavaScript values, truthiness, `??`, property lookup.
- `JsText`: `String.prototype.trim` and the rendering of integers in template literals.
- `IncomeLimits`: the `max(0, n)` clamp and the 10% same-city reduction.
  The reduction is computed exactly, as `10 * income <= 9 * limit`.
- `Eligibility`, `FreenealApi`, `FreeMeal`: the three rules.
- `EligibilityVariants`: where the three rules agree, and concrete applicants on which they differ.
- `SchoolDuration`: the completion date.
- `WizardStore`: the store.
  - The class `Store` is specified by pure transitions on a `Wizard` snapshot.
  - Every method's `ensures` ties the new state to one of those transitions.
  - The properties are lemmas about the transitions.
- `StepDataLoader`: `useStepDataLoader`.
- `ProjectStatus`: `submitCreate`'s guard, and `selectProject` after its fetch.
  The class `NamedStore` is a string-keyed store in which the entries `setStepContent` writes
  are the ones `selectProject` reads back under `${phase}-${stepName}`. This is an assumed
  legacy store, not the store of store.ts (see "## Left out").

Python dictionaries are read with `dict.get`:

- A key that is absent is `None` in the model and takes the source's default.
- A number that is missing and then compared raises `TypeError` in Python 3.
  The model has an explicit `RaisesTypeError` outcome for this.

## Model

| member | source | states |
|---|---|---|
| Eligibility.CheckEligibility | Free_Meal/app/eligibility.py:1-65 | The rules are applied in order, first match wins: unemployment benefit, then large family, orphan, family disability, and terrorism-victim child under 25. After those come the income rules: personal income ≤ 25000 for a single student over 25, and family income against the single or married limit, 10% lower in the same city. Any other marital status is not eligible. Eligible exactly when the reason is a granting one. A missing age or income that gets compared raises TypeError. |
| Eligibility.LimitsMonotone | Free_Meal/app/eligibility.py:46-56 | More children or siblings never lower the single or married limit. |
| Eligibility.SameCityNeverHelps | Free_Meal/app/eligibility.py:46-62 | A same-city applicant eligible by income stays eligible as an other-city applicant. |
| Eligibility.BoundaryExamples | Free_Meal/app/eligibility.py:31-62 | All limits are inclusive: 25000 yes and 25001 no; 58000 yes in another city but no in the same city; 52200 yes; married 45000 yes and 45001 no. A terrorism victim's child aged 26 is judged by income. |
| IncomeLimits.ClampAtZero | Free_Meal/app/eligibility.py:46 | `max(0, n)` is n for n ≥ 0 and 0 for negative n. |
| IncomeLimits.SameCityStricter | Free_Meal/app/eligibility.py:47-49 | The reduced same-city limit never admits an income that the full limit rejects. |
| IncomeLimits.WithinLimitMonotone | Free_Meal/app/eligibility.py:49 | Raising a limit never turns an admitted income away. |
| FreenealApi.CheckEligibility | ImplementationFreeMeal/freenealAPI.py:6-36 | The unemployment benefit grants. Single over 25: personal income ≤ 25000. Single 25 or under, and married: family income against the limit, 10% lower in the same city. Any other status returns false. A missing age or income that gets compared raises TypeError. |
| FreeMeal.IsEligibleForFreeMeal | ImplementationFreeMeal/freemeal.py:5-51 | Eligible exactly when one of these holds: the unemployment benefit; a listed special category; single, 25 or under and within the limit; married and within the limit; single, over 25 and income ≤ 25000. The limit is 45000 + 5000·(total_children−1) + 3000·siblings, 10% lower in the same city, and is the same for single and married students. |
| FreeMeal.NoChildrenLimit | ImplementationFreeMeal/freemeal.py:27-28 | With total_children 0 the limit falls 5000 below the base. |
| FreeMeal.EmptyRecordEligible | ImplementationFreeMeal/freemeal.py:12-45 | An empty record is eligible through its defaults. |
| EligibilityVariants.AgreeWithoutCategories | ImplementationFreeMeal/freenealAPI.py:17-36 | With no categorical flag set, the boolean service and the message service return the same answer, or raise the same way, on every input. |
| EligibilityVariants.CategoriesIgnored | ImplementationFreeMeal/freenealAPI.py:8-15 | The boolean service's answer does not depend on the categorical flags. |
| EligibilityVariants.MessageRuleAtLeastAsGenerous | Free_Meal/app/eligibility.py:16-62 | Wherever the boolean service grants, the message service grants too, for every applicant whose age is given when the terrorism-victim flag is set. |
| EligibilityVariants.TerrorismNoAgeDivergence | Free_Meal/app/eligibility.py:31-32 | A married terrorism victim's child with family income 1000 and no age is granted by the boolean service and raises TypeError in the message service. |
| EligibilityVariants.SingleYoungLimitsAgree | ImplementationFreeMeal/freemeal.py:27-28 | With at least one child counted, freemeal's limit equals the single-student limit. |
| EligibilityVariants.MarriedLimitsAgreeShifted | ImplementationFreeMeal/freemeal.py:27-28 | freemeal's limit with children+1 and no siblings equals the married limit with `children`. |
| EligibilityVariants.OrphanDivergence | Free_Meal/app/eligibility.py:25-26 | A rich orphan is eligible for the message service and not for the boolean service. |
| EligibilityVariants.TerrorismAgeDivergence | ImplementationFreeMeal/freemeal.py:38-41 | A terrorism victim's child aged 30 is granted only by the string-category rule. |
| EligibilityVariants.NoChildrenDivergence | ImplementationFreeMeal/freemeal.py:13-27 | With 0 children the limits differ: 45000 in one rule and 40000 in the other. |
| EligibilityVariants.MarriedChildDivergence | ImplementationFreeMeal/freemeal.py:46 | A married student with one child: the limits are 50000 and 45000. |
| EligibilityVariants.EmptyRequestDivergence | ImplementationFreeMeal/freemeal.py:12-19 | An empty request is not eligible for the two services, and is eligible for freemeal. |
| SchoolDuration.MaxSemesters | Code/SchoolDuration.py:22-25 | 4 extra semesters for an eight-semester programme, 6 otherwise. |
| SchoolDuration.YearOffsetDecomposes | Code/SchoolDuration.py:28-41 | The year offset is the (doubled if part-time) semesters halved, plus break years capped at 2, plus 1 for health. |
| SchoolDuration.PartTimeDoubles | Code/SchoolDuration.py:28-32 | For non-negative minimum semesters and break years, doubling the semesters for part-time study adds half the maximum semesters, rounded up, to the year offset. |
| SchoolDuration.BreaksCapped | Code/SchoolDuration.py:35-37 | Break years beyond 2 add nothing. |
| SchoolDuration.HealthAddsOneYear | Code/SchoolDuration.py:40-41 | A health extension adds exactly one year. |
| SchoolDuration.CompletionDate | Code/SchoolDuration.py:8-46 | The completion date is the start date with only the year moved by the offset. The result is None (the ValueError) exactly when the year leaves 1..9999, or when a 29 February start lands on a non-leap year. |
| SchoolDuration.SampleStudents | Code/SchoolDuration.py:49-54 | The four sample students end in 2026, 2032, 2032 and 2036. |
| JsText.Trim | RulesAsCodeApp/rules-as-code-app/src/components/stages/StepDataLoader.tsx:87 | `trim()` gives the piece of the string left after cutting whitespace, and only whitespace, from both ends; the piece neither starts nor ends with whitespace. |
| JsText.LeadingCutIsWhitespace | RulesAsCodeApp/rules-as-code-app/src/components/stages/StepDataLoader.tsx:87 | The characters cut from the front of the string are all whitespace. |
| JsText.TrailingCutIsWhitespace | RulesAsCodeApp/rules-as-code-app/src/components/stages/StepDataLoader.tsx:87 | The characters cut from the back of the string are all whitespace. |
| JsText.TrimCutsWhitespace | RulesAsCodeApp/rules-as-code-app/src/components/stages/StepDataLoader.tsx:87 | Cutting whitespace from the front and then from the back leaves a piece of the string with only whitespace around it. |
| JsText.TrimNonEmptyIff | RulesAsCodeApp/rules-as-code-app/src/components/projects/ProjectStatus.tsx:95 | `s.trim()` is non-empty exactly when s holds a non-whitespace character. |
| JsText.DecimalRoundTrip | RulesAsCodeApp/rules-as-code-app/src/lib/store.ts:104 | Reading back the decimal rendering of n gives n. |
| JsText.NatToDecimalInjective | RulesAsCodeApp/rules-as-code-app/src/lib/store.ts:104 | Distinct naturals render differently. |
| JsText.IntToDecimalInjective | RulesAsCodeApp/rules-as-code-app/src/lib/store.ts:104 | Distinct integers, negative ones included, render differently. |
| JsValues.Prop | RulesAsCodeApp/rules-as-code-app/src/components/stages/StepDataLoader.tsx:73-80 | A present property reads as its value; an absent one reads as undefined. |
| WizardStore.OrderIsIteration | RulesAsCodeApp/rules-as-code-app/src/lib/store.ts:60-94 | The sorted phase keys, iterated phase by phase, give the five-step global order. |
| WizardStore.StepKeyInjective | RulesAsCodeApp/rules-as-code-app/src/lib/store.ts:97-104 | Distinct (phase, stepNumber) pairs, negative numbers included, have distinct `${phase}-${stepNumber}` keys. |
| WizardStore.SeparatorDash | RulesAsCodeApp/rules-as-code-app/src/lib/store.ts:104 | In a key, the first `-` after position 0 is the separator right after the rendered phase. |
| WizardStore.FindIndex | RulesAsCodeApp/rules-as-code-app/src/lib/store.ts:325-333 | The first position of a step in the order, or None when it is absent. |
| WizardStore.IndexOfOrderStep | RulesAsCodeApp/rules-as-code-app/src/lib/store.ts:88-94 | Each step occurs exactly once in the global order. |
| WizardStore.NavigableIff | RulesAsCodeApp/rules-as-code-app/src/lib/store.ts:191-207 | A methodology step is reachable exactly when every earlier step is approved. |
| WizardStore.NotInMethodologyNotNavigable | RulesAsCodeApp/rules-as-code-app/src/lib/store.ts:205-206 | A pair outside the methodology, other than (1,1), is never reachable. |
| WizardStore.NavigablePrefixClosed | RulesAsCodeApp/rules-as-code-app/src/lib/store.ts:191-207 | Whenever a step is reachable, every earlier step is reachable too. |
| WizardStore.NavigableMonotone | RulesAsCodeApp/rules-as-code-app/src/lib/store.ts:191-207 | More approvals never take reachability away. |
| WizardStore.Navigate | RulesAsCodeApp/rules-as-code-app/src/lib/store.ts:212-216 | The cursor moves only to a reachable step; otherwise nothing changes. Records are never touched. |
| WizardStore.Normalize | RulesAsCodeApp/rules-as-code-app/src/lib/store.ts:226-245 | A hydrated record keeps the row's identity and id. Input, outputs, confidence score and review notes are the row's own unless null or missing, when they become `{}` or `null`. projectId falls back to the store's, then to 0. `schemaValid`, `humanModified` and `approved` are the row's truthiness. |
| WizardStore.MergeAt | RulesAsCodeApp/rules-as-code-app/src/lib/store.ts:221-249 | After hydration a key holds the normalized last row for it, or else its old record. No key is lost. |
| WizardStore.MergeConsistent | RulesAsCodeApp/rules-as-code-app/src/lib/store.ts:221-249 | Hydration keeps every record under its own key. |
| WizardStore.Hydrate | RulesAsCodeApp/rules-as-code-app/src/lib/store.ts:221-249 | Hydration changes only the step records. |
| WizardStore.FindEntry | RulesAsCodeApp/rules-as-code-app/src/lib/store.ts:259-260 | The found entry has the requested step number. None means no entry has it. |
| WizardStore.DefaultStepNameOfOrder | RulesAsCodeApp/rules-as-code-app/src/lib/store.ts:259-266 | A methodology step's default name is its methodology name. |
| WizardStore.Upsert | RulesAsCodeApp/rules-as-code-app/src/lib/store.ts:254-290 | Only the one key is written. Phase, step number and projectId cannot drift through the patch. Every other field, id included, takes the patch's value when the patch sets it and keeps the old or default value otherwise. |
| WizardStore.UpsertCreatesDefault | RulesAsCodeApp/rules-as-code-app/src/lib/store.ts:262-275 | A new record is unapproved, unvalidated and unmodified, with empty input and output, named by the methodology or `Step n`. |
| WizardStore.UpsertConsistent | RulesAsCodeApp/rules-as-code-app/src/lib/store.ts:283-287 | An upsert keeps every record under its own key. |
| WizardStore.AdvancePreservesRecords | RulesAsCodeApp/rules-as-code-app/src/lib/store.ts:336-352 | `nextStep` never alters or removes an existing record. |
| WizardStore.SeedIfAbsent | RulesAsCodeApp/rules-as-code-app/src/lib/store.ts:341-352 | Seeding adds exactly the successor's key, leaves every existing record and the cursor alone, and a newly seeded record is unapproved and carries the methodology's step name. |
| WizardStore.AdvanceStays | RulesAsCodeApp/rules-as-code-app/src/lib/store.ts:314-359 | At the last step, or when the cursor is off the methodology, `nextStep` leaves the state as it was. |
| WizardStore.AdvanceSeeds | RulesAsCodeApp/rules-as-code-app/src/lib/store.ts:336-352 | Otherwise `nextStep` adds exactly the successor's key, and a record it has to create there is unapproved. |
| WizardStore.SeedKeepsEarlierApprovals | RulesAsCodeApp/rules-as-code-app/src/lib/store.ts:341-352 | Seeding the successor does not change whether any step up to the current one is approved. |
| WizardStore.AdvanceMoves | RulesAsCodeApp/rules-as-code-app/src/lib/store.ts:354 | Off the last step, `nextStep` moves the cursor to the successor exactly when every step up to the current one is approved, and otherwise leaves the cursor where it was. |
| WizardStore.AdvanceConsistent | RulesAsCodeApp/rules-as-code-app/src/lib/store.ts:341-352 | `nextStep` keeps every record under its own key. |
| WizardStore.Approve | RulesAsCodeApp/rules-as-code-app/src/lib/store.ts:295-309 | The step ends up approved under its own key. An existing record keeps all its content and only becomes approved; a missing one becomes the default record, approved. Every other record is kept. |
| WizardStore.ApproveAdvances | RulesAsCodeApp/rules-as-code-app/src/lib/store.ts:146-147 | Approving the current step, when every earlier step is approved, moves the cursor to its successor in the methodology. |
| WizardStore.ApproveKeys | RulesAsCodeApp/rules-as-code-app/src/lib/store.ts:295-309 | `nextStep` advances from the cursor, not from the approved step (store.ts:308 then 319-353). Approval adds exactly the approved step's key and the key of the cursor's successor. |
| WizardStore.EffectiveOutput | RulesAsCodeApp/rules-as-code-app/src/lib/store.ts:364-371 | null when the step is missing or unapproved. Otherwise humanOutput when human-modified and present, else llmOutput. |
| WizardStore.ApproveExposesOutput | RulesAsCodeApp/rules-as-code-app/src/lib/store.ts:295-371 | Right after approval, the step's effective output is its chosen output. |
| WizardStore.ApproveConsistent | RulesAsCodeApp/rules-as-code-app/src/lib/store.ts:295-309 | Approval keeps every record under its own key, and the step is approved. |
| WizardStore.ApproveMatchesSpreadOnExisting | RulesAsCodeApp/rules-as-code-app/src/lib/store.ts:298-306 | On an existing record, approval only sets its flag, as the source's spread does. |
| WizardStore.DisplayName | RulesAsCodeApp/rules-as-code-app/src/lib/store.ts:376-385 | The label is `n. ` followed by a name: the record's name when it is non-empty, `Step n` when the record's name is empty, and without a record the methodology's name when it is non-empty, else `Step n`. |
| WizardStore.DisplayNameOfOrderStep | RulesAsCodeApp/rules-as-code-app/src/lib/store.ts:379-384 | A methodology step without a record is labelled with its methodology name. |
| WizardStore.Store.constructor | RulesAsCodeApp/rules-as-code-app/src/lib/store.ts:176-182 | No project, cursor at (1,1), no records. |
| WizardStore.Store.SetProjectId | RulesAsCodeApp/rules-as-code-app/src/lib/store.ts:185 | Only the project id changes. |
| WizardStore.Store.SetProjectName | RulesAsCodeApp/rules-as-code-app/src/lib/store.ts:186 | Only the project name changes. |
| WizardStore.Store.CanNavigateTo | RulesAsCodeApp/rules-as-code-app/src/lib/store.ts:191-207 | The loop's answer is exactly `Navigable`. (1,1) is always reachable. |
| WizardStore.Store.SetCurrentStep | RulesAsCodeApp/rules-as-code-app/src/lib/store.ts:212-216 | The new state is `Navigate` of the old. |
| WizardStore.Store.SetStepsFromDB | RulesAsCodeApp/rules-as-code-app/src/lib/store.ts:221-249 | The new state is `Hydrate` of the old, and records stay under their own keys. |
| WizardStore.Store.SetStepData | RulesAsCodeApp/rules-as-code-app/src/lib/store.ts:254-290 | The new state is `Upsert` of the old, and records stay under their own keys. |
| WizardStore.Store.NextStep | RulesAsCodeApp/rules-as-code-app/src/lib/store.ts:314-359 | The new state is `Advance` of the old, and records stay under their own keys. |
| WizardStore.Store.ApproveStep | RulesAsCodeApp/rules-as-code-app/src/lib/store.ts:295-309 | The new state is `Approve` of the old, and records stay under their own keys. |
| WizardStore.SpreadApprovedOnRecord | RulesAsCodeApp/rules-as-code-app/src/lib/store.ts:298-306 | As written, approving an existing record sets only its flag. |
| WizardStore.SpreadApprovedOnMissing | RulesAsCodeApp/rules-as-code-app/src/lib/store.ts:298-306 | As written, approving a missing record stores `{approved: true}`: no phase, number or project, and not a record. |
| StepDataLoader.ReadPrevious | RulesAsCodeApp/rules-as-code-app/src/components/stages/StepDataLoader.tsx:73-80 | A previous step exists exactly when its record is truthy. Its input, output, content and approved are the record's properties of those names. |
| StepDataLoader.HasTextIff | RulesAsCodeApp/rules-as-code-app/src/components/stages/StepDataLoader.tsx:87 | A string input counts exactly when it holds a non-whitespace character. |
| StepDataLoader.InitialInput | RulesAsCodeApp/rules-as-code-app/src/components/stages/StepDataLoader.tsx:82-92 | With a usable key and a truthy previous output, that output. Else a string input with text. Else "". |
| StepDataLoader.HasLlmContent | RulesAsCodeApp/rules-as-code-app/src/components/stages/StepDataLoader.tsx:94-99 | True exactly when the content is an object whose `result` is an object or an array. |
| StepDataLoader.LoadStepData | RulesAsCodeApp/rules-as-code-app/src/components/stages/StepDataLoader.tsx:50-113 | phase, stepName and content pass through unless undefined, which reads as "", "" and {}. input, output, approved and projectId pass through. Without a usable key there is no previous step; with one, it is read off a truthy record at the key. The initial input follows the previous record's truthy `output`, else the step's own text, else "". |
| StepDataLoader.PreviousOutputBeforeOwnInput | RulesAsCodeApp/rules-as-code-app/src/components/stages/StepDataLoader.tsx:84-92 | With step input "x" and a previous output "y", the initial input is "y": the previous output comes before the step's own input. |
| StepDataLoader.ApprovalNotConsulted | RulesAsCodeApp/rules-as-code-app/src/components/stages/StepDataLoader.tsx:84-86 | The previous record's `approved` flag has no effect on the initial input. |
| StepDataLoader.StoreRecordHasNoOutput | RulesAsCodeApp/rules-as-code-app/src/lib/store.ts:30-49 | A store record has no `output` property. |
| StepDataLoader.PreviousStoreOutputNeverUsed | RulesAsCodeApp/rules-as-code-app/src/components/stages/StepDataLoader.tsx:84-86 | As written, a previous step read from the store never supplies the initial input. |
| StepDataLoader.InitialInputFromStore | RulesAsCodeApp/rules-as-code-app/src/components/stages/StepDataLoader.tsx:84-92 | When the previous step is approved and its chosen output is truthy, the initial input is that output. In every other case, including an approved step with a falsy output, it is the step's own text, else "". |
| StepDataLoader.ApprovedOutputFlowsForward | RulesAsCodeApp/rules-as-code-app/src/lib/store.ts:338-340 | Once a step is approved through the store, the next step starts from its chosen output. |
| ProjectStatus.EntryKey | RulesAsCodeApp/rules-as-code-app/src/components/projects/ProjectStatus.tsx:188 | The key is the phase, a dash, then the step name. |
| ProjectStatus.CreateName | RulesAsCodeApp/rules-as-code-app/src/components/projects/ProjectStatus.tsx:94-104 | Nothing is created exactly when the name is empty or only whitespace. Otherwise the posted name is `Trim` of the name: non-empty, with only whitespace cut from its ends. |
| ProjectStatus.IngestKeys | RulesAsCodeApp/rules-as-code-app/src/components/projects/ProjectStatus.tsx:157-166 | After loading, the keys are the old keys plus one per loaded step. |
| ProjectStatus.IngestLastWins | RulesAsCodeApp/rules-as-code-app/src/components/projects/ProjectStatus.tsx:157-166 | The last loaded step written at a key is the one kept, with missing input and output read as "". |
| ProjectStatus.IngestKeepsOthers | RulesAsCodeApp/rules-as-code-app/src/components/projects/ProjectStatus.tsx:157-166 | Keys that no loaded step writes keep their entries. |
| ProjectStatus.IndexOf | RulesAsCodeApp/rules-as-code-app/src/components/projects/ProjectStatus.tsx:177-179 | The first position of the step, or -1 exactly when it is absent. |
| ProjectStatus.ApprovedIndexes | RulesAsCodeApp/rules-as-code-app/src/components/projects/ProjectStatus.tsx:174-181 | Every collected position lies inside the methodology order. |
| ProjectStatus.ApprovedIndexesExact | RulesAsCodeApp/rules-as-code-app/src/components/projects/ProjectStatus.tsx:174-181 | A position is collected exactly when some approved loaded step sits at it in the methodology order. |
| ProjectStatus.UnrecognizedIgnored | RulesAsCodeApp/rules-as-code-app/src/components/projects/ProjectStatus.tsx:174-181 | An unapproved or unknown loaded step does not change the approved positions. |
| ProjectStatus.Furthest | RulesAsCodeApp/rules-as-code-app/src/components/projects/ProjectStatus.tsx:198 | The maximum is one of the positions and is at least every position. |
| ProjectStatus.TargetIndex | RulesAsCodeApp/rules-as-code-app/src/components/projects/ProjectStatus.tsx:199-200 | The target is furthest+1, or the last step when furthest is last. It never points past the end. |
| ProjectStatus.Filled | RulesAsCodeApp/rules-as-code-app/src/components/projects/ProjectStatus.tsx:207-214 | A backfilled entry is approved, and keeps every field that is not null or undefined. |
| ProjectStatus.BackfillOne | RulesAsCodeApp/rules-as-code-app/src/components/projects/ProjectStatus.tsx:203-215 | One backfill step approves its key and leaves every other key alone. |
| ProjectStatus.BackfillApproves | RulesAsCodeApp/rules-as-code-app/src/components/projects/ProjectStatus.tsx:202-216 | Every backfilled position ends up approved. |
| ProjectStatus.BackfillPreserves | RulesAsCodeApp/rules-as-code-app/src/components/projects/ProjectStatus.tsx:202-216 | Each existing entry is either unchanged or approved with only its null or undefined fields filled in. |
| ProjectStatus.BackfillKeepsOthers | RulesAsCodeApp/rules-as-code-app/src/components/projects/ProjectStatus.tsx:202-216 | Keys the backfill does not reach are unchanged. |
| ProjectStatus.SeedIfMissing | RulesAsCodeApp/rules-as-code-app/src/components/projects/ProjectStatus.tsx:218-222 | An empty unapproved entry is written only when the target has none; an existing entry is never overwritten. |
| ProjectStatus.ResumeTarget | RulesAsCodeApp/rules-as-code-app/src/components/projects/ProjectStatus.tsx:183-200 | The cursor is always a methodology step, and the first step when nothing recognised is approved. With no steps at all it is (Preparation, Segment Text). |
| ProjectStatus.ResumeCursorPastFurthest | RulesAsCodeApp/rules-as-code-app/src/components/projects/ProjectStatus.tsx:198-200 | The cursor lands one past the furthest approved step, or on that step when it is the last. |
| ProjectStatus.BackfillThenSeedApproves | RulesAsCodeApp/rules-as-code-app/src/components/projects/ProjectStatus.tsx:202-222 | Seeding the target after the backfill keeps every backfilled position approved. |
| ProjectStatus.BackfillThenSeedKeeps | RulesAsCodeApp/rules-as-code-app/src/components/projects/ProjectStatus.tsx:202-222 | Backfilling and then seeding the target keeps every existing entry, either unchanged or as its approved, filled-in form. |
| ProjectStatus.ResumeApprovesPrefix | RulesAsCodeApp/rules-as-code-app/src/components/projects/ProjectStatus.tsx:198-225 | After the resume every step up to the furthest approved one is approved, and the target has an entry. |
| ProjectStatus.ResumeKeepsEntries | RulesAsCodeApp/rules-as-code-app/src/components/projects/ProjectStatus.tsx:157-222 | The resume loses no loaded entry. It only approves an entry and fills in null or undefined fields. |
| ProjectStatus.NamedStore.SetStepContent | RulesAsCodeApp/rules-as-code-app/src/components/projects/ProjectStatus.tsx:23-30 | Writes the entry at `${phase}-${stepName}`; nothing else changes. |
| ProjectStatus.NamedStore.SetCurrentStep | RulesAsCodeApp/rules-as-code-app/src/components/projects/ProjectStatus.tsx:22 | Moves the cursor; entries unchanged. |
| ProjectStatus.NamedStore.FallBackToFirstStep | RulesAsCodeApp/rules-as-code-app/src/components/projects/ProjectStatus.tsx:146-151 | A failed fetch, or an error (lines 226-233), puts the cursor on (Preparation, Segment Text) and leaves the entries untouched. |
| ProjectStatus.NamedStore.SeedTarget | RulesAsCodeApp/rules-as-code-app/src/components/projects/ProjectStatus.tsx:188-192 | The entries become `SeedIfMissing` of the old entries. |
| ProjectStatus.NamedStore.Resume | RulesAsCodeApp/rules-as-code-app/src/components/projects/ProjectStatus.tsx:157-225 | The ingest loop and the backfill loop leave exactly `ResumeSteps` of the old entries. The cursor ends on `ResumeTarget`. |

## Left out

- HTTP glue is not modelled: the Flask routes, `request.get_json`, `jsonify`, the `fetch` calls and the project-list effect of ProjectStatus.tsx, and the identity setters `selectProject` calls before its fetch. The model starts from the already-parsed input or the already-fetched step list.
- I/O and side effects are not modelled: `console.log`, `alert`, `print`, pandas, the demo loops, Zustand persistence and `localStorage`.
- `selectProject` can throw part-way through, after some entries are already written. `FallBackToFirstStep` models only the cursor reset, starting from the state at the time of the error.
- Incomes, limits and JavaScript numbers are integers; fractional incomes are not modelled. The `0.9` factor is compared exactly, as `10 * income <= 9 * limit`. Python multiplies in floating point, and its rounding at the very boundary is not modelled.
- A Python key that is present with the value `None` reads as `None`, not as the default. The model treats every `None` field as an absent key.
- Ill-typed values of a present Python key are not modelled: a string age, or a non-boolean flag (Python truthiness).
- `datetime.strptime` parsing and `strftime` formatting are not modelled. `CompletionDate` takes and returns a parsed date.
- JavaScript prototype properties (`"result" in []`, `toString`) are not modelled. Objects are plain maps.
- A patch key that is explicitly set to `undefined` is not modelled; patches are partial records.
- The `setCurrentStep` callback of ProjectStatus.tsx (line 22) takes a phase name and a step name and has no implementation among these sources. `NamedStore.SetCurrentStep` writes the cursor unconditionally, and the cursor promised by `NamedStore.Resume` rests on that assumption. The store's own `setCurrentStep` (store.ts:212-216) takes numbers and moves only where `canNavigateTo` allows; wired to it, a call such as `setCurrentStep("Preparation", "Segment Text")` would be refused.
- The `setStepContent` callback of ProjectStatus.tsx has no implementation among these sources. `NamedStore.SetStepContent` writes the entry at `${phase}-${stepName}`, the key ProjectStatus.tsx itself reads back.
- `NamedStore` assumes a legacy string-keyed store. In it, those `setStepContent` writes and the reads at ProjectStatus.tsx:189, 205 and 219 hit the same map of entries with `content`, `input`, `output` and `approved`. That is not the store of store.ts, which the reads at ProjectStatus.tsx:189, 205 and 219 actually reach (`useWizardStore.getState().steps`). Its records are `DBStep`s, which have no `content` or `output` field (store.ts:30-49), and its keys are `${phase}-${stepNumber}` (store.ts:400-417 asks UI code keyed by `${phase}-${stepName}` to be updated). Against that store every lookup of `${phase}-${stepName}` misses. Each backfilled position would then be written with `{}`, "" and "", approved, and the target always seeded. `ProjectStatus.ResumeKeepsEntries`, `ProjectStatus.BackfillPreserves` and `ProjectStatus.BackfillThenSeedKeeps` hold only under the legacy-store assumption.
- `WizardStore.DisplayName`: `DBStep.stepName` is always a string, as the `DBStep` type requires. A backend row without a name, copied as is by `setStepsFromDB` (store.ts:232), would give an undefined `stepName`. The label would then fall back to the methodology's name (store.ts:379-382), a case the model does not cover.
- The name list `methodology` that ProjectStatus.tsx imports is not among these sources. It is a parameter, `ordered`.
- `Eligibility.Message` maps each reason to the source's Greek message. No lemma states that the messages are distinct.
- Missing input has no reason of its own in `check_eligibility`. A missing marital status gives the default "not eligible" message (Free_Meal/app/eligibility.py:64-65). A missing age that gets compared raises TypeError (Free_Meal/app/eligibility.py:32, 38).
- `approveStep` as written stores `{approved: true}` for a step without a record (see Findings). `WizardStore.Approve` creates the full default record instead.
- `useStepDataLoader` as written reads a previous step's `output` (see Findings). `LoadStepData` keeps the source's behaviour; `InitialInputFromStore` gives the intended one.
- The documentation of `initialInput` (StepDataLoader.tsx:35-40) puts the step's own saved input first and the previous step's output second. The code (StepDataLoader.tsx:84-92), which `LoadStepData` follows, does the reverse. `StepDataLoader.PreviousOutputBeforeOwnInput` shows an input where the two orders differ.
- `SchoolDuration.HealthAddsOneYear`, `SchoolDuration.YearOffsetDecomposes` and `SchoolDuration.PartTimeDoubles` are stated for non-negative semesters and break years. For a negative total, `int()` truncates toward zero and the year does not add on.

## Findings

| source | as written | input that shows it | evidently intended | confidence | as-written member | corrected member |
|---|---|---|---|---|---|---|
| RulesAsCodeApp/rules-as-code-app/src/lib/store.ts:298-306 | `approveStep` writes `{ ...state.steps[key], approved: true }`; with no record at `key` this stores `{approved: true}` | a fresh store and `approveStep(1, 1)`: the record "1-1" has no phase, stepNumber, stepName or projectId | approving a step without a record creates the full record `setStepData` would, approved | medium, not executed | WizardStore.SpreadApprovedOnMissing | WizardStore.Approve |
| RulesAsCodeApp/rules-as-code-app/src/components/stages/StepDataLoader.tsx:84-86 | the initial input follows `previousStep.output`, a property that store records never have (their outputs are `llmOutput` and `humanOutput`) | the store has "1-1" approved with llmOutput "rules"; `useStepDataLoader(step, "1-1")` (ExtractRules.tsx:25) with a step without input starts from "" | follow the previous step's effective approved output, as the comments at StepDataLoader.tsx:85 and store.ts:338-340 say | medium, not executed | StepDataLoader.PreviousStoreOutputNeverUsed | StepDataLoader.InitialInputFromStore |
