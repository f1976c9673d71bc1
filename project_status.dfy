/**
 * The project lifecycle logic of
 * RulesAsCodeApp/rules-as-code-app/src/components/projects/ProjectStatus.tsx:
 * the blank-name guard of `submitCreate`, and what `selectProject` does
 * once the saved steps of a project have been fetched. It loads them into
 * the store, finds the furthest approved step of the ordered methodology,
 * backfills approvals up to it and puts the cursor one past it.
 *
 * `selectProject` drives a store through two callbacks, `setStepContent`
 * and `setCurrentStep`, keyed by phase and step *name*. That store is the
 * class `NamedStore` below, with entries keyed by `${phase}-${stepName}`.
 * The ordered methodology is a parameter: a sequence of (phase, stepName).
 */
module ProjectStatus {
  import opened Wrappers
  import opened JsValues
  import opened JsText

  /** A saved step as the server returns it. */
  datatype LoadedStep = LoadedStep(phase: string, stepName: string, content: JsValue,
                                   input: JsValue, output: JsValue, approved: bool)

  /** What `setStepContent` keeps for one step. */
  datatype Entry = Entry(content: JsValue, input: JsValue, output: JsValue, approved: bool)

  /** A step of the ordered methodology, (phase, stepName). */
  type Place = (string, string)

  const FirstPlace: Place := ("Preparation", "Segment Text")

  /** The store key `${phase}-${stepName}`. */
  function EntryKey(phase: string, stepName: string): (r: string)
    ensures |r| == |phase| + 1 + |stepName| && r[|phase|] == '-'
    ensures r[..|phase|] == phase && r[|phase| + 1..] == stepName
  {
    phase + "-" + stepName
  }

  function PlaceKey(p: Place): string {
    EntryKey(p.0, p.1)
  }

  /* ---------------- submitCreate ---------------- */

  /**
   * The name `submitCreate` posts: nothing for an empty or whitespace-only
   * name, otherwise the trimmed name.
   */
  function CreateName(newName: string): (r: Option<string>)
    ensures r.None? <==> AllWhitespace(newName)
    ensures r.Some? ==> |r.value| > 0 && !IsJsWhitespace(r.value[0]) && !IsJsWhitespace(r.value[|r.value| - 1])
    ensures r.Some? ==> r.value == Trim(newName) && exists k :: TrimmedAt(r.value, newName, k)
  {
    TrimNonEmptyIff(newName);
    var trimmed := Trim(newName);
    if |trimmed| == 0 then None else Some(trimmed)
  }

  /* ---------------- Loading the saved steps ---------------- */

  /** The entry `setStepContent` receives for a saved step: missing input/output become "". */
  function LoadedEntry(s: LoadedStep): Entry {
    Entry(s.content, Coalesce(s.input, Str("")), Coalesce(s.output, Str("")), s.approved)
  }

  /** The store after every saved step has been written, in order. */
  function Ingest(steps: map<string, Entry>, loaded: seq<LoadedStep>): map<string, Entry> {
    if |loaded| == 0 then steps
    else
      var last := loaded[|loaded| - 1];
      Ingest(steps, loaded[..|loaded| - 1])[EntryKey(last.phase, last.stepName) := LoadedEntry(last)]
  }

  /** Loading adds one key per saved step and removes none. */
  lemma {:induction false} IngestKeys(steps: map<string, Entry>, loaded: seq<LoadedStep>)
    ensures Ingest(steps, loaded).Keys == steps.Keys + set s | s in loaded :: EntryKey(s.phase, s.stepName)
  {
    if |loaded| > 0 {
      var prefix := loaded[..|loaded| - 1];
      IngestKeys(steps, prefix);
      assert loaded == prefix + [loaded[|loaded| - 1]];
    }
  }

  /** The last saved step written at a key is the one the store keeps. */
  lemma {:induction false} IngestLastWins(steps: map<string, Entry>, loaded: seq<LoadedStep>, k: nat)
    requires k < |loaded|
    requires forall j :: k < j < |loaded| ==>
               EntryKey(loaded[j].phase, loaded[j].stepName) != EntryKey(loaded[k].phase, loaded[k].stepName)
    ensures EntryKey(loaded[k].phase, loaded[k].stepName) in Ingest(steps, loaded)
    ensures Ingest(steps, loaded)[EntryKey(loaded[k].phase, loaded[k].stepName)] == LoadedEntry(loaded[k])
    decreases |loaded|
  {
    if k < |loaded| - 1 {
      var prefix := loaded[..|loaded| - 1];
      assert forall j :: k < j < |prefix| ==> prefix[j] == loaded[j];
      IngestLastWins(steps, prefix, k);
      assert prefix[k] == loaded[k];
    }
  }

  /** Keys no saved step writes keep their entries. */
  lemma {:induction false} IngestKeepsOthers(steps: map<string, Entry>, loaded: seq<LoadedStep>, key: string)
    requires key in steps
    requires forall j :: 0 <= j < |loaded| ==> EntryKey(loaded[j].phase, loaded[j].stepName) != key
    ensures key in Ingest(steps, loaded) && Ingest(steps, loaded)[key] == steps[key]
    decreases |loaded|
  {
    if |loaded| > 0 {
      IngestKeepsOthers(steps, loaded[..|loaded| - 1], key);
    }
  }

  /* ---------------- Positions in the ordered methodology ---------------- */

  /** `orderedSteps.findIndex(...)`: the first position of (phase, stepName), or -1. */
  function IndexOf(ordered: seq<Place>, phase: string, stepName: string): (r: int)
    ensures -1 <= r < |ordered|
    ensures r >= 0 ==> ordered[r] == (phase, stepName) && forall j :: 0 <= j < r ==> ordered[j] != (phase, stepName)
    ensures r == -1 <==> (phase, stepName) !in ordered
  {
    if |ordered| == 0 then -1
    else if ordered[0] == (phase, stepName) then 0
    else
      var rest := IndexOf(ordered[1..], phase, stepName);
      if rest == -1 then -1 else rest + 1
  }

  /** The approved saved steps that are part of the methodology, as their positions. */
  predicate Recognized(ordered: seq<Place>, s: LoadedStep) {
    s.approved && IndexOf(ordered, s.phase, s.stepName) >= 0
  }

  /** `approvedIndexes`: approved saved steps, mapped to positions, unknown steps dropped. */
  function ApprovedIndexes(loaded: seq<LoadedStep>, ordered: seq<Place>): (r: seq<nat>)
    ensures forall i :: 0 <= i < |r| ==> r[i] < |ordered|
  {
    if |loaded| == 0 then []
    else
      var last := loaded[|loaded| - 1];
      var before := ApprovedIndexes(loaded[..|loaded| - 1], ordered);
      if Recognized(ordered, last) then before + [IndexOf(ordered, last.phase, last.stepName) as nat] else before
  }

  /** Position `x` is that of some recognised approved saved step. */
  predicate FromApprovedStep(loaded: seq<LoadedStep>, ordered: seq<Place>, x: int) {
    exists k :: 0 <= k < |loaded| && Recognized(ordered, loaded[k]) && IndexOf(ordered, loaded[k].phase, loaded[k].stepName) == x
  }

  /** The approved positions are exactly those of the recognised approved saved steps. */
  lemma {:induction false} ApprovedIndexesExact(loaded: seq<LoadedStep>, ordered: seq<Place>)
    ensures forall k :: 0 <= k < |loaded| && Recognized(ordered, loaded[k]) ==>
              IndexOf(ordered, loaded[k].phase, loaded[k].stepName) in ApprovedIndexes(loaded, ordered)
    ensures forall i :: 0 <= i < |ApprovedIndexes(loaded, ordered)| ==>
              FromApprovedStep(loaded, ordered, ApprovedIndexes(loaded, ordered)[i])
  {
    if |loaded| > 0 {
      var prefix := loaded[..|loaded| - 1];
      var last := loaded[|loaded| - 1];
      var before := ApprovedIndexes(prefix, ordered);
      var r := ApprovedIndexes(loaded, ordered);
      ApprovedIndexesExact(prefix, ordered);
      assert forall k :: 0 <= k < |prefix| ==> prefix[k] == loaded[k];
      assert r == if Recognized(ordered, last) then before + [IndexOf(ordered, last.phase, last.stepName) as nat] else before;
      forall k | 0 <= k < |loaded| && Recognized(ordered, loaded[k])
        ensures IndexOf(ordered, loaded[k].phase, loaded[k].stepName) in r
      {
        if k < |prefix| {
          assert prefix[k] == loaded[k];
          assert forall x :: x in before ==> x in r;
        }
      }
      forall i | 0 <= i < |r|
        ensures FromApprovedStep(loaded, ordered, r[i])
      {
        if i < |before| {
          assert FromApprovedStep(prefix, ordered, before[i]);
          var k :| 0 <= k < |prefix| && Recognized(ordered, prefix[k])
                   && IndexOf(ordered, prefix[k].phase, prefix[k].stepName) == before[i];
          assert loaded[k] == prefix[k];
        } else {
          assert loaded[|loaded| - 1] == last;
          assert r[i] == IndexOf(ordered, last.phase, last.stepName);
        }
      }
    }
  }

  /** A saved step that is unapproved or unknown to the methodology does not move the cursor. */
  lemma UnrecognizedIgnored(loaded: seq<LoadedStep>, ordered: seq<Place>, extra: LoadedStep)
    requires !Recognized(ordered, extra)
    ensures ApprovedIndexes(loaded + [extra], ordered) == ApprovedIndexes(loaded, ordered)
  {
    assert (loaded + [extra])[..|loaded|] == loaded;
  }

  /** `Math.max(...approvedIndexes)`. */
  function Furthest(indexes: seq<nat>): (r: nat)
    requires |indexes| > 0
    ensures r in indexes
    ensures forall i :: 0 <= i < |indexes| ==> indexes[i] <= r
  {
    if |indexes| == 1 then indexes[0]
    else
      var rest := Furthest(indexes[1..]);
      assert forall i :: 1 <= i < |indexes| ==> indexes[i] == indexes[1..][i - 1];
      if indexes[0] >= rest then indexes[0] else rest
  }

  /** `Math.min(furthestIdx + 1, orderedSteps.length - 1)`. */
  function TargetIndex(furthest: nat, n: nat): (r: nat)
    requires furthest < n
    ensures r < n
    ensures furthest + 1 < n ==> r == furthest + 1
    ensures furthest + 1 == n ==> r == furthest
  {
    if furthest + 1 <= n - 1 then furthest + 1 else n - 1
  }

  /* ---------------- Backfill ---------------- */

  /** The entry the backfill writes: approved, with null or undefined fields filled with defaults. */
  function Filled(e: Entry): (r: Entry)
    ensures r.approved
    ensures !Nullish(e.content) ==> r.content == e.content
    ensures !Nullish(e.input) ==> r.input == e.input
    ensures !Nullish(e.output) ==> r.output == e.output
  {
    Entry(Coalesce(e.content, EmptyObject), Coalesce(e.input, Str("")), Coalesce(e.output, Str("")), true)
  }

  /** The backfill of one position: rewrite the entry approved unless it already is. */
  function BackfillOne(steps: map<string, Entry>, p: Place): (r: map<string, Entry>)
    ensures r.Keys == steps.Keys + {PlaceKey(p)}
    ensures r[PlaceKey(p)].approved
    ensures forall key :: key in steps && key != PlaceKey(p) ==> r[key] == steps[key]
  {
    var key := PlaceKey(p);
    if key in steps && steps[key].approved then steps
    else if key in steps then steps[key := Filled(steps[key])]
    else steps[key := Filled(Entry(Undefined, Undefined, Undefined, false))]
  }

  /** The store after the backfill of positions 0 .. upto-1. */
  function Backfill(steps: map<string, Entry>, ordered: seq<Place>, upto: nat): map<string, Entry>
    requires upto <= |ordered|
  {
    if upto == 0 then steps else BackfillOne(Backfill(steps, ordered, upto - 1), ordered[upto - 1])
  }

  /** Every backfilled position ends up approved. */
  lemma {:induction false} BackfillApproves(steps: map<string, Entry>, ordered: seq<Place>, upto: nat)
    requires upto <= |ordered|
    ensures forall i :: 0 <= i < upto ==>
              PlaceKey(ordered[i]) in Backfill(steps, ordered, upto) && Backfill(steps, ordered, upto)[PlaceKey(ordered[i])].approved
  {
    if upto > 0 {
      BackfillApproves(steps, ordered, upto - 1);
    }
  }

  /**
   * The backfill leaves an entry as it was or only approves it and fills in its
   * null or undefined fields: content, input and output are otherwise kept.
   */
  lemma {:induction false} BackfillPreserves(steps: map<string, Entry>, ordered: seq<Place>, upto: nat, key: string)
    requires upto <= |ordered| && key in steps
    ensures key in Backfill(steps, ordered, upto)
    ensures Backfill(steps, ordered, upto)[key] in {steps[key], Filled(steps[key])}
  {
    if upto > 0 {
      BackfillPreserves(steps, ordered, upto - 1, key);
    }
  }

  /** Keys the backfill does not reach keep their entries. */
  lemma {:induction false} BackfillKeepsOthers(steps: map<string, Entry>, ordered: seq<Place>, upto: nat, key: string)
    requires upto <= |ordered| && key in steps
    requires forall i :: 0 <= i < upto ==> PlaceKey(ordered[i]) != key
    ensures key in Backfill(steps, ordered, upto) && Backfill(steps, ordered, upto)[key] == steps[key]
  {
    if upto > 0 {
      BackfillKeepsOthers(steps, ordered, upto - 1, key);
    }
  }

  /** The default record for the target: written only when the target has none. */
  function SeedIfMissing(steps: map<string, Entry>, p: Place): (r: map<string, Entry>)
    ensures PlaceKey(p) in steps ==> r == steps
    ensures PlaceKey(p) !in steps ==> r == steps[PlaceKey(p) := Entry(EmptyObject, Str(""), Str(""), false)]
  {
    if PlaceKey(p) in steps then steps else steps[PlaceKey(p) := Entry(EmptyObject, Str(""), Str(""), false)]
  }

  /* ---------------- The whole resume ---------------- */

  /** Where the cursor goes once `loaded` has been read. */
  function ResumeTarget(loaded: seq<LoadedStep>, ordered: seq<Place>): (r: Place)
    ensures |ordered| > 0 ==> r in ordered
    ensures |ordered| == 0 ==> r == FirstPlace
    ensures |ApprovedIndexes(loaded, ordered)| == 0 && |ordered| > 0 ==> r == ordered[0]
  {
    var indexes := ApprovedIndexes(loaded, ordered);
    if |indexes| == 0 then (if |ordered| > 0 then ordered[0] else FirstPlace)
    else ordered[TargetIndex(Furthest(indexes), |ordered|)]
  }

  /** The store once `selectProject` has loaded, backfilled and seeded. */
  function ResumeSteps(steps: map<string, Entry>, loaded: seq<LoadedStep>, ordered: seq<Place>): map<string, Entry> {
    var ingested := Ingest(steps, loaded);
    var indexes := ApprovedIndexes(loaded, ordered);
    if |indexes| == 0 then SeedIfMissing(ingested, ResumeTarget(loaded, ordered))
    else SeedIfMissing(Backfill(ingested, ordered, Furthest(indexes) + 1), ResumeTarget(loaded, ordered))
  }

  /** The cursor lands just past the furthest approved step, or on it when it is the last one. */
  lemma ResumeCursorPastFurthest(loaded: seq<LoadedStep>, ordered: seq<Place>)
    requires |ApprovedIndexes(loaded, ordered)| > 0
    ensures var furthest := Furthest(ApprovedIndexes(loaded, ordered));
            ResumeTarget(loaded, ordered) == ordered[if furthest + 1 < |ordered| then furthest + 1 else furthest]
  {
  }

  /** Backfilling positions 0 .. furthest and then seeding any target leaves those positions approved. */
  lemma {:induction false} BackfillThenSeedApproves(ingested: map<string, Entry>, ordered: seq<Place>, furthest: nat, target: Place)
    requires furthest < |ordered|
    ensures forall i :: 0 <= i <= furthest ==>
              PlaceKey(ordered[i]) in SeedIfMissing(Backfill(ingested, ordered, furthest + 1), target)
              && SeedIfMissing(Backfill(ingested, ordered, furthest + 1), target)[PlaceKey(ordered[i])].approved
  {
    BackfillApproves(ingested, ordered, furthest + 1);
  }

  /** Seeding the target after the backfill keeps what the backfill made of an existing entry. */
  lemma {:induction false} BackfillThenSeedKeeps(ingested: map<string, Entry>, ordered: seq<Place>, upto: nat,
                                                 target: Place, key: string)
    requires upto <= |ordered| && key in ingested
    ensures key in SeedIfMissing(Backfill(ingested, ordered, upto), target)
    ensures SeedIfMissing(Backfill(ingested, ordered, upto), target)[key] in {ingested[key], Filled(ingested[key])}
  {
    BackfillPreserves(ingested, ordered, upto, key);
  }

  /**
   * After the resume every step up to the furthest approved one is approved,
   * and the target step has an entry.
   */
  lemma ResumeApprovesPrefix(steps: map<string, Entry>, loaded: seq<LoadedStep>, ordered: seq<Place>)
    requires |ApprovedIndexes(loaded, ordered)| > 0
    ensures forall i :: 0 <= i <= Furthest(ApprovedIndexes(loaded, ordered)) ==>
              PlaceKey(ordered[i]) in ResumeSteps(steps, loaded, ordered)
              && ResumeSteps(steps, loaded, ordered)[PlaceKey(ordered[i])].approved
    ensures PlaceKey(ResumeTarget(loaded, ordered)) in ResumeSteps(steps, loaded, ordered)
  {
    var indexes := ApprovedIndexes(loaded, ordered);
    var furthest := Furthest(indexes);
    assert furthest < |ordered|;
    BackfillThenSeedApproves(Ingest(steps, loaded), ordered, furthest, ResumeTarget(loaded, ordered));
  }

  /**
   * The resume never loses a loaded entry and never changes a field of it that
   * is set: it can only approve the entry and fill in null or undefined fields.
   */
  lemma ResumeKeepsEntries(steps: map<string, Entry>, loaded: seq<LoadedStep>, ordered: seq<Place>, key: string)
    requires key in Ingest(steps, loaded)
    ensures key in ResumeSteps(steps, loaded, ordered)
    ensures ResumeSteps(steps, loaded, ordered)[key] in {Ingest(steps, loaded)[key], Filled(Ingest(steps, loaded)[key])}
  {
    var indexes := ApprovedIndexes(loaded, ordered);
    if |indexes| > 0 {
      var furthest := Furthest(indexes);
      assert furthest < |ordered|;
      BackfillThenSeedKeeps(Ingest(steps, loaded), ordered, furthest + 1, ResumeTarget(loaded, ordered), key);
    }
  }

  /* ---------------- The store selectProject drives ---------------- */

  class NamedStore {
    var steps: map<string, Entry>
    var cursor: Place

    constructor ()
      ensures steps == map[] && cursor == FirstPlace
    {
      steps := map[];
      cursor := FirstPlace;
    }

    /** `setStepContent(phase, stepName, content, input, output, approved)`. */
    method SetStepContent(phase: string, stepName: string, content: JsValue, input: JsValue, output: JsValue, approved: bool)
      modifies this
      ensures steps == old(steps)[EntryKey(phase, stepName) := Entry(content, input, output, approved)]
      ensures cursor == old(cursor)
    {
      steps := steps[EntryKey(phase, stepName) := Entry(content, input, output, approved)];
    }

    /** `setCurrentStep(phase, stepName)`. */
    method SetCurrentStep(phase: string, stepName: string)
      modifies this
      ensures cursor == (phase, stepName) && steps == old(steps)
    {
      cursor := (phase, stepName);
    }

    /** A failed fetch or a thrown error: back to the first step, entries untouched. */
    method FallBackToFirstStep()
      modifies this
      ensures cursor == FirstPlace && steps == old(steps)
    {
      SetCurrentStep(FirstPlace.0, FirstPlace.1);
    }

    /** Writes the default record for `p` unless the store already has one. */
    method SeedTarget(p: Place)
      modifies this
      ensures steps == SeedIfMissing(old(steps), p) && cursor == old(cursor)
    {
      if PlaceKey(p) !in steps {
        SetStepContent(p.0, p.1, EmptyObject, Str(""), Str(""), false);
      }
    }

    /** `selectProject` from the fetched step list onwards. */
    method Resume(loaded: seq<LoadedStep>, ordered: seq<Place>)
      modifies this
      ensures steps == ResumeSteps(old(steps), loaded, ordered)
      ensures cursor == ResumeTarget(loaded, ordered)
    {
      for i := 0 to |loaded|
        invariant steps == Ingest(old(steps), loaded[..i])
      {
        var s := loaded[i];
        assert loaded[..i + 1][..i] == loaded[..i];
        SetStepContent(s.phase, s.stepName, s.content, Coalesce(s.input, Str("")), Coalesce(s.output, Str("")), s.approved);
      }
      assert loaded[..|loaded|] == loaded;
      ghost var ingested := steps;

      var indexes := ApprovedIndexes(loaded, ordered);
      if |indexes| == 0 {
        var target := if |ordered| > 0 then ordered[0] else FirstPlace;
        SeedTarget(target);
        SetCurrentStep(target.0, target.1);
        return;
      }

      var furthest := Furthest(indexes);
      var target := ordered[TargetIndex(furthest, |ordered|)];
      for i := 0 to furthest + 1
        invariant steps == Backfill(ingested, ordered, i)
      {
        var (phase, stepName) := ordered[i];
        var key := EntryKey(phase, stepName);
        if key !in steps || !steps[key].approved {
          var existing := if key in steps then steps[key] else Entry(Undefined, Undefined, Undefined, false);
          SetStepContent(phase, stepName, Coalesce(existing.content, EmptyObject),
                         Coalesce(existing.input, Str("")), Coalesce(existing.output, Str("")), true);
        }
      }
      SeedTarget(target);
      SetCurrentStep(target.0, target.1);
    }
  }
}
