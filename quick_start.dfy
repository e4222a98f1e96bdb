/**
 * The quick-start checklist: which of the three steps are done, whether the
 * panel is dismissed, and the chosen framework, with the updaters that change
 * one of them and the derived progress figures. Storage writes are left to
 * the caller.
 */
module QuickStart {
  import opened Wrappers

  /** The three checklist steps, in display order. */
  datatype StepId = SetupApp | VerifyData | Explore

  function StepKey(id: StepId): string {
    match id
    case SetupApp => "setup-app"
    case VerifyData => "verify-data"
    case Explore => "explore"
  }

  const STEP_IDS: seq<StepId> := [SetupApp, VerifyData, Explore]

  /** `completedSteps` is a record keyed by any string; keys other than the step keys may be present. */
  datatype QuickStartState = QuickStartState(completedSteps: map<string, bool>, dismissed: bool, selectedFramework: Option<string>)

  const DEFAULT_STATE: QuickStartState := QuickStartState(map[], false, None)

  /** The fields of the stored JSON object; each may be missing. `selectedFramework` may be stored as `null`. */
  datatype StoredQuickStart = StoredQuickStart(
    completedSteps: Option<map<string, bool>>,
    dismissed: Option<bool>,
    selectedFramework: Option<Option<string>>)

  /** `readState`: the stored fields override the defaults one by one; nothing stored gives the defaults. */
  function ReadState(stored: Option<StoredQuickStart>): (r: QuickStartState)
    ensures stored.None? ==> r == DEFAULT_STATE
    ensures stored.Some? ==>
              r.completedSteps == (if stored.value.completedSteps.Some? then stored.value.completedSteps.value else map[]) &&
              r.dismissed == (stored.value.dismissed == Some(true)) &&
              r.selectedFramework == (if stored.value.selectedFramework.Some? then stored.value.selectedFramework.value else None)
  {
    if stored.None? then DEFAULT_STATE
    else
      var s := stored.value;
      QuickStartState(
        if s.completedSteps.Some? then s.completedSteps.value else DEFAULT_STATE.completedSteps,
        if s.dismissed.Some? then s.dismissed.value else DEFAULT_STATE.dismissed,
        if s.selectedFramework.Some? then s.selectedFramework.value else DEFAULT_STATE.selectedFramework)
  }

  function CompleteStep(prev: QuickStartState, id: StepId): QuickStartState {
    prev.(completedSteps := prev.completedSteps[StepKey(id) := true])
  }

  /** `uncompleteStep`: the step's key is removed from the record. */
  function UncompleteStep(prev: QuickStartState, id: StepId): QuickStartState {
    prev.(completedSteps := prev.completedSteps - {StepKey(id)})
  }

  function SetSelectedFramework(prev: QuickStartState, framework: string): QuickStartState {
    prev.(selectedFramework := Some(framework))
  }

  function Dismiss(prev: QuickStartState): QuickStartState {
    prev.(dismissed := true)
  }

  function Undismiss(prev: QuickStartState): QuickStartState {
    prev.(dismissed := false)
  }

  function Reset(): QuickStartState {
    DEFAULT_STATE
  }

  /** `isStepComplete`: the record holds `true` for the step's key. */
  predicate IsStepComplete(s: QuickStartState, id: StepId) {
    StepKey(id) in s.completedSteps && s.completedSteps[StepKey(id)]
  }

  function CountComplete(s: QuickStartState, ids: seq<StepId>): (r: nat)
    ensures r <= |ids|
  {
    if ids == [] then 0
    else CountComplete(s, ids[..|ids| - 1]) + (if IsStepComplete(s, ids[|ids| - 1]) then 1 else 0)
  }

  /** `completedCount`: how many of the three steps are complete. */
  function CompletedCount(s: QuickStartState): (r: nat)
    ensures r <= 3
    ensures r == (if IsStepComplete(s, SetupApp) then 1 else 0) +
                 (if IsStepComplete(s, VerifyData) then 1 else 0) +
                 (if IsStepComplete(s, Explore) then 1 else 0)
  {
    var one, two := [SetupApp], [SetupApp, VerifyData];
    assert one[..0] == [] && two[..1] == one && STEP_IDS[..2] == two;
    assert CountComplete(s, one) == if IsStepComplete(s, SetupApp) then 1 else 0;
    assert CountComplete(s, two) == CountComplete(s, one) + if IsStepComplete(s, VerifyData) then 1 else 0;
    CountComplete(s, STEP_IDS)
  }

  /** `Math.round(x)` for a non-negative `x`: halves round up. */
  function Round(x: real): int {
    (x + 0.5).Floor
  }

  /** `progressPercent`: the share of complete steps as a rounded percentage. */
  function ProgressPercent(s: QuickStartState): (r: int)
    ensures r == 0 || r == 33 || r == 67 || r == 100
    ensures r == 0 <==> CompletedCount(s) == 0
    ensures r == 100 <==> CompletedCount(s) == 3
  {
    var c := CompletedCount(s);
    var r := Round(c as real / 3.0 * 100.0);
    assert c == 0 ==> r == 0;
    assert c == 1 ==> r == 33;
    assert c == 2 ==> r == 67;
    assert c == 3 ==> r == 100;
    r
  }

  predicate IsComplete(s: QuickStartState) {
    CompletedCount(s) == |STEP_IDS|
  }

  // ---------------------------------------------------------------------
  // Properties
  // ---------------------------------------------------------------------

  /** Completing a step marks it complete, keeps every other key and field, and is idempotent. */
  lemma CompleteStepSets(prev: QuickStartState, id: StepId)
    ensures var r := CompleteStep(prev, id);
            IsStepComplete(r, id) && r.dismissed == prev.dismissed && r.selectedFramework == prev.selectedFramework &&
            (forall k :: k != StepKey(id) ==> (k in r.completedSteps <==> k in prev.completedSteps)) &&
            (forall k :: k != StepKey(id) && k in prev.completedSteps ==> r.completedSteps[k] == prev.completedSteps[k]) &&
            CompleteStep(r, id) == r
  {
  }

  /** Uncompleting a step removes only its key. */
  lemma UncompleteStepRemoves(prev: QuickStartState, id: StepId)
    ensures var r := UncompleteStep(prev, id);
            !IsStepComplete(r, id) && StepKey(id) !in r.completedSteps &&
            r.dismissed == prev.dismissed && r.selectedFramework == prev.selectedFramework &&
            (forall k :: k != StepKey(id) ==> (k in r.completedSteps <==> k in prev.completedSteps)) &&
            (forall k :: k != StepKey(id) && k in prev.completedSteps ==> r.completedSteps[k] == prev.completedSteps[k])
  {
  }

  lemma StepKeysDistinct()
    ensures forall a: StepId, b: StepId :: a != b ==> StepKey(a) != StepKey(b)
  {
    assert StepKey(SetupApp)[0] == 's' && StepKey(VerifyData)[0] == 'v' && StepKey(Explore)[0] == 'e';
  }

  /** Keys of the record other than the three step keys do not count. */
  lemma OtherKeysIgnored(s: QuickStartState, k: string, b: bool)
    requires forall id: StepId :: k != StepKey(id)
    ensures CompletedCount(s.(completedSteps := s.completedSteps[k := b])) == CompletedCount(s)
  {
    var t := s.(completedSteps := s.completedSteps[k := b]);
    assert k != StepKey(SetupApp) && k != StepKey(VerifyData) && k != StepKey(Explore);
    assert IsStepComplete(t, SetupApp) == IsStepComplete(s, SetupApp);
    assert IsStepComplete(t, VerifyData) == IsStepComplete(s, VerifyData);
    assert IsStepComplete(t, Explore) == IsStepComplete(s, Explore);
  }

  /** Completing a step that was not complete adds one to the count; uncompleting a complete one takes one away. */
  lemma CountMoves(s: QuickStartState, id: StepId)
    ensures !IsStepComplete(s, id) ==> CompletedCount(CompleteStep(s, id)) == CompletedCount(s) + 1
    ensures IsStepComplete(s, id) ==> CompletedCount(UncompleteStep(s, id)) == CompletedCount(s) - 1
  {
    StepKeysDistinct();
    var c := CompleteStep(s, id);
    var u := UncompleteStep(s, id);
    forall other: StepId | other != id
      ensures IsStepComplete(c, other) == IsStepComplete(s, other) && IsStepComplete(u, other) == IsStepComplete(s, other)
    {
      assert StepKey(other) != StepKey(id);
    }
  }

  /** The checklist is complete exactly when all three steps are. */
  lemma IsCompleteIff(s: QuickStartState)
    ensures IsComplete(s) <==> IsStepComplete(s, SetupApp) && IsStepComplete(s, VerifyData) && IsStepComplete(s, Explore)
  {
  }

  /** Reset gives the default state: no steps, not dismissed, no framework, so zero progress. */
  lemma ResetIsDefault()
    ensures Reset() == QuickStartState(map[], false, None)
    ensures CompletedCount(Reset()) == 0 && ProgressPercent(Reset()) == 0 && !IsComplete(Reset())
  {
  }

  /** Dismissing and undismissing touch only the flag, and undo each other. */
  lemma DismissOnlyFlag(s: QuickStartState)
    ensures Dismiss(s).dismissed && Dismiss(s).completedSteps == s.completedSteps &&
            Dismiss(s).selectedFramework == s.selectedFramework
    ensures !Undismiss(s).dismissed && Undismiss(s).completedSteps == s.completedSteps &&
            Undismiss(s).selectedFramework == s.selectedFramework
    ensures Undismiss(Dismiss(s)) == s.(dismissed := false) && Dismiss(Undismiss(s)) == s.(dismissed := true)
  {
  }
}
