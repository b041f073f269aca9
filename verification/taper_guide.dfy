/** The protocol view's list operations (components/TaperGuide.tsx): editing a
    field of a step, appending a step, deleting a step, resetting to the
    default protocol, and the "Weeks" label shown for a step. */
module TaperGuide {
  import opened Common
  import opened Model
  import opened Constants

  /** The fields `handleStepChange` is called with. The dose input hands back
      the text typed (`e.target.value`), so an edited dose is a `Label`. */
  datatype StepField =
    | Weeks(text: string)
    | DoseField(dose: Dose)
    | Notes(text: string)
    | Critical(flag: bool)
    | Complete(flag: bool)

  function SetStepField(s: TaperStep, f: StepField): TaperStep {
    match f
    case Weeks(v) => s.(weeks := v)
    case DoseField(v) => s.(dose := v)
    case Notes(v) => s.(notes := v)
    case Critical(v) => s.(isCritical := Some(v))
    case Complete(v) => s.(isComplete := Some(v))
  }

  /** `handleStepChange`: one field of one step changes. */
  function StepChange(schedule: seq<TaperStep>, index: nat, f: StepField): (r: seq<TaperStep>)
    requires index < |schedule|
    ensures |r| == |schedule|
    ensures forall j :: 0 <= j < |r| && j != index ==> r[j] == schedule[j]
    ensures r[index] == SetStepField(schedule[index], f)
  {
    schedule[index := SetStepField(schedule[index], f)]
  }

  /** Only the named field of the step changes: reading any other field of the
      edited step gives the old value. */
  lemma StepChangeFrame(schedule: seq<TaperStep>, index: nat, f: StepField)
    requires index < |schedule|
    ensures var s, t := schedule[index], StepChange(schedule, index, f)[index];
      && (!f.Weeks? ==> t.weeks == s.weeks)
      && (!f.DoseField? ==> t.dose == s.dose)
      && (!f.Notes? ==> t.notes == s.notes)
      && (!f.Critical? ==> t.isCritical == s.isCritical)
      && (!f.Complete? ==> t.isComplete == s.isComplete)
  {
  }

  /** The completion checkmark of a step (line 254). */
  function ToggleStepComplete(schedule: seq<TaperStep>, index: nat): (r: seq<TaperStep>)
    requires index < |schedule|
    ensures |r| == |schedule|
    ensures Truthy(r[index].isComplete) <==> !Truthy(schedule[index].isComplete)
    ensures forall j :: 0 <= j < |r| && j != index ==> r[j] == schedule[j]
    ensures r[index].(isComplete := None) == schedule[index].(isComplete := None)
  {
    StepChange(schedule, index, Complete(!Truthy(schedule[index].isComplete)))
  }

  /** Checking and unchecking a step restores it, provided its flag was stored
      (an absent flag comes back as an explicit `false`). */
  lemma ToggleStepCompleteTwice(schedule: seq<TaperStep>, index: nat)
    requires index < |schedule|
    ensures var twice := ToggleStepComplete(ToggleStepComplete(schedule, index), index);
      && twice[index].isComplete == Some(Truthy(schedule[index].isComplete))
      && (schedule[index].isComplete.Some? ==> twice == schedule)
  {
    var once := ToggleStepComplete(schedule, index);
    var twice := ToggleStepComplete(once, index);
    assert once[index] == schedule[index].(isComplete := Some(!Truthy(schedule[index].isComplete)));
    assert twice[index] == schedule[index].(isComplete := Some(Truthy(schedule[index].isComplete)));
    if schedule[index].isComplete.Some? {
      if schedule[index].isComplete.value {
        assert schedule[index].isComplete == Some(true);
      } else {
        assert schedule[index].isComplete == Some(false);
      }
      assert twice[index] == schedule[index];
    }
  }

  const NewStep := TaperStep("New Phase", Mg(0), "Add notes here...", None, None)

  /** `handleAddStep`. */
  function AddStep(schedule: seq<TaperStep>): (r: seq<TaperStep>)
    ensures |r| == |schedule| + 1
    ensures r[..|schedule|] == schedule
    ensures r[|schedule|].weeks == "New Phase" && r[|schedule|].dose == Mg(0)
    ensures r[|schedule|].notes == "Add notes here..."
  {
    schedule + [NewStep]
  }

  /** `handleDeleteStep`: `filter((_, i) => i !== index)`. */
  function DeleteStep(schedule: seq<TaperStep>, index: int): (r: seq<TaperStep>)
    ensures 0 <= index < |schedule| ==> |r| == |schedule| - 1
    ensures !(0 <= index < |schedule|) ==> r == schedule
    decreases |schedule|
  {
    if |schedule| == 0 then []
    else DeleteStep(schedule[..|schedule| - 1], index) + (if index == |schedule| - 1 then [] else [schedule[|schedule| - 1]])
  }

  /** Deleting removes exactly the one position and keeps the others in order. */
  lemma {:induction false} DeleteStepSplices(schedule: seq<TaperStep>, index: int)
    requires 0 <= index < |schedule|
    ensures DeleteStep(schedule, index) == schedule[..index] + schedule[index + 1..]
    decreases |schedule|
  {
    var n := |schedule|;
    var init := schedule[..n - 1];
    if index == n - 1 {
      assert DeleteStep(init, index) == init;
      assert schedule[index + 1..] == [];
    } else {
      DeleteStepSplices(init, index);
      assert init[..index] == schedule[..index];
      assert init[index + 1..] + [schedule[n - 1]] == schedule[index + 1..];
    }
  }

  /** Appending a step and deleting the last position gives the schedule back. */
  lemma AddThenDeleteLast(schedule: seq<TaperStep>)
    ensures DeleteStep(AddStep(schedule), |schedule|) == schedule
  {
    DeleteStepSplices(AddStep(schedule), |schedule|);
    assert AddStep(schedule)[..|schedule|] == schedule;
  }

  /** A confirmed `handleReset`: the default schedule and no start date. */
  function Reset(): (r: (seq<TaperStep>, string))
    ensures r.0 == TaperSchedule && r.1 == ""
  {
    (TaperSchedule, "")
  }

  /** The label shown for a step (line 230). */
  function WeekLabel(weeks: string): (r: string)
    ensures StartsWith(Lower(r), "week")
    ensures StartsWith(Lower(weeks), "week") ==> r == weeks
    ensures !StartsWith(Lower(weeks), "week") ==> r == "Weeks " + weeks
  {
    if StartsWith(Lower(weeks), "week") then weeks
    else
      assert Lower("Weeks " + weeks)[..4] == "week";
      "Weeks " + weeks
  }

  /** `toLowerCase` maps the KELVIN SIGN to 'k', so a label spelled with it
      is already a week label and is shown as typed. */
  lemma KelvinSignLabel()
    ensures WeekLabel("WEE\U{212A} 2") == "WEE\U{212A} 2"
  {
    assert Lower("WEE\U{212A} 2")[..4] == "week";
  }

  /** Relabelling a label changes nothing. */
  lemma WeekLabelIdempotent(weeks: string)
    ensures WeekLabel(WeekLabel(weeks)) == WeekLabel(weeks)
  {
  }
}
