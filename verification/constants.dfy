/** The fixed data of constants.ts: the default taper schedule and the daily
    medication schedule, plus the settings App.tsx starts from. */
module Constants {
  import opened Common
  import opened Model

  const EnDash: char := '\U{2013}'

  function Step(weeks: string, tenths: int, notes: string): TaperStep {
    TaperStep(weeks, Mg(tenths), notes, None, None)
  }

  /** `TAPER_SCHEDULE`: doses in tenths of a mg. */
  const TaperSchedule: seq<TaperStep> := [
    Step("1" + [EnDash] + "2", 50, "Baseline: Ensure you are stable here first."),
    Step("3" + [EnDash] + "4", 45, "~10% reduction. Hold until stable."),
    Step("5" + [EnDash] + "6", 40, "Hold until stable."),
    Step("7" + [EnDash] + "8", 36, "Hold until stable."),
    Step("9" + [EnDash] + "10", 32, "Hold until stable."),
    Step("11" + [EnDash] + "12", 29, "Hold until stable."),
    Step("13" + [EnDash] + "14", 26, "Hold until stable."),
    Step("15" + [EnDash] + "16", 23, "Hold until stable."),
    TaperStep("17" + [EnDash] + "18", Mg(20), "Critical Zone: Reductions feel heavier here.", Some(true), None),
    TaperStep("19+", Label("Below 2.0"), "Reduce by 0.1 mg or 0.2 mg every 2" + [EnDash] + "4 weeks.", None, None)
  ]

  /** `DAILY_SCHEDULE`. */
  const DailySchedule: seq<ScheduleItem> := [
    ScheduleItem("morning_0800", "08:00", "Morning",
      ["Lexapro (current taper dose)", "Benzo (full daily dose)", "Omega 3-6-9", "Vitamin D3", "Vitamin C"],
      ["Take with breakfast and water", "Avoid caffeine spikes", "Do not skip or delay doses"],
      Some(true), None),
    ScheduleItem("midday_1200", "12:00", "Midday",
      ["B-Complex", "Zinc"],
      ["Take every other day", "Normal meals and hydration", "Smoking as usual during SSRI taper"],
      None, None),
    ScheduleItem("afternoon_1500", "15:00", "Afternoon",
      ["L-theanine (low dose)"],
      ["Only if anxiety increases", "Do not stack doses", "Avoid if sedated"],
      None, Some(true)),
    ScheduleItem("evening_2000", "20:00", "Evening",
      ["Magnesium glycinate"],
      ["2" + [EnDash] + "3 hrs before bed", "Avoid alcohol", "Reduce if daytime sedation occurs"],
      None, None),
    ScheduleItem("night_bedtime", "Night", "Bedtime",
      ["Nothing"],
      ["Screens dimmed", "Same bedtime nightly"],
      Some(true), None)
  ]

  /** The settings App.tsx holds before anything is loaded. */
  const DefaultSettings := Settings(false, None, false, "09:00")

  predicate Contains(s: string, c: char) {
    exists i :: 0 <= i < |s| && s[i] == c
  }

  lemma TaperScheduleFacts()
    ensures |TaperSchedule| == 10
    ensures TaperSchedule[0].dose == Mg(50)
    ensures forall i :: 0 <= i < 9 ==> TaperSchedule[i].dose.Mg?
    ensures forall i, j :: 0 <= i < j < 9 ==> TaperSchedule[j].dose.tenths < TaperSchedule[i].dose.tenths
    ensures TaperSchedule[9].dose == Label("Below 2.0")
    ensures forall i :: 0 <= i < 10 ==> (Truthy(TaperSchedule[i].isCritical) <==> i == 8)
    ensures TaperSchedule[8].dose == Mg(20)
  {
  }

  lemma DailyScheduleFacts()
    ensures |DailySchedule| == 5
    ensures forall i, j :: 0 <= i < j < 5 ==> DailySchedule[i].id != DailySchedule[j].id
    ensures [|DailySchedule[0].items|, |DailySchedule[1].items|, |DailySchedule[2].items|, |DailySchedule[3].items|, |DailySchedule[4].items|] == [5, 2, 1, 1, 1]
    ensures forall i :: 0 <= i < 5 ==> !Contains(DailySchedule[i].id, '-')
  {
  }
}
