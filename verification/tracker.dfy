/** The daily view's editing logic (components/DailyTracker.tsx): the form
    entry shown for a date, the edits it allows (ticking an item, changing a
    field, toggling a lifestyle factor, completing the day), the edit lock of a
    completed day, the time-of-day slot, and the adherence percentage.

    Every edit yields the new form and the entry handed to `onUpdateLog`
    (`None` when the handler returns early and nothing is sent). */
module Tracker {
  import opened Common
  import opened Dates
  import opened Model
  import opened Constants

  // ---------------------------------------------------------------------------
  // Time-of-day slot

  /** The hours at which the current slot advances (11:00, 14:00, 17:00, 21:00). */
  const SlotBoundaries: seq<int> := [11, 14, 17, 21]

  /** How many of `bounds` are at or below `hour`. */
  function CountReached(bounds: seq<int>, hour: int): (n: nat)
    ensures n <= |bounds|
  {
    if |bounds| == 0 then 0
    else (if bounds[0] <= hour then 1 else 0) + CountReached(bounds[1..], hour)
  }

  lemma {:induction false} CountReachedMonotone(bounds: seq<int>, h1: int, h2: int)
    requires h1 <= h2
    ensures CountReached(bounds, h1) <= CountReached(bounds, h2)
    decreases |bounds|
  {
    if |bounds| > 0 {
      CountReachedMonotone(bounds[1..], h1, h2);
    }
  }

  /** Index into the daily schedule of the slot that `getCurrentPeriodId` picks
      for `hour`: the number of boundaries the hour has reached. */
  function PeriodIndex(hour: int): (i: nat)
    ensures i < |DailySchedule|
    ensures i == CountReached(SlotBoundaries, hour)
  {
    CountBoundaries(hour);
    if hour < 11 then 0
    else if hour < 14 then 1
    else if hour < 17 then 2
    else if hour < 21 then 3
    else 4
  }

  lemma CountBoundaries(hour: int)
    ensures CountReached(SlotBoundaries, hour) ==
      (if 11 <= hour then 1 else 0) + (if 14 <= hour then 1 else 0) + (if 17 <= hour then 1 else 0) + (if 21 <= hour then 1 else 0)
  {
    var b := SlotBoundaries;
    assert b[1..] == [14, 17, 21] && b[1..][1..] == [17, 21] && b[1..][1..][1..] == [21];
    assert b[1..][1..][1..][1..] == [];
    assert CountReached([21], hour) == (if 21 <= hour then 1 else 0);
    assert CountReached([17, 21], hour) == (if 17 <= hour then 1 else 0) + CountReached([21], hour);
    assert CountReached([14, 17, 21], hour) == (if 14 <= hour then 1 else 0) + CountReached([17, 21], hour);
  }

  /** `getCurrentPeriodId`: the id of the slot the hour falls in. */
  function CurrentPeriodId(hour: int): (id: string)
    ensures exists i :: 0 <= i < |DailySchedule| && DailySchedule[i].id == id
  {
    DailySchedule[PeriodIndex(hour)].id
  }

  /** A later hour never selects an earlier slot. */
  lemma PeriodMonotone(h1: int, h2: int)
    requires h1 <= h2
    ensures PeriodIndex(h1) <= PeriodIndex(h2)
  {
    CountReachedMonotone(SlotBoundaries, h1, h2);
  }

  /** Every slot of the daily schedule is selected by some hour of the day. */
  lemma EverySlotIsCurrentAtSomeHour(i: nat)
    requires i < |DailySchedule|
    ensures exists h :: 0 <= h < 24 && CurrentPeriodId(h) == DailySchedule[i].id
  {
    var h := [8, 12, 15, 20, 23][i];
    assert CurrentPeriodId(h) == DailySchedule[i].id;
  }

  // ---------------------------------------------------------------------------
  // The form entry

  /** The blank form for a date with nothing to show. */
  function DefaultEntry(d: IsoDate): (e: Entry)
    ensures e.date == d && RatingsInRange(e)
    ensures Mg(e.lDose) == TaperSchedule[0].dose
    ensures e.completedItems == map[] && e.factors == Some([]) && e.isComplete == Some(false)
    ensures e.bDose == "" && e.sleepHrs == 70 && e.napMinutes == Some(0)
    ensures e.energyLevel == Some(5) && e.anxietyLevel == 5 && e.moodLevel == 5 && e.smokingLevel == 5
    ensures e.depressionLevel == Some(1) && e.brainZapLevel == Some(0)
    ensures e.dailyNote == Some("") && e.vitals == NoVitals
  {
    Entry(d, map[], 50, "", 70, Some(0), Some(5), 5, 5, Some(1), Some(0), 5, NoVitals, Some(""), Some([]), Some(false))
  }

  /** The form fields the view treats as optional, filled with their defaults
      (`?? default`) while present values are kept. Vitals are taken from `log`
      as they are. */
  function FillDefaults(log: Entry): (e: Entry)
    ensures e.date == log.date && e.completedItems == log.completedItems
    ensures e.lDose == log.lDose && e.bDose == log.bDose && e.sleepHrs == log.sleepHrs
    ensures e.anxietyLevel == log.anxietyLevel && e.moodLevel == log.moodLevel
    ensures e.smokingLevel == log.smokingLevel && e.vitals == log.vitals
    ensures e.napMinutes == Some(log.napMinutes.GetOr(0))
    ensures e.energyLevel == Some(log.energyLevel.GetOr(5))
    ensures e.depressionLevel == Some(log.depressionLevel.GetOr(1))
    ensures e.brainZapLevel == Some(log.brainZapLevel.GetOr(0))
    ensures e.factors == Some(log.factors.GetOr([]))
    ensures e.dailyNote == Some(log.dailyNote.GetOr(""))
    ensures e.isComplete == Some(log.isComplete.GetOr(false))
  {
    log.(
      napMinutes := Some(log.napMinutes.GetOr(0)),
      energyLevel := Some(log.energyLevel.GetOr(5)),
      depressionLevel := Some(log.depressionLevel.GetOr(1)),
      brainZapLevel := Some(log.brainZapLevel.GetOr(0)),
      factors := Some(log.factors.GetOr([])),
      dailyNote := Some(log.dailyNote.GetOr("")),
      isComplete := Some(log.isComplete.GetOr(false)))
  }

  /** Every optional form field the view edits is present. */
  predicate Normalised(e: Entry) {
    && e.napMinutes.Some? && e.energyLevel.Some? && e.depressionLevel.Some?
    && e.brainZapLevel.Some? && e.factors.Some? && e.dailyNote.Some? && e.isComplete.Some?
  }

  /** The form for `logData`, as the effect at lines 101-134 is evidently meant
      to compute it: the default entry when there is no log data, otherwise the
      log data with defaults filled in. */
  function FormFor(logData: Option<Entry>, currentDate: IsoDate): (e: Entry)
    ensures Normalised(e)
    ensures logData.None? ==> e == DefaultEntry(currentDate)
    ensures logData.Some? ==> e == FillDefaults(logData.value)
  {
    match logData
    case None => DefaultEntry(currentDate)
    case Some(log) => FillDefaults(log)
  }

  /** Filling defaults keeps an already complete form as it is. */
  lemma FillDefaultsIdempotent(e: Entry)
    requires Normalised(e)
    ensures FillDefaults(e) == e
  {
  }

  /** The effect AS WRITTEN: `{ ...prev, ...logData, <defaults> }`. Properties
      absent from `logData` keep the value of the previous form; among the
      fields the defaults do not cover are the eight blood-pressure readings. */
  function FormForAsWritten(prev: Entry, logData: Option<Entry>, currentDate: IsoDate): (e: Entry)
    ensures logData.Some? ==> e.vitals == MergeVitals(prev.vitals, logData.value.vitals)
    ensures logData.None? ==> e == DefaultEntry(currentDate)
  {
    match logData
    case None => DefaultEntry(currentDate)
    case Some(log) => FillDefaults(log.(vitals := MergeVitals(prev.vitals, log.vitals)))
  }

  function Override<T>(prev: Option<T>, next: Option<T>): Option<T> {
    if next.Some? then next else prev
  }

  /** Object spread of the blood-pressure properties: present ones of `next` win. */
  function MergeVitals(prev: Vitals, next: Vitals): Vitals {
    Vitals(
      Override(prev.morningSys, next.morningSys), Override(prev.morningDia, next.morningDia),
      Override(prev.morningPulse, next.morningPulse), Override(prev.morningIrregular, next.morningIrregular),
      Override(prev.nightSys, next.nightSys), Override(prev.nightDia, next.nightDia),
      Override(prev.nightPulse, next.nightPulse), Override(prev.nightIrregular, next.nightIrregular))
  }

  /** The discrepancy: after a day with a morning systolic reading of 120, the
      form of a later day that has no reading (here, its carried-forward entry)
      still shows 120, and the next edit sends it for the new date. */
  lemma FormForAsWrittenLeaksVitals(prev: Entry, log: Entry)
    requires prev.vitals == NoVitals.(morningSys := Some(120))
    requires log.vitals == NoVitals && log.date != prev.date && !Truthy(log.isComplete)
    ensures FormForAsWritten(prev, Some(log), log.date).vitals.morningSys == Some(120)
    ensures FormFor(Some(log), log.date).vitals.morningSys == None
    ensures HandleChange(FormForAsWritten(prev, Some(log), log.date), Note("x")).sent.Some?
    ensures HandleChange(FormForAsWritten(prev, Some(log), log.date), Note("x")).sent.value.vitals.morningSys == Some(120)
  {
  }

  /** When the previous form had no readings, there is nothing to leak and the
      two agree. */
  lemma FormForAgreesWithoutStaleVitals(prev: Entry, logData: Option<Entry>, currentDate: IsoDate)
    requires prev.vitals == NoVitals
    ensures FormForAsWritten(prev, logData, currentDate) == FormFor(logData, currentDate)
  {
  }

  // ---------------------------------------------------------------------------
  // Edits

  /** The form after an edit, and the entry handed to `onUpdateLog`, if any. */
  datatype Edit = Edit(form: Entry, sent: Option<Entry>)

  /** The fields `handleChange` is called with. */
  datatype Field =
    | LDose(tenths: Tenths)
    | BDose(text: string)
    | SleepHrs(tenths: Tenths)
    | NapMinutes(minutes: int)
    | Energy(level: int)
    | Anxiety(level: int)
    | Mood(level: int)
    | Depression(level: int)
    | BrainZap(level: int)
    | Smoking(level: int)
    | BpMorningSys(n: int)
    | BpMorningDia(n: int)
    | BpMorningPulse(n: int)
    | BpNightSys(n: int)
    | BpNightDia(n: int)
    | BpNightPulse(n: int)
    | Note(text: string)
    | Factors(ids: seq<string>)

  /** Writes one field; every other property of the entry is kept. */
  function SetField(e: Entry, f: Field): Entry {
    match f
    case LDose(v) => e.(lDose := v)
    case BDose(v) => e.(bDose := v)
    case SleepHrs(v) => e.(sleepHrs := v)
    case NapMinutes(v) => e.(napMinutes := Some(v))
    case Energy(v) => e.(energyLevel := Some(v))
    case Anxiety(v) => e.(anxietyLevel := v)
    case Mood(v) => e.(moodLevel := v)
    case Depression(v) => e.(depressionLevel := Some(v))
    case BrainZap(v) => e.(brainZapLevel := Some(v))
    case Smoking(v) => e.(smokingLevel := v)
    case BpMorningSys(v) => e.(vitals := e.vitals.(morningSys := Some(v)))
    case BpMorningDia(v) => e.(vitals := e.vitals.(morningDia := Some(v)))
    case BpMorningPulse(v) => e.(vitals := e.vitals.(morningPulse := Some(v)))
    case BpNightSys(v) => e.(vitals := e.vitals.(nightSys := Some(v)))
    case BpNightDia(v) => e.(vitals := e.vitals.(nightDia := Some(v)))
    case BpNightPulse(v) => e.(vitals := e.vitals.(nightPulse := Some(v)))
    case Note(v) => e.(dailyNote := Some(v))
    case Factors(v) => e.(factors := Some(v))
  }

  /** The fields the edit lock protects: everything except the completion flag. */
  predicate SameExceptCompletion(a: Entry, b: Entry) {
    a.(isComplete := None) == b.(isComplete := None)
  }

  /** `handleChange`: on a completed day nothing happens; otherwise one field
      changes and the updated entry is handed on. */
  function HandleChange(form: Entry, f: Field): (r: Edit)
    ensures Truthy(form.isComplete) ==> r == Edit(form, None)
    ensures !Truthy(form.isComplete) ==> r.sent == Some(r.form)
    ensures !Truthy(form.isComplete) ==>
      r.form.date == form.date && r.form.completedItems == form.completedItems && r.form.isComplete == form.isComplete
  {
    if Truthy(form.isComplete) then Edit(form, None)
    else var updated := SetField(form, f); Edit(updated, Some(updated))
  }

  /** The value a field holds, whatever its type. */
  datatype Value = Number(n: Option<int>) | Text(t: Option<string>) | Ids(ids: Option<seq<string>>)

  /** The value of the field `f` names in `e` (the payload of `f` is ignored). */
  function Get(e: Entry, f: Field): Value {
    match f
    case LDose(_) => Number(Some(e.lDose))
    case BDose(_) => Text(Some(e.bDose))
    case SleepHrs(_) => Number(Some(e.sleepHrs))
    case NapMinutes(_) => Number(e.napMinutes)
    case Energy(_) => Number(e.energyLevel)
    case Anxiety(_) => Number(Some(e.anxietyLevel))
    case Mood(_) => Number(Some(e.moodLevel))
    case Depression(_) => Number(e.depressionLevel)
    case BrainZap(_) => Number(e.brainZapLevel)
    case Smoking(_) => Number(Some(e.smokingLevel))
    case BpMorningSys(_) => Number(e.vitals.morningSys)
    case BpMorningDia(_) => Number(e.vitals.morningDia)
    case BpMorningPulse(_) => Number(e.vitals.morningPulse)
    case BpNightSys(_) => Number(e.vitals.nightSys)
    case BpNightDia(_) => Number(e.vitals.nightDia)
    case BpNightPulse(_) => Number(e.vitals.nightPulse)
    case Note(_) => Text(e.dailyNote)
    case Factors(_) => Ids(e.factors)
  }

  /** The value a field edit writes. */
  function Written(f: Field): Value {
    match f
    case LDose(v) => Number(Some(v))
    case BDose(v) => Text(Some(v))
    case SleepHrs(v) => Number(Some(v))
    case NapMinutes(v) => Number(Some(v))
    case Energy(v) => Number(Some(v))
    case Anxiety(v) => Number(Some(v))
    case Mood(v) => Number(Some(v))
    case Depression(v) => Number(Some(v))
    case BrainZap(v) => Number(Some(v))
    case Smoking(v) => Number(Some(v))
    case BpMorningSys(v) => Number(Some(v))
    case BpMorningDia(v) => Number(Some(v))
    case BpMorningPulse(v) => Number(Some(v))
    case BpNightSys(v) => Number(Some(v))
    case BpNightDia(v) => Number(Some(v))
    case BpNightPulse(v) => Number(Some(v))
    case Note(v) => Text(Some(v))
    case Factors(v) => Ids(Some(v))
  }

  /** Which of the entry's fields an edit names. */
  function Slot(f: Field): nat {
    match f
    case LDose(_) => 0
    case BDose(_) => 1
    case SleepHrs(_) => 2
    case NapMinutes(_) => 3
    case Energy(_) => 4
    case Anxiety(_) => 5
    case Mood(_) => 6
    case Depression(_) => 7
    case BrainZap(_) => 8
    case Smoking(_) => 9
    case BpMorningSys(_) => 10
    case BpMorningDia(_) => 11
    case BpMorningPulse(_) => 12
    case BpNightSys(_) => 13
    case BpNightDia(_) => 14
    case BpNightPulse(_) => 15
    case Note(_) => 16
    case Factors(_) => 17
  }

  /** A field change touches only that field: the named field reads the value
      written, a field named by any other edit reads as before, and the date,
      ticked items and completion flag are kept. */
  lemma HandleChangeOnlyThatField(form: Entry, f: Field, g: Field)
    requires !Truthy(form.isComplete)
    ensures Get(HandleChange(form, f).form, f) == Written(f)
    ensures Slot(g) != Slot(f) ==> Get(HandleChange(form, f).form, g) == Get(form, g)
  {
  }

  /** The key under which an item of a slot is ticked. */
  function CompletionKey(slotId: string, item: string): string {
    slotId + "-" + item
  }

  /** `handleToggleItem`: flips one key (a missing key counts as unticked). */
  function ToggleItem(form: Entry, slotId: string, item: string): (r: Edit)
    ensures Truthy(form.isComplete) ==> r == Edit(form, None)
    ensures !Truthy(form.isComplete) ==>
      var key := CompletionKey(slotId, item);
      && r.sent == Some(r.form)
      && r.form == form.(completedItems := r.form.completedItems)
      && r.form.completedItems.Keys == form.completedItems.Keys + {key}
      && r.form.completedItems[key] == !(key in form.completedItems && form.completedItems[key])
      && forall k :: k in form.completedItems && k != key ==> r.form.completedItems[k] == form.completedItems[k]
  {
    if Truthy(form.isComplete) then Edit(form, None)
    else
      var key := CompletionKey(slotId, item);
      var ticked := key in form.completedItems && form.completedItems[key];
      var updated := form.(completedItems := form.completedItems[key := !ticked]);
      Edit(updated, Some(updated))
  }

  /** Ticking an item twice leaves it ticked exactly as it was read before. */
  lemma ToggleItemTwice(form: Entry, slotId: string, item: string)
    requires !Truthy(form.isComplete)
    ensures var k := CompletionKey(slotId, item);
      var again := ToggleItem(ToggleItem(form, slotId, item).form, slotId, item).form;
      && again.completedItems[k] == (k in form.completedItems && form.completedItems[k])
      && (k in form.completedItems ==> again == form)
  {
    var k := CompletionKey(slotId, item);
    var again := ToggleItem(ToggleItem(form, slotId, item).form, slotId, item).form;
    if k in form.completedItems {
      assert again.completedItems == form.completedItems;
    }
  }

  function Remove(s: seq<string>, x: string): (r: seq<string>)
    ensures x !in r
    ensures forall y :: y != x ==> (y in r <==> y in s)
  {
    if |s| == 0 then []
    else if s[0] == x then Remove(s[1..], x)
    else [s[0]] + Remove(s[1..], x)
  }

  /** `toggleFactor`: removes every occurrence of the id when present, appends it otherwise. */
  function ToggleFactor(form: Entry, id: string): (r: Edit)
    ensures Truthy(form.isComplete) ==> r == Edit(form, None)
    ensures !Truthy(form.isComplete) ==>
      && r.sent == Some(r.form)
      && r.form == form.(factors := r.form.factors)
      && r.form.factors.Some?
      && (id in r.form.factors.value <==> id !in form.factors.GetOr([]))
      && forall x :: x != id ==> (x in r.form.factors.value <==> x in form.factors.GetOr([]))
  {
    var current := form.factors.GetOr([]);
    var next := if id in current then Remove(current, id) else current + [id];
    HandleChange(form, Factors(next))
  }

  /** Toggling a factor twice restores whether each factor is selected. */
  lemma ToggleFactorTwice(form: Entry, id: string, x: string)
    requires !Truthy(form.isComplete)
    ensures x in ToggleFactor(ToggleFactor(form, id).form, id).form.factors.value <==> x in form.factors.GetOr([])
  {
  }

  /** `toggleCompleteDay`: the one edit also allowed on a completed day. */
  function ToggleComplete(form: Entry): (r: Edit)
    ensures r.sent == Some(r.form)
    ensures SameExceptCompletion(r.form, form)
    ensures Truthy(r.form.isComplete) <==> !Truthy(form.isComplete)
  {
    var updated := form.(isComplete := Some(!Truthy(form.isComplete)));
    Edit(updated, Some(updated))
  }

  /** On a normalised form, completing and reopening the day restores it. */
  lemma ToggleCompleteTwice(form: Entry)
    requires form.isComplete.Some?
    ensures ToggleComplete(ToggleComplete(form).form).form == form
  {
    var once := ToggleComplete(form).form;
    assert once.isComplete == Some(!form.isComplete.value);
    assert ToggleComplete(once).form.isComplete == form.isComplete;
  }

  /** While the day is complete, no other edit changes the form or sends anything. */
  lemma CompletedDayIsLocked(form: Entry, f: Field, slotId: string, item: string, id: string)
    requires Truthy(form.isComplete)
    ensures HandleChange(form, f) == Edit(form, None)
    ensures ToggleItem(form, slotId, item) == Edit(form, None)
    ensures ToggleFactor(form, id) == Edit(form, None)
    ensures ToggleComplete(form).sent.Some?
  {
  }

  // ---------------------------------------------------------------------------
  // Adherence

  /** The completion keys of a list of slots, slot by slot, item by item. */
  function KeysOf(slots: seq<ScheduleItem>): (keys: seq<string>)
  {
    if |slots| == 0 then []
    else KeysOf(slots[..|slots| - 1]) + SlotKeys(slots[|slots| - 1].id, slots[|slots| - 1].items)
  }

  function SlotKeys(id: string, items: seq<string>): (keys: seq<string>)
    ensures |keys| == |items|
    ensures forall i :: 0 <= i < |items| ==> keys[i] == CompletionKey(id, items[i])
  {
    if |items| == 0 then [] else [CompletionKey(id, items[0])] + SlotKeys(id, items[1..])
  }

  predicate Ticked(m: map<string, bool>, key: string) {
    key in m && m[key]
  }

  /** How many of `keys` are ticked in `m`. */
  function CountTicked(keys: seq<string>, m: map<string, bool>): (n: nat)
    ensures n <= |keys|
    ensures n == |keys| <==> forall i :: 0 <= i < |keys| ==> Ticked(m, keys[i])
  {
    if |keys| == 0 then 0
    else (if Ticked(m, keys[0]) then 1 else 0) + CountTicked(keys[1..], m)
  }

  /** `Math.round(completed / total * 100)`: halves round up. */
  function RoundedPercent(completed: nat, total: nat): (p: int)
    requires 0 < total && completed <= total
    ensures 0 <= p <= 100
    ensures 2 * total * p <= 200 * completed + total < 2 * total * (p + 1)
  {
    var a, d := 200 * completed + total, 2 * total;
    FloorDivision(a, d);
    CancelFactor(d, a / d, 101);
    a / d
  }

  lemma CancelFactor(d: int, q: int, r: int)
    requires 0 < d && d * q < d * r
    ensures q < r
  {
    assert d * q - d * r == d * (q - r);
  }

  /** Dafny's division of a non-negative number rounds down. */
  lemma FloorDivision(a: int, d: int)
    requires 0 <= a && 0 < d
    ensures 0 <= a / d && d * (a / d) <= a < d * (a / d + 1)
  {
  }

  lemma ScheduleKeyCount()
    ensures |KeysOf(DailySchedule)| == 10
  {
    DailyScheduleFacts();
    TenKeys(DailySchedule);
  }

  /** Five slots holding five, two, one, one and one items have ten keys. */
  lemma TenKeys(s: seq<ScheduleItem>)
    requires |s| == 5
    requires [|s[0].items|, |s[1].items|, |s[2].items|, |s[3].items|, |s[4].items|] == [5, 2, 1, 1, 1]
    ensures |KeysOf(s)| == 10
  {
    assert s[..1][..0] == s[..0] && s[..2][..1] == s[..1] && s[..3][..2] == s[..2];
    assert s[..4][..3] == s[..3] && s[..5][..4] == s[..4] && s[..5] == s;
    assert |KeysOf(s[..1])| == 5;
    assert |KeysOf(s[..2])| == 7;
    assert |KeysOf(s[..3])| == 8;
    assert |KeysOf(s[..4])| == 9;
  }

  /** `getProgress`: the share of scheduled items ticked, in whole percent:
      the ten items of the day, rounded half up, so three ticked are 30. */
  function Progress(m: map<string, bool>): (p: int)
    ensures 0 <= p <= 100
    ensures 20 * p <= 200 * CountTicked(KeysOf(DailySchedule), m) + 10 < 20 * (p + 1)
    ensures p == 100 <==> forall k :: k in KeysOf(DailySchedule) ==> Ticked(m, k)
    ensures p == 0 <==> forall k :: k in KeysOf(DailySchedule) ==> !Ticked(m, k)
  {
    var keys := KeysOf(DailySchedule);
    ScheduleKeyCount();
    PercentOfTen(keys, m);
    RoundedPercent(CountTicked(keys, m), |keys|)
  }

  /** Out of ten keys, the rounded percentage is full only when all are ticked
      and zero only when none is. */
  lemma PercentOfTen(keys: seq<string>, m: map<string, bool>)
    requires |keys| == 10
    ensures var p := RoundedPercent(CountTicked(keys, m), |keys|);
      && 20 * p <= 200 * CountTicked(keys, m) + 10 < 20 * (p + 1)
      && (p == 100 <==> forall k :: k in keys ==> Ticked(m, k))
      && (p == 0 <==> forall k :: k in keys ==> !Ticked(m, k))
  {
    ZeroTickedMeansNone(keys, m);
  }

  /** Counting over two lists of keys in turn adds up. */
  lemma {:induction false} CountTickedAppend(a: seq<string>, b: seq<string>, m: map<string, bool>)
    ensures CountTicked(a + b, m) == CountTicked(a, m) + CountTicked(b, m)
    decreases |a|
  {
    if |a| > 0 {
      CountTickedAppend(a[1..], b, m);
      assert (a + b)[1..] == a[1..] + b;
    } else {
      assert a + b == b;
    }
  }

  /** With exactly three of the day's items ticked, progress shows 30 percent. */
  lemma ThreeTickedIsThirty(m: map<string, bool>)
    requires CountTicked(KeysOf(DailySchedule), m) == 3
    ensures Progress(m) == 30
  {
  }

  lemma {:induction false} ZeroTickedMeansNone(keys: seq<string>, m: map<string, bool>)
    ensures CountTicked(keys, m) == 0 <==> forall i :: 0 <= i < |keys| ==> !Ticked(m, keys[i])
    decreases |keys|
  {
    if |keys| > 0 {
      ZeroTickedMeansNone(keys[1..], m);
      assert forall i :: 1 <= i < |keys| ==> keys[i] == keys[1..][i - 1];
    }
  }

  lemma {:induction false} CountTickedOnlyReadsKeys(keys: seq<string>, m1: map<string, bool>, m2: map<string, bool>)
    requires forall i :: 0 <= i < |keys| ==> (Ticked(m1, keys[i]) <==> Ticked(m2, keys[i]))
    ensures CountTicked(keys, m1) == CountTicked(keys, m2)
    decreases |keys|
  {
    if |keys| > 0 {
      CountTickedOnlyReadsKeys(keys[1..], m1, m2);
    }
  }

  /** Keys that are not scheduled (left over from an edited schedule, say) do not affect progress. */
  lemma ProgressIgnoresOtherKeys(m1: map<string, bool>, m2: map<string, bool>)
    requires forall k :: k in KeysOf(DailySchedule) ==> (Ticked(m1, k) <==> Ticked(m2, k))
    ensures Progress(m1) == Progress(m2)
  {
    CountTickedOnlyReadsKeys(KeysOf(DailySchedule), m1, m2);
  }

  /** Completion keys identify their slot and item, because no slot id contains '-'. */
  lemma {:induction false} CompletionKeyInjective(s1: string, i1: string, s2: string, i2: string)
    requires !Contains(s1, '-') && !Contains(s2, '-')
    requires CompletionKey(s1, i1) == CompletionKey(s2, i2)
    ensures s1 == s2 && i1 == i2
  {
    var k := CompletionKey(s1, i1);
    assert k[|s1|] == '-' && k[|s2|] == '-';
    assert s1 == k[..|s1|] == s2;
    assert i1 == k[|s1| + 1..] == i2;
  }
}
