/** The record shapes the application stores (types.ts), extended with the
    fields the views read and write although types.ts does not declare them:
    `energyLevel`, `factors` and `isComplete` on a daily entry and
    `isComplete` on a taper step.

    Numbers: doses (mg) and sleep (hours) are kept in tenths, so `lDose == 45`
    means 4.5 mg; every other number the views produce is an integer.
    Optional properties are `Option`s: `None` is an absent property. */
module Model {
  import opened Common
  import opened Dates

  /** A quantity in tenths of its unit (4.5 mg is 45). */
  type Tenths = int

  /** The eight optional blood-pressure properties of an entry. */
  datatype Vitals = Vitals(
    morningSys: Option<int>,
    morningDia: Option<int>,
    morningPulse: Option<int>,
    morningIrregular: Option<bool>,
    nightSys: Option<int>,
    nightDia: Option<int>,
    nightPulse: Option<int>,
    nightIrregular: Option<bool>)

  const NoVitals := Vitals(None, None, None, None, None, None, None, None)

  /** One day's log (`DailyLogEntry`). */
  datatype Entry = Entry(
    date: IsoDate,
    completedItems: map<string, bool>,
    lDose: Tenths,
    bDose: string,
    sleepHrs: Tenths,
    napMinutes: Option<int>,
    energyLevel: Option<int>,
    anxietyLevel: int,
    moodLevel: int,
    depressionLevel: Option<int>,
    brainZapLevel: Option<int>,
    smokingLevel: int,
    vitals: Vitals,
    dailyNote: Option<string>,
    factors: Option<seq<string>>,
    isComplete: Option<bool>)

  /** The rating scales documented in types.ts: anxiety, mood and smoking 1-10,
      depression (when present) 1-10, brain zaps (when present) 0-3. */
  predicate RatingsInRange(e: Entry) {
    && 1 <= e.anxietyLevel <= 10
    && 1 <= e.moodLevel <= 10
    && 1 <= e.smokingLevel <= 10
    && (e.depressionLevel.Some? ==> 1 <= e.depressionLevel.value <= 10)
    && (e.brainZapLevel.Some? ==> 0 <= e.brainZapLevel.value <= 3)
  }

  /** A taper step's dose: a number of mg or a free-text label such as "Below 2.0". */
  datatype Dose = Mg(tenths: Tenths) | Label(text: string)

  datatype TaperStep = TaperStep(
    weeks: string,
    dose: Dose,
    notes: string,
    isCritical: Option<bool>,
    isComplete: Option<bool>)

  /** A slot of the fixed daily medication schedule (`ScheduleItem`). */
  datatype ScheduleItem = ScheduleItem(
    id: string,
    time: string,
    slotLabel: string,  // `label` in the source (a Dafny keyword)
    items: seq<string>,
    notes: seq<string>,
    requiresBP: Option<bool>,
    conditional: Option<bool>)

  /** `UserSettings`: always four properties, `pinCode` may be null. */
  datatype Settings = Settings(
    isPinEnabled: bool,
    pinCode: Option<string>,
    notificationsEnabled: bool,
    notificationTime: string)

  datatype ViewState = Today | Taper | History

  /** The aggregate that is written locally and sent to the backend as one document. */
  datatype AppData = AppData(
    logs: seq<Entry>,
    schedule: seq<TaperStep>,
    startDate: string,
    settings: Settings)
}
