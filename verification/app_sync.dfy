/** The application controller of App.tsx: how the four persisted values
    (logs, protocol, start date, settings) are assembled at start-up from the
    device store and the cloud copy, whether the app starts locked, and the
    save effect that writes every change to the device at once and to the
    cloud after 2000 ms without a further change.

    Time is an explicit millisecond clock advanced by `Elapse`; the outcome of
    a cloud save arrives as a separate `SaveResult` event, in any order and
    possibly while other saves are still outstanding, as nothing in the
    source serialises them. */
module AppSync {
  import opened Common
  import opened Model
  import opened Constants
  import LogStore
  import TaperGuide
  import SettingsForm

  // ---------------------------------------------------------------------------
  // Start-up

  /** A set of stored values, each of which may be missing: the device store
      (`localStorage`) or the document `api.loadData` returns. */
  datatype Partial = Partial(
    logs: Option<seq<Entry>>,
    schedule: Option<seq<TaperStep>>,
    startDate: Option<string>,
    settings: Option<Settings>)

  /** The values the app holds before anything is loaded. */
  const Initial := AppData([], TaperSchedule, "", DefaultSettings)

  /** Each present value replaces the current one; a start date counts as
      present only when it is a non-empty string (`if (localStart)`,
      `if (cloudData.startDate)`). */
  function Overlay(base: AppData, p: Partial): (r: AppData)
    ensures r.logs == (if p.logs.Some? then p.logs.value else base.logs)
    ensures r.schedule == (if p.schedule.Some? then p.schedule.value else base.schedule)
    ensures r.startDate == (if NonEmpty(p.startDate) then p.startDate.value else base.startDate)
    ensures r.settings == (if p.settings.Some? then p.settings.value else base.settings)
  {
    AppData(
      p.logs.GetOr(base.logs),
      p.schedule.GetOr(base.schedule),
      if NonEmpty(p.startDate) then p.startDate.value else base.startDate,
      p.settings.GetOr(base.settings))
  }

  /** Overlaying nothing changes nothing. */
  lemma OverlayNothing(base: AppData)
    ensures Overlay(base, Partial(None, None, None, None)) == base
  {
  }

  /** A later overlay wins over an earlier one, field by field. */
  lemma OverlayLaterWins(base: AppData, first: Partial, second: Partial)
    ensures var r := Overlay(Overlay(base, first), second);
      && (second.logs.Some? ==> r.logs == second.logs.value)
      && (second.logs.None? ==> r.logs == Overlay(base, first).logs)
      && (second.settings.Some? ==> r.settings == second.settings.value)
      && (second.settings.None? ==> r.settings == Overlay(base, first).settings)
  {
  }

  datatype Status = Idle | Syncing | Error | Success

  /** The outcome of `initializeApp`, before the save effect runs. */
  datatype Loaded = Loaded(data: AppData, locked: bool, status: Status)

  /** The lock is decided on the device's settings alone (or the defaults
      when none are stored), before the cloud copy arrives. */
  function Load(local: Partial, cloud: Option<Partial>): (r: Loaded)
    ensures r.locked <==> var s := local.settings.GetOr(DefaultSettings); s.isPinEnabled && NonEmpty(s.pinCode)
    ensures r.status == Success <==> cloud.Some?
    ensures r.status != Success ==> r.status == Idle
    ensures cloud.None? ==> r.data == Overlay(Initial, local)
    ensures cloud.Some? ==> r.data == Overlay(Overlay(Initial, local), cloud.value)
  {
    var parsed := local.settings.GetOr(DefaultSettings);
    var locked := !(!parsed.isPinEnabled || !NonEmpty(parsed.pinCode));
    match cloud
    case None => Loaded(Overlay(Initial, local), locked, Idle)
    case Some(c) => Loaded(Overlay(Overlay(Initial, local), c), locked, Success)
  }

  /** The PIN screen is shown only while locked with the lock enabled and a code set. */
  predicate ShowPinScreen(locked: bool, s: Settings) {
    locked && s.isPinEnabled && NonEmpty(s.pinCode)
  }

  /** With cloud settings that switch the lock off, the app shows no PIN screen
      even though it started locked. */
  lemma CloudSettingsCanHideLock(local: Partial, cloud: Partial)
    requires local.settings == Some(Settings(true, Some("1234"), false, "09:00"))
    requires cloud.settings == Some(DefaultSettings)
    ensures Load(local, Some(cloud)).locked
    ensures !ShowPinScreen(Load(local, Some(cloud)).locked, Load(local, Some(cloud)).data.settings)
  {
  }

  // ---------------------------------------------------------------------------
  // The save effect as a state machine

  /** A pending `setTimeout`: when it fires and the values it captured. */
  datatype Timer = Timer(deadline: int, snapshot: AppData)

  /** React re-runs the save effect only when one of its dependencies is a
      different value by `Object.is`, so the machine tracks the two places
      where the same object can be handed back: the schedule may still be the
      `TAPER_SCHEDULE` constant itself, and the dialog's `formData` may still
      be the very settings object the app holds. */
  datatype Machine = Machine(
    data: AppData,             // the four values in React state
    stored: Option<AppData>,   // the device store
    now: int,                  // milliseconds
    timer: Option<Timer>,      // `saveTimeoutRef.current`: at most one pending
    inFlight: nat,             // cloud saves started and not yet answered
    sent: seq<AppData>,        // every document handed to `api.saveData`, in order
    status: Status,
    locked: bool,
    defaultSchedule: bool,     // the schedule held is the `TAPER_SCHEDULE` constant
    form: SettingsForm.Form,   // the settings dialog's `formData` and `newPin`
    formEdited: bool)          // `formData` is an object the app does not hold

  const Debounce := 2000

  /** The effect body: write the device store, show "syncing", and replace any
      pending timer by one that saves the current values `Debounce` ms from now. */
  function SaveEffect(m: Machine): (r: Machine)
    ensures r.stored == Some(m.data) && r.status == Syncing
    ensures r.timer == Some(Timer(m.now + Debounce, m.data))
    ensures r.data == m.data && r.sent == m.sent && r.inFlight == m.inFlight
    ensures r.now == m.now && r.locked == m.locked
    ensures r.defaultSchedule == m.defaultSchedule && r.form == m.form && r.formEdited == m.formEdited
  {
    m.(stored := Some(m.data), status := Syncing, timer := Some(Timer(m.now + Debounce, m.data)))
  }

  /** The settings dialog is part of the main screen, which the PIN screen
      replaces. */
  predicate DialogShown(m: Machine) {
    !ShowPinScreen(m.locked, m.data.settings)
  }

  /** The app once loaded: the effect runs at once, because `isLoaded` changed.
      The schedule is still the constant when neither store held one, and the
      dialog, first rendered now, holds the loaded settings object. */
  function Start(local: Partial, cloud: Option<Partial>, now: int): (m: Machine)
    ensures m.data == Load(local, cloud).data && m.locked == Load(local, cloud).locked
    ensures m.status == Syncing && m.stored == Some(m.data) && m.sent == []
    ensures m.timer == Some(Timer(now + Debounce, m.data))
    ensures m.defaultSchedule <==> local.schedule.None? && (cloud.None? || cloud.value.schedule.None?)
    ensures m.form == SettingsForm.Open(m.data.settings) && !m.formEdited
  {
    var l := Load(local, cloud);
    var untouched := local.schedule.None? && (cloud.None? || cloud.value.schedule.None?);
    SaveEffect(Machine(l.data, None, now, None, 0, [], l.status, l.locked,
                       untouched, SettingsForm.Open(l.data.settings), false))
  }

  /** The state changes the views can make. */
  datatype Change =
    | UpdateLog(entry: Entry)             // `handleUpdateLog`: always a new array
    | SetSchedule(schedule: seq<TaperStep>) // a step edited, added, deleted or ticked: always a new array
    | ResetProtocol                       // a confirmed `handleReset`
    | SetStartDate(date: string)          // the start-date field
    | SaveSettings                        // `handleSaveAll`: `onSave(formData)`

  /** The values after a change; saving the dialog hands back the form's settings. */
  function Apply(d: AppData, form: SettingsForm.Form, c: Change): (r: AppData)
    ensures c.UpdateLog? ==> r == d.(logs := LogStore.Upsert(d.logs, c.entry))
    ensures c.SetSchedule? ==> r == d.(schedule := c.schedule)
    ensures c.ResetProtocol? ==> r == d.(schedule := TaperSchedule, startDate := "")
    ensures c.SetStartDate? ==> r == d.(startDate := c.date)
    ensures c.SaveSettings? ==> r == d.(settings := form.settings)
  {
    match c
    case UpdateLog(e) => d.(logs := LogStore.Upsert(d.logs, e))
    case SetSchedule(s) => d.(schedule := s)
    case ResetProtocol =>
      var (schedule, startDate) := TaperGuide.Reset();
      d.(schedule := schedule, startDate := startDate)
    case SetStartDate(s) => d.(startDate := s)
    case SaveSettings => d.(settings := SettingsForm.SaveAll(form))
  }

  /** Whether React sees a new value and re-runs the effect. The log and step
      handlers always build new arrays. A reset hands back the constant
      schedule and the empty string, which is new only when the schedule is
      not the constant or the start date is not empty (both are set in one
      handler, so they re-run the effect once). A start date is a string,
      compared by value. Saving the dialog hands back `formData`, which is new
      only once a control has rebuilt it since it was last the app's object;
      and the dialog's button is there only while the dialog is shown. */
  predicate Fires(m: Machine, c: Change) {
    match c
    case UpdateLog(_) => true
    case SetSchedule(_) => true
    case ResetProtocol => !m.defaultSchedule || m.data.startDate != ""
    case SetStartDate(date) => date != m.data.startDate
    case SaveSettings => DialogShown(m) && m.formEdited
  }

  datatype Event =
    | Mutate(change: Change)
    | Edit(control: SettingsForm.Control) // a control inside the settings dialog
    | Elapse(ms: nat)
    | SaveResult(ok: bool)
    | Unlock                              // `onSuccess` of the PIN screen

  function Step(m: Machine, ev: Event): (r: Machine)
    ensures ev.Mutate? && Fires(m, ev.change) ==>
      && r.data == Apply(m.data, m.form, ev.change)
      && r.status == Syncing && r.stored == Some(r.data)
      && r.timer == Some(Timer(m.now + Debounce, r.data))
    ensures ev.Mutate? && !Fires(m, ev.change) ==> r == m
    ensures ev.Mutate? ==> r.sent == m.sent && r.inFlight == m.inFlight && r.form == m.form
    ensures ev.Edit? && DialogShown(m) ==>
      r == m.(form := SettingsForm.Handle(m.form, ev.control),
               formEdited := m.formEdited || SettingsForm.Rebuilds(m.form, ev.control))
    ensures ev.Edit? && !DialogShown(m) ==> r == m
    ensures ev.SaveResult? && m.inFlight > 0 ==> r.status == (if ev.ok then Success else Error)
    ensures !ev.Mutate? ==> r.data == m.data
    ensures !ev.Elapse? ==> r.now == m.now
    ensures ev.Elapse? ==> r.now == m.now + ev.ms
    ensures !ev.Unlock? ==> r.locked == m.locked
    // `onSuccess` exists only on the rendered PIN screen
    ensures ev.Unlock? && DialogShown(m) ==> r == m
    ensures ev.Unlock? && !DialogShown(m) ==> !r.locked
    // the PIN screen giving way mounts the dialog afresh on the current settings
    ensures ev.Unlock? && !DialogShown(m) ==> r.form == SettingsForm.Open(m.data.settings) && !r.formEdited
  {
    match ev
    case Mutate(c) =>
      if Fires(m, c) then
        SaveEffect(m.(data := Apply(m.data, m.form, c),
                      defaultSchedule := if c.ResetProtocol? then true else if c.SetSchedule? then false else m.defaultSchedule,
                      formEdited := if c.SaveSettings? then false else m.formEdited))
      else m
    case Edit(ctl) =>
      if DialogShown(m) then
        m.(form := SettingsForm.Handle(m.form, ctl), formEdited := m.formEdited || SettingsForm.Rebuilds(m.form, ctl))
      else m
    case Elapse(ms) =>
      var t := m.now + ms;
      if m.timer.Some? && m.timer.value.deadline <= t then
        m.(now := t, timer := None, inFlight := m.inFlight + 1, sent := m.sent + [m.timer.value.snapshot])
      else m.(now := t)
    case SaveResult(ok) =>
      if m.inFlight == 0 then m
      else m.(inFlight := m.inFlight - 1, status := if ok then Success else Error)
    case Unlock =>
      if DialogShown(m) then m
      else m.(locked := false, form := SettingsForm.Open(m.data.settings), formEdited := false)
  }

  /** What holds between events once the app has loaded: the device store
      holds the current values; a pending timer carries exactly those values
      and fires within `Debounce` ms; with no timer pending, the last document
      sent is the current values; a schedule still the constant holds the
      default steps; and an unedited dialog holds the app's settings. */
  predicate Inv(m: Machine) {
    && m.stored == Some(m.data)
    && (m.timer.Some? ==> m.timer.value.snapshot == m.data && m.now < m.timer.value.deadline <= m.now + Debounce)
    && (m.timer.None? ==> |m.sent| > 0 && m.sent[|m.sent| - 1] == m.data)
    && (m.defaultSchedule ==> m.data.schedule == TaperSchedule)
    && (!m.formEdited ==> m.form.settings == m.data.settings)
  }

  lemma StartEstablishesInv(local: Partial, cloud: Option<Partial>, now: int)
    ensures Inv(Start(local, cloud, now))
  {
  }

  lemma StepPreservesInv(m: Machine, ev: Event)
    requires Inv(m)
    ensures Inv(Step(m, ev))
  {
    match ev
    case Mutate(c) => MutatePreservesInv(m, c);
    case Edit(ctl) => EditPreservesInv(m, ctl);
    case _ => OtherEventPreservesInv(m, ev);
  }

  lemma MutatePreservesInv(m: Machine, c: Change)
    requires Inv(m)
    ensures Inv(Step(m, Mutate(c)))
  {
  }

  lemma EditPreservesInv(m: Machine, ctl: SettingsForm.Control)
    requires Inv(m)
    ensures Inv(Step(m, Edit(ctl)))
  {
    if DialogShown(m) && !SettingsForm.Rebuilds(m.form, ctl) {
      SettingsForm.UnrebuiltKeepsSettings(m.form, ctl);
    }
  }

  lemma OtherEventPreservesInv(m: Machine, ev: Event)
    requires Inv(m) && !ev.Mutate? && !ev.Edit?
    ensures Inv(Step(m, ev))
  {
  }

  /** React's skips are exact: a change it does not see would not have
      changed the values, and a change that changes the values is seen. */
  lemma SkippedChangeIsNoOp(m: Machine, c: Change)
    requires Inv(m) && (c.SaveSettings? ==> DialogShown(m))
    ensures !Fires(m, c) ==> Apply(m.data, m.form, c) == m.data && Step(m, Mutate(c)) == m
    ensures Apply(m.data, m.form, c) != m.data ==> Fires(m, c)
  {
  }

  /** The converse fails: a change to equal values can still fire, as a
      settings save after switching the reminder time back and forth shows. */
  lemma EqualValuesCanFire(m: Machine)
    requires Inv(m) && DialogShown(m) && !m.formEdited
    ensures var t := m.form.settings.notificationTime;
      var m2 := Step(Step(m, Edit(SettingsForm.Time("07:30"))), Edit(SettingsForm.Time(t)));
      && m2.form.settings == m.data.settings
      && Fires(m2, SaveSettings)
  {
  }

  /** A confirmed reset restores the default schedule and clears the start
      date, keeping the logs and settings; a second reset straight after is
      skipped. */
  lemma ResetRestoresDefaults(m: Machine)
    requires Inv(m)
    ensures var r := Step(m, Mutate(ResetProtocol));
      && r.data == m.data.(schedule := TaperSchedule, startDate := "")
      && r.data.logs == m.data.logs && r.data.settings == m.data.settings
      && Step(r, Mutate(ResetProtocol)) == r
  {
    var r := Step(m, Mutate(ResetProtocol));
    StepPreservesInv(m, Mutate(ResetProtocol));
    assert r.defaultSchedule && r.data.startDate == "";
  }

  /** Saving the dialog hands its settings to the app and the save effect;
      saving again without an edit is skipped, as the app then holds that
      very object. */
  lemma SaveDialogOnce(m: Machine)
    requires Inv(m) && DialogShown(m)
    ensures var r := Step(m, Mutate(SaveSettings));
      && r.data == m.data.(settings := SettingsForm.SaveAll(m.form))
      && Step(r, Mutate(SaveSettings)) == r
  {
    if !m.formEdited {
      SettingsForm.SaveOpenedIsIdentity(m.data.settings);
    }
  }

  /** A dialog the PIN screen has just given way to saves, unedited, the
      settings the app holds. */
  lemma UnlockedDialogStartsClean(m: Machine)
    requires Inv(m) && ShowPinScreen(m.locked, m.data.settings)
    ensures var r := Step(m, Unlock);
      && DialogShown(r)
      && Step(r, Mutate(SaveSettings)) == r
      && SettingsForm.SaveAll(r.form) == m.data.settings
  {
    SettingsForm.SaveOpenedIsIdentity(m.data.settings);
  }

  /** A change followed by `Debounce` quiet milliseconds sends exactly the
      values as of that change, once. */
  lemma QuietPeriodSavesLastChange(m: Machine, c: Change)
    requires Inv(m) && Fires(m, c)
    ensures var m1 := Step(m, Mutate(c));
      var m2 := Step(m1, Elapse(Debounce));
      && m2.sent == m.sent + [Apply(m.data, m.form, c)]
      && m2.timer.None?
      && m2.inFlight == m.inFlight + 1
  {
  }

  /** Nothing is sent while less than `Debounce` ms pass after a change. */
  lemma ShortGapSendsNothing(m: Machine, c: Change, gap: nat)
    requires Inv(m) && Fires(m, c) && gap < Debounce
    ensures var m2 := Step(Step(m, Mutate(c)), Elapse(gap));
      && m2.sent == m.sent
      && m2.timer == Some(Timer(m.now + Debounce, Apply(m.data, m.form, c)))
      && m2.form == m.form
  {
  }

  /** A burst of changes, each followed by a pause. */
  function BurstEvents(burst: seq<(Change, nat)>): (evs: seq<Event>)
    ensures |evs| == 2 * |burst|
  {
    if |burst| == 0 then [] else [Mutate(burst[0].0), Elapse(burst[0].1)] + BurstEvents(burst[1..])
  }

  function Run(m: Machine, evs: seq<Event>): Machine
    decreases |evs|
  {
    if |evs| == 0 then m else Run(Step(m, evs[0]), evs[1..])
  }

  function ApplyAll(d: AppData, form: SettingsForm.Form, changes: seq<(Change, nat)>): AppData
    decreases |changes|
  {
    if |changes| == 0 then d else ApplyAll(Apply(d, form, changes[0].0), form, changes[1..])
  }

  /** Every change of the burst is seen by React when its turn comes. */
  predicate AllFire(m: Machine, burst: seq<(Change, nat)>)
    decreases |burst|
  {
    |burst| == 0 || (Fires(m, burst[0].0) && AllFire(Step(Step(m, Mutate(burst[0].0)), Elapse(burst[0].1)), burst[1..]))
  }

  lemma RunAppend(m: Machine, a: seq<Event>, b: seq<Event>)
    ensures Run(m, a + b) == Run(Run(m, a), b)
    decreases |a|
  {
    if |a| > 0 {
      assert (a + b)[1..] == a[1..] + b;
      RunAppend(Step(m, a[0]), a[1..], b);
    } else {
      assert a + b == b;
    }
  }

  /** Debouncing: a burst of changes that never pauses for `Debounce` ms sends
      nothing and leaves one timer holding the final values; once the burst
      is over and `Debounce` ms pass, exactly those final values are sent,
      once. Each change must be one React sees (`AllFire`). */
  lemma {:induction false} BurstCoalesces(m: Machine, burst: seq<(Change, nat)>)
    requires Inv(m) && |burst| > 0 && AllFire(m, burst)
    requires forall i :: 0 <= i < |burst| ==> burst[i].1 < Debounce
    ensures var m1 := Run(m, BurstEvents(burst));
      && m1.sent == m.sent
      && m1.data == ApplyAll(m.data, m.form, burst)
      && m1.timer.Some? && m1.status == Syncing
      && Step(m1, Elapse(Debounce)).sent == m.sent + [ApplyAll(m.data, m.form, burst)]
    decreases |burst|
  {
    var c, gap := burst[0].0, burst[0].1;
    var m2 := Step(Step(m, Mutate(c)), Elapse(gap));
    ShortGapSendsNothing(m, c, gap);
    StepPreservesInv(m, Mutate(c));
    StepPreservesInv(Step(m, Mutate(c)), Elapse(gap));
    assert Run(m, BurstEvents(burst)) == Run(m2, BurstEvents(burst[1..])) by {
      assert BurstEvents(burst) == [Mutate(c), Elapse(gap)] + BurstEvents(burst[1..]);
      RunAppend(m, [Mutate(c), Elapse(gap)], BurstEvents(burst[1..]));
      assert Run(m, [Mutate(c), Elapse(gap)]) == m2 by {
        assert [Mutate(c), Elapse(gap)][1..] == [Elapse(gap)];
        assert [Elapse(gap)][1..] == [];
        assert Run(Step(m, Mutate(c)), [Elapse(gap)]) == Run(m2, []);
      }
    }
    if |burst| > 1 {
      BurstCoalesces(m2, burst[1..]);
    }
  }

  /** The status can read "Success" while a newer change still waits for its
      timer: an answer to an earlier save arrives after the change. */
  lemma SuccessWhileSavePending(m: Machine, c: Change)
    requires Inv(m) && m.inFlight > 0 && Fires(m, c)
    ensures var r := Step(Step(m, Mutate(c)), SaveResult(true));
      && r.status == Success
      && r.timer == Some(Timer(m.now + Debounce, Apply(m.data, m.form, c)))
      && r.sent == m.sent
  {
  }

  /** Once unlocked the app never locks again. */
  /** While the app is still locked behind a hidden PIN screen, saving a lock
      with a code brings the PIN screen up at once. */
  lemma SavedLockShowsPinScreen(m: Machine)
    requires Inv(m) && m.locked && DialogShown(m) && m.formEdited
    requires SettingsForm.SaveAll(m.form).isPinEnabled && NonEmpty(SettingsForm.SaveAll(m.form).pinCode)
    ensures !DialogShown(Step(m, Mutate(SaveSettings)))
    ensures Step(Step(m, Mutate(SaveSettings)), Unlock).locked == false
  {
  }

  lemma UnlockIsFinal(m: Machine, ev: Event)
    requires !m.locked
    ensures !Step(m, ev).locked
  {
  }

  /** Reloading from the device store gives back the values saved there. */
  lemma ReloadRestores(m: Machine)
    requires Inv(m)
    ensures var d := m.stored.value;
      Load(Partial(Some(d.logs), Some(d.schedule), Some(d.startDate), Some(d.settings)), None).data == m.data
  {
  }
}
