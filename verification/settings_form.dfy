/** The settings dialog (components/SettingsModal.tsx): a form over a copy of
    the settings plus the PIN being typed, the controls that edit it, and the
    save that hands the edited settings back to the app.

    `PinSafe` is the guarantee the wired controls give: the lock is only ever
    switched on together with a four-digit code. */
module SettingsForm {
  import opened Common
  import opened Model

  datatype Form = Form(settings: Settings, newPin: string)

  /** The dialog's state when first shown: the current settings, no PIN typed. */
  function Open(s: Settings): (f: Form)
    ensures f.settings == s && f.newPin == ""
  {
    Form(s, "")
  }

  /** `handleTogglePin`. */
  function TogglePin(f: Form, enabled: bool): (r: Form)
    // switching on with no stored code and nothing typed does nothing
    ensures enabled && !NonEmpty(f.settings.pinCode) && f.newPin == "" ==> r == f
    // switching off forgets the code and the typed digits
    ensures !enabled ==> !r.settings.isPinEnabled && r.settings.pinCode.None? && r.newPin == ""
    ensures enabled && (NonEmpty(f.settings.pinCode) || f.newPin != "") ==> r == f.(settings := f.settings.(isPinEnabled := true))
    ensures r.settings.notificationsEnabled == f.settings.notificationsEnabled
    ensures r.settings.notificationTime == f.settings.notificationTime
  {
    if enabled && !NonEmpty(f.settings.pinCode) && |f.newPin| == 0 then f
    else if !enabled then Form(f.settings.(isPinEnabled := false, pinCode := None), "")
    else f.(settings := f.settings.(isPinEnabled := true))
  }

  /** `handleSavePin`: only a PIN of exactly four characters is taken. */
  function SavePin(f: Form): (r: Form)
    ensures |f.newPin| == 4 ==> r.settings == f.settings.(isPinEnabled := true, pinCode := Some(f.newPin)) && r.newPin == ""
    ensures |f.newPin| != 4 ==> r == f
  {
    if |f.newPin| == 4 then Form(f.settings.(isPinEnabled := true, pinCode := Some(f.newPin)), "") else f
  }

  /** `replace(/[^0-9]/g, '')`: the digits of `s`, in order. */
  function KeepDigits(s: string): (r: string)
    ensures AllDigits(r) && |r| <= |s|
    decreases |s|
  {
    if |s| == 0 then ""
    else (if IsDigit(s[0]) then [s[0]] else "") + KeepDigits(s[1..])
  }

  /** Filtering removes only non-digits: a digit string is left as it is. */
  lemma {:induction false} KeepDigitsFixesDigits(s: string)
    ensures KeepDigits(s) == s <==> AllDigits(s)
    decreases |s|
  {
    if |s| > 0 {
      KeepDigitsFixesDigits(s[1..]);
      if !IsDigit(s[0]) {
        assert |KeepDigits(s)| <= |s[1..]| < |s|;
      } else {
        assert s == [s[0]] + s[1..];
        assert AllDigits(s) <==> AllDigits(s[1..]);
        assert KeepDigits(s) == [s[0]] + KeepDigits(s[1..]);
        if KeepDigits(s) == s {
          assert KeepDigits(s)[1..] == s[1..];
        }
      }
    }
  }

  /** Filtering twice is filtering once. */
  lemma KeepDigitsIdempotent(s: string)
    ensures KeepDigits(KeepDigits(s)) == KeepDigits(s)
  {
    KeepDigitsFixesDigits(KeepDigits(s));
  }

  /** The PIN box: at most four characters reach the handler (`maxLength`),
      and of those only the digits are kept. */
  function PinInput(f: Form, raw: string): (r: Form)
    ensures AllDigits(r.newPin) && |r.newPin| <= 4
    ensures r.settings == f.settings
    ensures AllDigits(raw) && |raw| <= 4 ==> r.newPin == raw
  {
    var shown := if |raw| <= 4 then raw else raw[..4];
    KeepDigitsFixesDigits(shown);
    f.(newPin := KeepDigits(shown))
  }

  /** The lock switch: it can only switch the lock off. */
  function LockButton(f: Form): (r: Form)
    ensures !r.settings.isPinEnabled
    ensures !f.settings.isPinEnabled ==> r == f
  {
    if f.settings.isPinEnabled then TogglePin(f, false) else f
  }

  /** What the browser answers to a notification permission request. */
  datatype Permission = Unsupported | Granted | Denied

  /** The reminder switch: switching off is immediate; switching on asks the
      browser and follows its answer. */
  function ReminderButton(f: Form, answer: Permission): (r: Form)
    ensures f.settings.notificationsEnabled ==> !r.settings.notificationsEnabled
    ensures !f.settings.notificationsEnabled ==> (r.settings.notificationsEnabled <==> answer == Granted)
    ensures r.settings.isPinEnabled == f.settings.isPinEnabled && r.settings.pinCode == f.settings.pinCode
    ensures r.newPin == f.newPin
  {
    if f.settings.notificationsEnabled then f.(settings := f.settings.(notificationsEnabled := false))
    else match answer
      case Unsupported => f
      case Granted => f.(settings := f.settings.(notificationsEnabled := true))
      case Denied => f.(settings := f.settings.(notificationsEnabled := false))
  }

  function SetTime(f: Form, time: string): (r: Form)
    ensures r.settings.notificationTime == time
    ensures r.settings.(notificationTime := f.settings.notificationTime) == f.settings && r.newPin == f.newPin
  {
    f.(settings := f.settings.(notificationTime := time))
  }

  /** `handleSaveAll`: the edited settings, exactly as shown in the dialog. */
  function SaveAll(f: Form): (s: Settings)
    ensures s == f.settings
  {
    f.settings
  }

  /** The controls the dialog actually wires up (`handleTogglePin(true)` has none). */
  datatype Control =
    | Lock
    | TypePin(raw: string)
    | SetPin
    | Reminder(answer: Permission)
    | Time(value: string)

  function Handle(f: Form, c: Control): Form {
    match c
    case Lock => LockButton(f)
    case TypePin(raw) => PinInput(f, raw)
    case SetPin => SavePin(f)
    case Reminder(answer) => ReminderButton(f, answer)
    case Time(t) => SetTime(f, t)
  }

  /** Whether the control calls `setFormData`, which always builds a new
      settings object: typing a PIN, a "Set PIN" with other than four
      characters, and a reminder request the browser cannot answer leave the
      object the dialog holds as it was. */
  predicate Rebuilds(f: Form, c: Control) {
    match c
    case Lock => f.settings.isPinEnabled
    case TypePin(_) => false
    case SetPin => |f.newPin| == 4
    case Reminder(answer) => f.settings.notificationsEnabled || answer != Unsupported
    case Time(_) => true
  }

  /** A control that builds no new object leaves the settings unchanged. */
  lemma UnrebuiltKeepsSettings(f: Form, c: Control)
    requires !Rebuilds(f, c)
    ensures Handle(f, c).settings == f.settings
  {
  }

  /** Saving a dialog that was opened and not edited hands back the settings
      it was opened on. */
  lemma SaveOpenedIsIdentity(s: Settings)
    ensures SaveAll(Open(s)) == s
  {
  }

  /** A dialog opened on settings whose lock, if on, has a four-digit code
      saves such settings again, whatever wired controls are used. */
  lemma OpenedDialogSavesSafeLock(s: Settings, controls: seq<Control>)
    requires s.isPinEnabled ==> s.pinCode.Some? && IsPin(s.pinCode.value)
    ensures var r := SaveAll(HandleAll(Open(s), controls));
      r.isPinEnabled ==> r.pinCode.Some? && IsPin(r.pinCode.value)
  {
    assert PinSafe(Open(s));
    SavedLockHasPin(Open(s), controls);
  }

  predicate IsPin(s: string) {
    |s| == 4 && AllDigits(s)
  }

  /** An enabled lock has a four-digit code, and the typed PIN is at most four digits. */
  predicate PinSafe(f: Form) {
    && (f.settings.isPinEnabled ==> f.settings.pinCode.Some? && IsPin(f.settings.pinCode.value))
    && |f.newPin| <= 4 && AllDigits(f.newPin)
  }

  /** Every wired control keeps `PinSafe`. */
  lemma HandleKeepsPinSafe(f: Form, c: Control)
    requires PinSafe(f)
    ensures PinSafe(Handle(f, c))
  {
  }

  /** Starting from settings with no lock, or a lock with a four-digit code,
      any sequence of wired controls saves settings whose lock, if on, has a
      four-digit code. */
  lemma {:induction false} SavedLockHasPin(f: Form, controls: seq<Control>)
    requires PinSafe(f)
    ensures var s := SaveAll(HandleAll(f, controls));
      s.isPinEnabled ==> s.pinCode.Some? && IsPin(s.pinCode.value)
    decreases |controls|
  {
    if |controls| > 0 {
      HandleKeepsPinSafe(f, controls[0]);
      SavedLockHasPin(Handle(f, controls[0]), controls[1..]);
    }
  }

  function HandleAll(f: Form, controls: seq<Control>): Form
    decreases |controls|
  {
    if |controls| == 0 then f else HandleAll(Handle(f, controls[0]), controls[1..])
  }

  /** The unwired `handleTogglePin(true)` would switch the lock on with a
      partly typed PIN and no code. */
  lemma ToggleOnSkipsPinCheck()
    ensures var r := TogglePin(Form(Settings(false, None, false, "09:00"), "12"), true);
      r.settings.isPinEnabled && r.settings.pinCode.None?
  {
  }
}
