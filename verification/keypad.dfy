/** The PIN screen (components/LoginScreen.tsx): a keypad of the ten digits
    and a delete key filling a buffer of at most four characters. When the
    buffer reaches four characters it is compared with the stored code: a
    match unlocks the app; a mismatch shows an error and, half a second
    later, clears the buffer and the error. That delayed reset is the
    separate event `ResetFires`.

    The comparison is an effect on the buffer, the stored code and the
    `onSuccess` callback. App passes a new callback on every render, so any
    re-render of App while the screen is shown (the debounced save setting
    the sync status, for one) runs the comparison again: the `Rerender` key. */
module Keypad {
  import opened Common

  datatype Pad = Pad(
    input: string,
    error: bool,
    unlocked: bool,        // `onSuccess` has been called
    pendingResets: nat)    // reset timers started and not yet fired

  const Empty := Pad("", false, false, 0)

  /** The effect that runs when the buffer changes. */
  function Settle(p: Pad, stored: string): (r: Pad)
    ensures |p.input| == 4 && p.input == stored ==> r == p.(unlocked := true)
    ensures |p.input| == 4 && p.input != stored ==> r == p.(error := true, pendingResets := p.pendingResets + 1)
    ensures |p.input| != 4 ==> r == p
  {
    if |p.input| == 4 then
      if p.input == stored then p.(unlocked := true)
      else p.(error := true, pendingResets := p.pendingResets + 1)
    else p
  }

  /** `handleNum`: a key is taken only while fewer than four are in the buffer. */
  function Press(p: Pad, stored: string, key: char): (r: Pad)
    ensures |p.input| < 4 ==> r.input == p.input + [key]
    // a key that does not complete the code clears the error shown
    ensures |p.input| < 3 ==> !r.error && r.unlocked == p.unlocked
    ensures |p.input| >= 4 ==> r == p
  {
    if |p.input| < 4 then Settle(p.(input := p.input + [key], error := false), stored) else p
  }

  /** `handleDelete`: `slice(0, -1)`, which leaves an empty buffer empty. */
  function Delete(p: Pad): (r: Pad)
    ensures |p.input| > 0 ==> r.input + [p.input[|p.input| - 1]] == p.input
    ensures |p.input| == 0 ==> r == p
    ensures r.error == p.error && r.unlocked == p.unlocked
  {
    if |p.input| == 0 then p else p.(input := p.input[..|p.input| - 1])
  }

  /** The half-second timer after a wrong code. */
  function ResetFires(p: Pad): (r: Pad)
    ensures p.pendingResets > 0 ==> r.input == "" && !r.error && r.pendingResets == p.pendingResets - 1
    ensures p.pendingResets == 0 ==> r == p
  {
    if p.pendingResets > 0 then p.(input := "", error := false, pendingResets := p.pendingResets - 1) else p
  }

  datatype Key = Num(c: char) | Del | Timer | Rerender

  function Step(p: Pad, stored: string, k: Key): Pad {
    match k
    case Num(c) => Press(p, stored, c)
    case Del => Delete(p)
    case Timer => ResetFires(p)
    case Rerender => Settle(p, stored)
  }

  /** The keypad offers only the digits 0-9. */
  predicate Wired(k: Key) {
    k.Num? ==> IsDigit(k.c)
  }

  /** The buffer holds at most four digits. */
  predicate Inv(p: Pad) {
    |p.input| <= 4 && AllDigits(p.input)
  }

  lemma StepKeepsInv(p: Pad, stored: string, k: Key)
    requires Inv(p) && Wired(k)
    ensures Inv(Step(p, stored, k))
  {
  }

  /** The app unlocks only on a four-character buffer equal to the stored code. */
  lemma UnlockNeedsStoredPin(p: Pad, stored: string, k: Key)
    requires !p.unlocked
    ensures Step(p, stored, k).unlocked ==> |Step(p, stored, k).input| == 4 && Step(p, stored, k).input == stored
  {
  }

  /** So a stored code of any length but four can never be entered. */
  lemma {:induction false} OtherLengthNeverUnlocks(p: Pad, stored: string, keys: seq<Key>)
    requires !p.unlocked && |stored| != 4
    ensures !Run(p, stored, keys).unlocked
    decreases |keys|
  {
    if |keys| > 0 {
      UnlockNeedsStoredPin(p, stored, keys[0]);
      OtherLengthNeverUnlocks(Step(p, stored, keys[0]), stored, keys[1..]);
    }
  }

  function Run(p: Pad, stored: string, keys: seq<Key>): Pad
    decreases |keys|
  {
    if |keys| == 0 then p else Run(Step(p, stored, keys[0]), stored, keys[1..])
  }

  lemma {:induction false} RunAppend(p: Pad, stored: string, a: seq<Key>, b: seq<Key>)
    ensures Run(p, stored, a + b) == Run(Run(p, stored, a), stored, b)
    decreases |a|
  {
    if |a| > 0 {
      assert (a + b)[0] == a[0] && (a + b)[1..] == a[1..] + b;
      RunAppend(Step(p, stored, a[0]), stored, a[1..], b);
    } else {
      assert a + b == b;
    }
  }

  function Presses(digits: string): (keys: seq<Key>)
    ensures |keys| == |digits|
    ensures forall i :: 0 <= i < |digits| ==> keys[i] == Num(digits[i])
  {
    seq(|digits|, i requires 0 <= i < |digits| => Num(digits[i]))
  }

  /** Typing the four characters of `code` into an empty buffer fills it with
      exactly `code` and runs the comparison once, at the fourth key. */
  lemma TypeFour(stored: string, code: string)
    requires |code| == 4
    ensures var p := Run(Empty, stored, Presses(code));
      && p.input == code
      && (p.unlocked <==> code == stored)
      && (p.error <==> code != stored)
      && p.pendingResets == (if code == stored then 0 else 1)
  {
    var k := Presses(code);
    var p1 := Step(Empty, stored, k[0]);
    var p2 := Step(p1, stored, k[1]);
    var p3 := Step(p2, stored, k[2]);
    var p4 := Step(p3, stored, k[3]);
    assert p3.input == [code[0], code[1], code[2]] && !p3.unlocked && !p3.error && p3.pendingResets == 0;
    assert p4.input == code;
    assert Run(Empty, stored, k) == p4 by {
      assert k[1..][0] == k[1] && k[2..][0] == k[2] && k[3..][0] == k[3];
      assert k[1..][1..] == k[2..] && k[2..][1..] == k[3..] && k[3..][1..] == [];
      assert Run(p3, stored, k[3..]) == p4;
      assert Run(p2, stored, k[2..]) == p4;
      assert Run(p1, stored, k[1..]) == p4;
    }
  }

  /** After a wrong code, the reset timer empties the buffer and clears the
      error, ready for a new attempt. */
  lemma WrongCodeResets(stored: string, code: string)
    requires |code| == 4 && code != stored
    ensures var p := ResetFires(Run(Empty, stored, Presses(code)));
      p.input == "" && !p.error && !p.unlocked && p.pendingResets == 0
  {
    TypeFour(stored, code);
  }

  lemma ThreeKeys(p: Pad, stored: string, c: char)
    ensures Run(p, stored, [Timer, Num(c), Timer]) == ResetFires(Press(ResetFires(p), stored, c))
  {
    var p1 := ResetFires(p);
    var p2 := Press(p1, stored, c);
    var ks := [Timer, Num(c), Timer];
    assert ks[1..] == [Num(c), Timer] && ks[1..][1..] == [Timer] && [Timer][1..] == [];
    assert Run(p2, stored, [Timer]) == ResetFires(p2);
    assert Run(p1, stored, ks[1..]) == ResetFires(p2);
  }

  /** A re-render while a wrong code shows its error starts a second reset
      timer. Without it, a digit typed after the reset stays in the buffer;
      with it, the second timer clears that digit too. */
  lemma RerenderClearsLaterDigit(stored: string, code: string, c: char)
    requires |code| == 4 && code != stored
    ensures Run(Empty, stored, Presses(code) + [Timer, Num(c), Timer]).input == [c]
    ensures Run(Empty, stored, Presses(code) + ([Rerender] + [Timer, Num(c), Timer])).input == ""
  {
    TypeFour(stored, code);
    var p := Run(Empty, stored, Presses(code));
    RunAppend(Empty, stored, Presses(code), [Timer, Num(c), Timer]);
    RunAppend(Empty, stored, Presses(code), [Rerender] + [Timer, Num(c), Timer]);
    var ks := [Timer, Num(c), Timer];
    ThreeKeys(p, stored, c);
    var r := Settle(p, stored);
    assert r.pendingResets == 2;
    var ls := [Rerender] + ks;
    assert ls[0] == Rerender && ls[1..] == ks;
    ThreeKeys(r, stored, c);
  }
}
