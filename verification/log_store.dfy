/** The log list App.tsx keeps: replacing or appending the entry of a date
    (`handleUpdateLog`) and the entry the daily view is shown for a date
    (`getLogContext`), which carries the doses of the latest earlier day
    forward when the date itself has no entry. */
module LogStore {
  import opened Common
  import opened Dates
  import opened Model

  predicate HasDate(logs: seq<Entry>, d: Date) {
    exists i :: 0 <= i < |logs| && logs[i].date == d
  }

  /** At most one entry per date. */
  predicate UniqueDates(logs: seq<Entry>) {
    forall i, j :: 0 <= i < j < |logs| ==> logs[i].date != logs[j].date
  }

  /** The position of the first entry dated `d` (`findIndex`), if any. */
  function FindIndex(logs: seq<Entry>, d: Date): (r: Option<nat>)
    ensures r.Some? ==> r.value < |logs| && logs[r.value].date == d
    ensures r.Some? ==> forall j :: 0 <= j < r.value ==> logs[j].date != d
    ensures r.None? <==> !HasDate(logs, d)
    decreases |logs|
  {
    if |logs| == 0 then None
    else if logs[0].date == d then Some(0)
    else
      match FindIndex(logs[1..], d)
      case Some(i) => Some(i + 1)
      case None =>
        assert forall j :: 1 <= j < |logs| ==> logs[j] == logs[1..][j - 1];
        None
  }

  /** The first entry dated `d` (`find`), if any. */
  function Find(logs: seq<Entry>, d: Date): (r: Option<Entry>)
    ensures r.Some? <==> HasDate(logs, d)
    ensures r.Some? ==>
      exists i ::
        && 0 <= i < |logs| && logs[i] == r.value && r.value.date == d
        && forall j :: 0 <= j < i ==> logs[j].date != d
  {
    match FindIndex(logs, d)
    case Some(i) => Some(logs[i])
    case None => None
  }

  /** `handleUpdateLog`: the first entry with the same date is replaced in place;
      without one, the entry is appended. */
  function Upsert(logs: seq<Entry>, e: Entry): (r: seq<Entry>)
    ensures HasDate(logs, e.date) ==> |r| == |logs|
    ensures !HasDate(logs, e.date) ==> |r| == |logs| + 1 && r[..|logs|] == logs && r[|logs|] == e
    ensures HasDate(logs, e.date) ==>
      exists i ::
        && 0 <= i < |logs| && logs[i].date == e.date && r == logs[i := e]
        && forall j :: 0 <= j < i ==> logs[j].date != e.date
    ensures HasDate(r, e.date)
  {
    match FindIndex(logs, e.date)
    case Some(i) =>
      assert logs[i := e][i].date == e.date;
      logs[i := e]
    case None => logs + [e]
  }

  /** Looking the date up after an upsert finds exactly the entry written. */
  lemma UpsertThenFind(logs: seq<Entry>, e: Entry)
    ensures Find(Upsert(logs, e), e.date) == Some(e)
  {
    var r := Upsert(logs, e);
    match FindIndex(logs, e.date)
    case Some(i) =>
      assert FindIndex(r, e.date) == Some(i) by {
        assert r[i] == e;
        assert forall j :: 0 <= j < i ==> r[j] == logs[j];
      }
    case None =>
      assert r == logs + [e];
      assert FindIndex(r, e.date) == Some(|logs|) by {
        assert forall j :: 0 <= j < |logs| ==> r[j] == logs[j];
      }
  }

  /** Writing the same entry twice stores the same list as writing it once. */
  lemma UpsertIdempotent(logs: seq<Entry>, e: Entry)
    ensures Upsert(Upsert(logs, e), e) == Upsert(logs, e)
  {
    var r := Upsert(logs, e);
    match FindIndex(logs, e.date)
    case Some(i) =>
      assert FindIndex(r, e.date) == Some(i) by {
        assert r[i] == e;
        assert forall j :: 0 <= j < i ==> r[j] == logs[j];
      }
    case None =>
      assert FindIndex(r, e.date) == Some(|logs|) by {
        assert forall j :: 0 <= j < |logs| ==> r[j] == logs[j];
      }
  }

  /** Upserting never creates a second entry for a date. */
  lemma UpsertKeepsUniqueDates(logs: seq<Entry>, e: Entry)
    requires UniqueDates(logs)
    ensures UniqueDates(Upsert(logs, e))
  {
  }

  /** The dates present after an upsert are the old ones plus the entry's. */
  lemma UpsertDates(logs: seq<Entry>, e: Entry, d: Date)
    ensures HasDate(Upsert(logs, e), d) <==> HasDate(logs, d) || d == e.date
  {
    var r := Upsert(logs, e);
    if HasDate(logs, d) && d != e.date {
      var k :| 0 <= k < |logs| && logs[k].date == d;
      assert r[k].date == d;
    }
  }

  /** The entries strictly before `d`, in list order (`filter(l => l.date < date)`). */
  function Earlier(logs: seq<Entry>, d: Date): (r: seq<Entry>)
    ensures |r| <= |logs|
    ensures forall x :: x in r <==> x in logs && Before(x.date, d)
    decreases |logs|
  {
    if |logs| == 0 then []
    else
      var rest := Earlier(logs[..|logs| - 1], d);
      assert logs == logs[..|logs| - 1] + [logs[|logs| - 1]];
      if Before(logs[|logs| - 1].date, d) then rest + [logs[|logs| - 1]] else rest
  }

  /** The position of the latest-dated entry, the first one in list order among
      entries sharing that date: what a stable sort by descending date puts first. */
  function LatestIndex(s: seq<Entry>): (k: nat)
    requires |s| > 0
    ensures k < |s|
    ensures forall j :: 0 <= j < |s| ==> OnOrBefore(s[j].date, s[k].date)
    ensures forall j :: 0 <= j < k ==> Before(s[j].date, s[k].date)
    decreases |s|
  {
    if |s| == 1 then 0
    else
      var k := LatestIndex(s[..|s| - 1]);
      if Before(s[k].date, s[|s| - 1].date) then |s| - 1 else k
  }

  /** The position in `logs` of the entry `LatestIndex(Earlier(logs, d))` picks:
      dated before `d`, no earlier than any other such entry, and the first in
      list order among those of its date. */
  function LatestBefore(logs: seq<Entry>, d: Date): (r: Option<nat>)
    ensures r.None? <==> forall j :: 0 <= j < |logs| ==> !Before(logs[j].date, d)
    ensures r.Some? ==> r.value < |logs| && Before(logs[r.value].date, d)
    ensures r.Some? ==> forall j :: 0 <= j < |logs| && Before(logs[j].date, d) ==> OnOrBefore(logs[j].date, logs[r.value].date)
    ensures r.Some? ==> forall j :: 0 <= j < r.value && Before(logs[j].date, d) ==> Before(logs[j].date, logs[r.value].date)
    decreases |logs|
  {
    if |logs| == 0 then None
    else
      var n := |logs| - 1;
      var k := LatestBefore(logs[..n], d);
      assert forall j :: 0 <= j < n ==> logs[..n][j] == logs[j];
      if !Before(logs[n].date, d) then k
      else if k.None? || Before(logs[k.value].date, logs[n].date) then Some(n)
      else k
  }

  /** Filtering and then taking the latest picks the entry at `LatestBefore`. */
  lemma {:induction false} LatestOfEarlier(logs: seq<Entry>, d: Date)
    ensures |Earlier(logs, d)| == 0 <==> LatestBefore(logs, d).None?
    ensures |Earlier(logs, d)| > 0 ==> Earlier(logs, d)[LatestIndex(Earlier(logs, d))] == logs[LatestBefore(logs, d).value]
    decreases |logs|
  {
    if |logs| > 0 {
      var n := |logs| - 1;
      LatestOfEarlier(logs[..n], d);
      var rest, k := Earlier(logs[..n], d), LatestBefore(logs[..n], d);
      if !Before(logs[n].date, d) {
        assert Earlier(logs, d) == rest && LatestBefore(logs, d) == k;
        if k.Some? {
          assert logs[..n][k.value] == logs[k.value];
        }
      } else if |rest| == 0 {
        assert Earlier(logs, d) == [logs[n]] && LatestBefore(logs, d) == Some(n);
      } else {
        LatestOfEarlierStep(logs, d, rest, k.value);
      }
    }
  }

  /** The step of `LatestOfEarlier` where the last entry is also before `d`. */
  lemma LatestOfEarlierStep(logs: seq<Entry>, d: Date, rest: seq<Entry>, k: nat)
    requires |logs| > 0 && Before(logs[|logs| - 1].date, d)
    requires rest == Earlier(logs[..|logs| - 1], d) && |rest| > 0
    requires LatestBefore(logs[..|logs| - 1], d) == Some(k)
    requires rest[LatestIndex(rest)] == logs[..|logs| - 1][k]
    ensures |Earlier(logs, d)| > 0 && Earlier(logs, d)[LatestIndex(Earlier(logs, d))] == logs[LatestBefore(logs, d).value]
  {
    var n := |logs| - 1;
    var e := rest + [logs[n]];
    assert Earlier(logs, d) == e;
    assert e[..|e| - 1] == rest;
    assert logs[..n][k] == logs[k];
  }

  /** The entry synthesised for date `d` from the latest earlier entry `last`:
      its doses, and neutral values for everything else. */
  function CarryForward(d: IsoDate, last: Entry): Entry {
    Entry(d, map[], last.lDose, last.bDose, 70, Some(0), None, 5, 5, Some(1), Some(0), 5, NoVitals, Some(""), None, None)
  }

  /** `getLogContext`. */
  function LogContext(logs: seq<Entry>, d: IsoDate): (r: Option<Entry>)
    // an entry of the date itself is returned unchanged (the first, should there be several)
    ensures HasDate(logs, d) ==> r == Find(logs, d)
    // without one and without an earlier entry there is nothing to show
    ensures r.None? <==> !HasDate(logs, d) && forall i :: 0 <= i < |logs| ==> !Before(logs[i].date, d)
    // otherwise the doses come from a latest entry before d and the rest is reset
    ensures r.Some? && !HasDate(logs, d) ==>
      && r.value.date == d
      && r.value.completedItems == map[]
      && r.value.sleepHrs == 70 && r.value.napMinutes == Some(0)
      && r.value.anxietyLevel == 5 && r.value.moodLevel == 5
      && r.value.depressionLevel == Some(1) && r.value.brainZapLevel == Some(0)
      && r.value.smokingLevel == 5 && r.value.dailyNote == Some("")
      && RatingsInRange(r.value)
      && r.value.energyLevel.None? && r.value.vitals == NoVitals
      && r.value.factors.None? && r.value.isComplete.None?
      && exists i :: 0 <= i < |logs| && Before(logs[i].date, d)
          && r.value.lDose == logs[i].lDose && r.value.bDose == logs[i].bDose
          && (forall j :: 0 <= j < |logs| && Before(logs[j].date, d) ==> OnOrBefore(logs[j].date, logs[i].date))
          // among equally late entries, the first in list order
          && forall j :: 0 <= j < i && Before(logs[j].date, d) ==> Before(logs[j].date, logs[i].date)
  {
    match Find(logs, d)
    case Some(e) => Some(e)
    case None =>
      var earlier := Earlier(logs, d);
      LatestOfEarlier(logs, d);
      if |earlier| == 0 then None
      else
        var last := earlier[LatestIndex(earlier)];
        assert last == logs[LatestBefore(logs, d).value];
        Some(CarryForward(d, last))
  }

  /** A worked case: with one entry, of 2024-03-01 at 5.0 mg, and nothing on
      2024-03-05, the form for 2024-03-05 shows 5.0 mg, anxiety 5 and no
      ticked items. */
  lemma CarryForwardExample(e: Entry)
    requires e.date == Date(2024, 3, 1) && e.lDose == 50
    ensures LogContext([e], Date(2024, 3, 5)).Some?
    ensures LogContext([e], Date(2024, 3, 5)).value.lDose == 50
    ensures LogContext([e], Date(2024, 3, 5)).value.anxietyLevel == 5
    ensures LogContext([e], Date(2024, 3, 5)).value.completedItems == map[]
  {
    assert !HasDate([e], Date(2024, 3, 5));
    assert Before([e][0].date, Date(2024, 3, 5));
  }
}
