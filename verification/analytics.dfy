/** The history view's data logic (components/HistoryAnalytics.tsx): logs in
    date order, the summary statistics (latest dose and the last-seven window),
    the monthly grouping of the chart, the CSV export, and the brain-zap label. */
module Analytics {
  import opened Common
  import opened Dates
  import opened Model
  import Csv

  // ---------------------------------------------------------------------------
  // Date order

  function Key(e: Entry): int {
    DayKey(e.date)
  }

  predicate SortedByDate(s: seq<Entry>) {
    forall i, j :: 0 <= i < j < |s| ==> Key(s[i]) <= Key(s[j])
  }

  /** Sorted by key is sorted in calendar order. */
  lemma SortedIsChronological(s: seq<Entry>)
    ensures SortedByDate(s) <==> forall i, j :: 0 <= i < j < |s| ==> OnOrBefore(s[i].date, s[j].date)
  {
    forall i, j | 0 <= i < j < |s| {
      DayKeyOrder(s[i].date, s[j].date);
    }
  }

  /** Places `e` after every entry not later than it, so equal dates keep their
      arrival order. */
  function InsertByDate(sorted: seq<Entry>, e: Entry): (r: seq<Entry>)
    ensures |r| == |sorted| + 1
    decreases |sorted|
  {
    if |sorted| == 0 || Key(sorted[|sorted| - 1]) <= Key(e) then sorted + [e]
    else InsertByDate(sorted[..|sorted| - 1], e) + [sorted[|sorted| - 1]]
  }

  /** Inserting adds exactly `e`. */
  lemma {:induction false} InsertPermutes(sorted: seq<Entry>, e: Entry)
    ensures multiset(InsertByDate(sorted, e)) == multiset(sorted) + multiset{e}
    decreases |sorted|
  {
    var n := |sorted|;
    if n > 0 && Key(e) < Key(sorted[n - 1]) {
      InsertPermutes(sorted[..n - 1], e);
      assert sorted == sorted[..n - 1] + [sorted[n - 1]];
    }
  }

  /** Inserting into a sorted list keeps it sorted; every entry of the result
      is bounded by the larger of `e` and the old last entry. */
  lemma {:induction false} InsertSorted(sorted: seq<Entry>, e: Entry)
    requires SortedByDate(sorted)
    ensures SortedByDate(InsertByDate(sorted, e))
    ensures forall i :: 0 <= i < |InsertByDate(sorted, e)| ==>
      Key(InsertByDate(sorted, e)[i]) <= Key(e) || (|sorted| > 0 && Key(InsertByDate(sorted, e)[i]) <= Key(sorted[|sorted| - 1]))
    decreases |sorted|
  {
    var n := |sorted|;
    if n > 0 && Key(e) < Key(sorted[n - 1]) {
      var init, last := sorted[..n - 1], sorted[n - 1];
      InsertSorted(init, e);
      var front := InsertByDate(init, e);
      forall i | 0 <= i < |front| ensures Key(front[i]) <= Key(last) {
        if n > 1 {
          assert init[n - 2] == sorted[n - 2];
        }
      }
      SnocSorted(front, last);
    } else {
      SnocSorted(sorted, e);
    }
  }

  /** Appending an entry no earlier than any other keeps a list sorted, and it bounds them all. */
  lemma SnocSorted(s: seq<Entry>, x: Entry)
    requires SortedByDate(s) && forall i :: 0 <= i < |s| ==> Key(s[i]) <= Key(x)
    ensures SortedByDate(s + [x])
    ensures forall i :: 0 <= i < |s + [x]| ==> Key((s + [x])[i]) <= Key(x)
  {
  }

  /** `[...logs].sort((a, b) => date(a) - date(b))`, a stable sort. */
  function SortByDate(logs: seq<Entry>): (r: seq<Entry>)
    ensures SortedByDate(r)
    ensures multiset(r) == multiset(logs)
    ensures |r| == |logs|
    decreases |logs|
  {
    if |logs| == 0 then []
    else
      var init, e := logs[..|logs| - 1], logs[|logs| - 1];
      assert logs == init + [e];
      InsertSorted(SortByDate(init), e);
      InsertPermutes(SortByDate(init), e);
      InsertByDate(SortByDate(init), e)
  }

  /** The entries of `s` dated on day `k`, in their order in `s`. */
  function WithKey(s: seq<Entry>, k: int): seq<Entry>
    decreases |s|
  {
    if |s| == 0 then []
    else WithKey(s[..|s| - 1], k) + (if Key(s[|s| - 1]) == k then [s[|s| - 1]] else [])
  }

  /** Inserting `e` appends it to the entries of its own day and leaves every
      other day's entries as they were. */
  lemma {:induction false} InsertKeepsDayOrder(sorted: seq<Entry>, e: Entry, k: int)
    requires SortedByDate(sorted)
    ensures WithKey(InsertByDate(sorted, e), k) == WithKey(sorted, k) + (if Key(e) == k then [e] else [])
    decreases |sorted|
  {
    var n := |sorted|;
    if n == 0 || Key(sorted[n - 1]) <= Key(e) {
      var r := sorted + [e];
      assert r[..|r| - 1] == sorted;
    } else {
      var init, last := sorted[..n - 1], sorted[n - 1];
      InsertKeepsDayOrder(init, e, k);
      WithKeySnoc(InsertByDate(init, e), last, k);
      assert Key(e) < Key(last);
      SwapAroundEmpty(WithKey(init, k), if Key(e) == k then [e] else [], if Key(last) == k then [last] else []);
    }
  }

  lemma WithKeySnoc(s: seq<Entry>, x: Entry, k: int)
    ensures WithKey(s + [x], k) == WithKey(s, k) + (if Key(x) == k then [x] else [])
  {
    assert (s + [x])[..|s|] == s;
  }

  /** Two pieces, one of them empty, can be appended in either order. */
  lemma SwapAroundEmpty<T>(a: seq<T>, b: seq<T>, c: seq<T>)
    requires b == [] || c == []
    ensures a + b + c == a + c + b
  {
    if b == [] {
      assert a + b == a && a + c + b == a + c;
    } else {
      assert a + c == a && a + b + c == a + b;
    }
  }

  /** The sort is stable: the entries of any one day come out in the order
      they were logged. */
  lemma {:induction false} SortByDateIsStable(logs: seq<Entry>, k: int)
    ensures WithKey(SortByDate(logs), k) == WithKey(logs, k)
    decreases |logs|
  {
    if |logs| > 0 {
      var init, e := logs[..|logs| - 1], logs[|logs| - 1];
      SortByDateIsStable(init, k);
      InsertKeepsDayOrder(SortByDate(init), e, k);
    }
  }

  /** The position of the last entry of day `k`, or -1 when there is none. */
  function LastOfDay(s: seq<Entry>, k: int): (i: int)
    ensures -1 <= i < |s|
    ensures i >= 0 ==> Key(s[i]) == k
    ensures forall j :: i < j < |s| ==> Key(s[j]) != k
    decreases |s|
  {
    if |s| == 0 then -1
    else if Key(s[|s| - 1]) == k then |s| - 1
    else LastOfDay(s[..|s| - 1], k)
  }

  /** `LastOfDay` finds the last of the day's entries `WithKey` lists. */
  lemma {:induction false} LastOfDayEndsDay(s: seq<Entry>, k: int)
    ensures |WithKey(s, k)| > 0 <==> LastOfDay(s, k) >= 0
    ensures |WithKey(s, k)| > 0 ==> WithKey(s, k)[|WithKey(s, k)| - 1] == s[LastOfDay(s, k)]
    decreases |s|
  {
    if |s| > 0 && Key(s[|s| - 1]) != k {
      LastOfDayEndsDay(s[..|s| - 1], k);
    }
  }

  // ---------------------------------------------------------------------------
  // Statistics

  /** The parts of `stats` that are not floating-point averages. */
  datatype Stats = Stats(currentDose: Tenths, window: seq<Entry>)

  function Min(a: int, b: int): int {
    if a < b then a else b
  }

  /** `logs[i]` is dated no earlier than any other entry. */
  predicate IsLatest(logs: seq<Entry>, i: int) {
    0 <= i < |logs| && forall j :: 0 <= j < |logs| ==> Key(logs[j]) <= Key(logs[i])
  }

  /** `logs[i]` is the last-logged of the latest-dated entries. */
  predicate IsLastLatest(logs: seq<Entry>, i: int) {
    IsLatest(logs, i) && forall j :: i < j < |logs| ==> Key(logs[j]) < Key(logs[i])
  }

  lemma KeyIsChronological(a: Entry, b: Entry)
    ensures Key(a) <= Key(b) <==> OnOrBefore(a.date, b.date)
  {
    DayKeyOrder(a.date, b.date);
  }

  /** The last entry in date order is dated no earlier than any log. */
  lemma SortedLastIsLatest(logs: seq<Entry>)
    requires |logs| > 0
    ensures forall j :: 0 <= j < |logs| ==> Key(logs[j]) <= Key(SortByDate(logs)[|logs| - 1])
  {
    var sorted := SortByDate(logs);
    var n := |sorted|;
    forall j | 0 <= j < |logs| ensures Key(logs[j]) <= Key(sorted[n - 1]) {
      assert logs[j] in multiset(sorted);
      var k :| 0 <= k < n && sorted[k] == logs[j];
      if k < n - 1 {
        assert Key(sorted[k]) <= Key(sorted[n - 1]);
      }
    }
  }

  /** The last entry in date order is the last-logged of the latest-dated
      entries: the sort being stable, a later log of the same day wins. */
  lemma LastIsLatest(logs: seq<Entry>)
    requires |logs| > 0
    ensures exists i :: IsLastLatest(logs, i) && logs[i] == SortByDate(logs)[|logs| - 1]
  {
    var sorted := SortByDate(logs);
    var last := sorted[|sorted| - 1];
    var k := Key(last);
    SortedLastIsLatest(logs);
    assert WithKey(sorted, k) == WithKey(sorted[..|sorted| - 1], k) + [last];
    SortByDateIsStable(logs, k);
    LastOfDayEndsDay(logs, k);
    var i := LastOfDay(logs, k);
    assert IsLastLatest(logs, i);
  }

  /** The last `k` entries of a sorted list are a sorted part of it. */
  lemma SuffixOfSorted(sorted: seq<Entry>, k: nat)
    requires SortedByDate(sorted) && k <= |sorted|
    ensures SortedByDate(sorted[k..])
    ensures multiset(sorted[k..]) <= multiset(sorted)
    ensures forall i, j :: 0 <= i < k <= j < |sorted| ==> Key(sorted[i]) <= Key(sorted[j])
  {
    assert sorted == sorted[..k] + sorted[k..];
  }

  /** `stats`: nothing for an empty log; otherwise the dose of a latest entry
      and the last (at most) seven entries in date order, `slice(-7)`. */
  function ComputeStats(logs: seq<Entry>): (r: Option<Stats>)
    ensures r.None? <==> |logs| == 0
    ensures r.Some? ==> exists i :: IsLastLatest(logs, i) && r.value.currentDose == logs[i].lDose
    ensures r.Some? ==>
      && |r.value.window| == Min(7, |logs|)
      && SortedByDate(r.value.window)
      && multiset(r.value.window) <= multiset(logs)
  {
    if |logs| == 0 then None
    else
      var sorted := SortByDate(logs);
      var n := |sorted|;
      LastIsLatest(logs);
      SuffixOfSorted(sorted, n - Min(7, n));
      Some(Stats(sorted[n - 1].lDose, sorted[n - Min(7, n)..]))
  }

  /** The window is the tail of the date order: no entry left out of it is
      later than one kept. */
  lemma WindowIsLatest(logs: seq<Entry>)
    requires |logs| > 0
    ensures var sorted := SortByDate(logs);
      var k := |logs| - Min(7, |logs|);
      && ComputeStats(logs).value.window == sorted[k..]
      && forall i, j :: 0 <= i < k <= j < |logs| ==> OnOrBefore(sorted[i].date, sorted[j].date)
  {
    var sorted := SortByDate(logs);
    var k := |logs| - Min(7, |logs|);
    SuffixOfSorted(sorted, k);
    forall i, j | 0 <= i < k <= j < |logs| ensures OnOrBefore(sorted[i].date, sorted[j].date) {
      KeyIsChronological(sorted[i], sorted[j]);
    }
  }

  // ---------------------------------------------------------------------------
  // Monthly grouping

  datatype Group = Group(key: IsoDate, entries: seq<Entry>)

  function Flatten(groups: seq<Group>): seq<Entry> {
    if |groups| == 0 then [] else Flatten(groups[..|groups| - 1]) + groups[|groups| - 1].entries
  }

  /** Every group is non-empty and holds only entries of its own month. */
  predicate WellKeyed(groups: seq<Group>) {
    forall i :: 0 <= i < |groups| ==>
      |groups[i].entries| > 0 && forall j :: 0 <= j < |groups[i].entries| ==> MonthKey(groups[i].entries[j].date) == groups[i].key
  }

  predicate KeysAscending(groups: seq<Group>) {
    forall i, j :: 0 <= i < j < |groups| ==> Before(groups[i].key, groups[j].key)
  }

  lemma MonthKeyMonotone(a: Entry, b: Entry)
    requires Key(a) <= Key(b)
    ensures MonthKey(a.date) == MonthKey(b.date) || Before(MonthKey(a.date), MonthKey(b.date))
  {
  }

  /** `groupedByMonth`: consecutive entries of the same month form one group,
      in the order of the (date-ordered) input. */
  function GroupByMonth(sorted: seq<Entry>): (r: seq<Group>)
    ensures |sorted| > 0 ==> |r| > 0 && r[|r| - 1].key == MonthKey(sorted[|sorted| - 1].date)
    ensures |sorted| == 0 ==> r == []
    decreases |sorted|
  {
    if |sorted| == 0 then []
    else
      var e := sorted[|sorted| - 1];
      var g := GroupByMonth(sorted[..|sorted| - 1]);
      if |g| > 0 && g[|g| - 1].key == MonthKey(e.date) then
        g[..|g| - 1] + [Group(MonthKey(e.date), g[|g| - 1].entries + [e])]
      else
        g + [Group(MonthKey(e.date), [e])]
  }

  /** Appending a group appends its entries. */
  lemma {:induction false} FlattenSnoc(g: seq<Group>, x: Group)
    ensures Flatten(g + [x]) == Flatten(g) + x.entries
  {
    assert (g + [x])[..|g|] == g;
  }

  /** Adding an entry to the last group appends it to the flattened list. */
  lemma {:induction false} FlattenJoinLast(g: seq<Group>, k: IsoDate, e: Entry)
    requires |g| > 0
    ensures Flatten(g[..|g| - 1] + [Group(k, g[|g| - 1].entries + [e])]) == Flatten(g) + [e]
  {
    var front, last := g[..|g| - 1], g[|g| - 1].entries;
    FlattenSnoc(front, Group(k, last + [e]));
    assert Flatten(g) == Flatten(front) + last;
    assert Flatten(front) + (last + [e]) == (Flatten(front) + last) + [e];
  }

  /** One more entry, in either branch of the grouping, appends just that entry. */
  lemma {:induction false} GroupByMonthStep(sorted: seq<Entry>)
    requires |sorted| > 0
    ensures Flatten(GroupByMonth(sorted)) == Flatten(GroupByMonth(sorted[..|sorted| - 1])) + [sorted[|sorted| - 1]]
  {
    var e := sorted[|sorted| - 1];
    var g := GroupByMonth(sorted[..|sorted| - 1]);
    if |g| > 0 && g[|g| - 1].key == MonthKey(e.date) {
      FlattenJoinLast(g, MonthKey(e.date), e);
    } else {
      FlattenSnoc(g, Group(MonthKey(e.date), [e]));
    }
  }

  /** Reading the groups in order gives back the input: every log lands in
      exactly one group, and the order within a month is kept. */
  lemma {:induction false} GroupsFlattenToInput(sorted: seq<Entry>)
    ensures Flatten(GroupByMonth(sorted)) == sorted
    decreases |sorted|
  {
    if |sorted| > 0 {
      GroupsFlattenToInput(sorted[..|sorted| - 1]);
      GroupByMonthStep(sorted);
      SnocCloses(Flatten(GroupByMonth(sorted)), Flatten(GroupByMonth(sorted[..|sorted| - 1])), sorted);
    }
  }

  /** A list is its front with its last element put back. */
  lemma SnocCloses<T>(a: seq<T>, b: seq<T>, c: seq<T>)
    requires |c| > 0 && a == b + [c[|c| - 1]] && b == c[..|c| - 1]
    ensures a == c
  {
    assert c[..|c| - 1] + [c[|c| - 1]] == c;
  }

  /** Adding an entry of the last group's month to that group keeps the groups well keyed. */
  lemma JoinLastKeepsKeys(g: seq<Group>, e: Entry)
    requires WellKeyed(g) && |g| > 0 && g[|g| - 1].key == MonthKey(e.date)
    ensures WellKeyed(g[..|g| - 1] + [Group(MonthKey(e.date), g[|g| - 1].entries + [e])])
  {
    var r := g[..|g| - 1] + [Group(MonthKey(e.date), g[|g| - 1].entries + [e])];
    forall i | 0 <= i < |r| - 1 ensures r[i] == g[i] {
    }
  }

  /** Opening a new group for an entry keeps the groups well keyed. */
  lemma NewGroupKeepsKeys(g: seq<Group>, e: Entry)
    requires WellKeyed(g)
    ensures WellKeyed(g + [Group(MonthKey(e.date), [e])])
  {
  }

  lemma {:induction false} GroupsWellKeyed(sorted: seq<Entry>)
    ensures WellKeyed(GroupByMonth(sorted))
    decreases |sorted|
  {
    if |sorted| > 0 {
      var init, e := sorted[..|sorted| - 1], sorted[|sorted| - 1];
      GroupsWellKeyed(init);
      var g := GroupByMonth(init);
      if |g| > 0 && g[|g| - 1].key == MonthKey(e.date) {
        JoinLastKeepsKeys(g, e);
      } else {
        NewGroupKeepsKeys(g, e);
      }
    }
  }

  /** On date-ordered input the month keys strictly ascend, so no month gets two groups. */
  lemma {:induction false} GroupKeysAscend(sorted: seq<Entry>)
    requires SortedByDate(sorted)
    ensures KeysAscending(GroupByMonth(sorted))
    decreases |sorted|
  {
    var n := |sorted|;
    if n > 1 {
      var init, e := sorted[..n - 1], sorted[n - 1];
      GroupKeysAscend(init);
      var g := GroupByMonth(init);
      var r := GroupByMonth(sorted);
      MonthKeyMonotone(init[n - 2], e);
      forall i | 0 <= i < |r| - 1 ensures r[i] == g[i] {
      }
      var last := g[|g| - 1];
      assert forall i :: 0 <= i < |g| - 1 ==> Before(g[i].key, last.key);
    }
  }

  /** The monthly view's groups of the logs: read in order they are the logs in
      date order, each group holds one month's entries, and the months ascend. */
  function MonthlyGroups(logs: seq<Entry>): (r: seq<Group>)
    ensures Flatten(r) == SortByDate(logs)
    ensures WellKeyed(r)
    ensures KeysAscending(r)
    ensures |r| == 0 <==> |logs| == 0
    // the order is also that of `Object.keys(groups).sort()` on the key texts
    ensures forall i, j :: 0 <= i < j < |r| ==> LexLess(MonthKeyText(r[i].key), MonthKeyText(r[j].key))
  {
    var sorted := SortByDate(logs);
    GroupsFlattenToInput(sorted);
    GroupsWellKeyed(sorted);
    GroupKeysAscend(sorted);
    KeyTextsAscend(GroupByMonth(sorted));
    GroupByMonth(sorted)
  }

  /** Groups in date order are also in the string order of their key texts. */
  lemma KeyTextsAscend(groups: seq<Group>)
    requires WellKeyed(groups) && KeysAscending(groups)
    ensures forall i, j :: 0 <= i < j < |groups| ==> LexLess(MonthKeyText(groups[i].key), MonthKeyText(groups[j].key))
  {
    forall i, j | 0 <= i < j < |groups|
      ensures LexLess(MonthKeyText(groups[i].key), MonthKeyText(groups[j].key))
    {
      FirstOfMonthText(groups[i]);
      FirstOfMonthText(groups[j]);
      IsoOrderIsChronological(groups[i].key, groups[j].key);
    }
  }

  /** A group's key is the first of its month, so its text is its ISO form. */
  lemma FirstOfMonthText(g: Group)
    requires |g.entries| > 0 && MonthKey(g.entries[0].date) == g.key
    ensures MonthKeyText(g.key) == ToIso(g.key)
  {
    MonthKeyTextIsIso(g.key);
    assert MonthKey(g.key) == g.key;
  }

  /** Every log lands in the group of its month, and in no other. */
  lemma {:induction false} GroupOfEveryLog(groups: seq<Group>, e: Entry)
    requires WellKeyed(groups) && KeysAscending(groups)
    requires e in Flatten(groups)
    ensures exists i :: 0 <= i < |groups| && e in groups[i].entries && groups[i].key == MonthKey(e.date)
    ensures forall i :: 0 <= i < |groups| && groups[i].key != MonthKey(e.date) ==> e !in groups[i].entries
    decreases |groups|
  {
    var n := |groups|;
    var init := groups[..n - 1];
    assert forall g :: g in init ==> g in groups;
    if e in groups[n - 1].entries {
    } else {
      assert e in Flatten(init);
      GroupOfEveryLog(init, e);
      var i :| 0 <= i < |init| && e in init[i].entries && init[i].key == MonthKey(e.date);
      assert groups[i] == init[i];
    }
  }

  /** The key as the source writes it: the year unpadded, the month padded. */
  function MonthKeyText(d: IsoDate): string {
    NatToString(d.year) + "-" + Pad(d.month, 2) + "-01"
  }

  lemma {:induction false} NatToStringIsPadded(n: nat, w: nat)
    requires w >= 1 && Pow10(w - 1) <= n < Pow10(w)
    ensures NatToString(n) == Pad(n, w)
    decreases w
  {
    if w > 1 {
      var p := Pow10(w - 2);
      assert Pow10(w - 1) == 10 * p && Pow10(w) == 10 * Pow10(w - 1);
      assert p <= n / 10 < Pow10(w - 1);
      NatToStringIsPadded(n / 10, w - 1);
    } else {
      assert n / 10 == 0 && n % 10 == n;
    }
  }

  /** The key text is the `YYYY-MM-DD` form of the first of the month. */
  lemma MonthKeyTextIsIso(d: IsoDate)
    ensures MonthKeyText(d) == ToIso(MonthKey(d))
  {
    assert Pow10(3) == 1000 && Pow10(4) == 10000;
    NatToStringIsPadded(d.year, 4);
    var k := MonthKey(d);
    assert Pad(1, 2) == "01" by {
      assert Pad(0, 1) == "0";
    }
    calc {
      ToIso(k);
      Pad(d.year, 4) + "-" + Pad(d.month, 2) + "-" + "01";
      { assert Pad(d.year, 4) + "-" + Pad(d.month, 2) + "-" + "01" == Pad(d.year, 4) + "-" + Pad(d.month, 2) + "-01"; }
      MonthKeyText(d);
    }
  }

  // ---------------------------------------------------------------------------
  // CSV export

  lemma DigitsArePlainSafe(s: string)
    requires AllDigits(s)
    ensures Csv.PlainSafe(s)
  {
  }

  lemma PlainSafeConcat(a: string, b: string)
    requires Csv.PlainSafe(a) && Csv.PlainSafe(b)
    ensures Csv.PlainSafe(a + b)
  {
    forall i | 0 <= i < |a + b| ensures (a + b)[i] != ',' && (a + b)[i] != '"' && (a + b)[i] != '\n' {
      if i >= |a| {
        assert (a + b)[i] == b[i - |a|];
      }
    }
  }

  /** `String(n)` for an integer. */
  function IntText(n: int): (s: string)
    ensures Csv.PlainSafe(s)
  {
    var digits := NatToString(if n < 0 then -n else n);
    DigitsArePlainSafe(digits);
    if n < 0 then PlainSafeConcat("-", digits); "-" + digits else digits
  }

  /** `String(x)` for a number held in tenths: 5.0 is "5", 4.5 is "4.5". */
  function TenthsText(t: Tenths): (s: string)
    ensures Csv.PlainSafe(s)
  {
    var a := if t < 0 then -t else t;
    var whole := NatToString(a / 10);
    var fraction := if a % 10 == 0 then "" else "." + [DigitChar(a % 10)];
    DigitsArePlainSafe(whole);
    PlainSafeConcat(whole, fraction);
    if t < 0 then PlainSafeConcat("-", whole + fraction); "-" + whole + fraction else whole + fraction
  }

  /** Reads an integer cell back: an optional minus sign before decimal digits. */
  function ReadInt(s: string): Option<int> {
    if |s| > 1 && s[0] == '-' && AllDigits(s[1..]) then Some(-(DigitsValue(s[1..]) as int))
    else if |s| > 0 && AllDigits(s) then Some(DigitsValue(s))
    else None
  }

  /** An integer cell reads back as the number written. */
  lemma {:induction false} IntTextReadsBack(n: int)
    ensures ReadInt(IntText(n)) == Some(n)
  {
    var digits := NatToString(if n < 0 then -n else n);
    NatToStringRoundTrip(if n < 0 then -n else n);
    if n < 0 {
      assert IntText(n)[1..] == digits;
    } else {
      assert IntText(n)[0] == digits[0];
    }
  }

  /** Reads an unsigned decimal with at most one digit after the point, in tenths. */
  function UnsignedTenths(u: string): Option<nat> {
    if |u| >= 3 && u[|u| - 2] == '.' && AllDigits(u[..|u| - 2]) && IsDigit(u[|u| - 1]) then
      Some(10 * DigitsValue(u[..|u| - 2]) + DigitValue(u[|u| - 1]))
    else if |u| > 0 && AllDigits(u) then Some(10 * DigitsValue(u))
    else None
  }

  /** Reads a number cell back, in tenths. */
  function ReadTenths(s: string): Option<int> {
    if |s| > 0 && s[0] == '-' then
      (var v := UnsignedTenths(s[1..]); if v.Some? then Some(-(v.value as int)) else None)
    else
      (var v := UnsignedTenths(s); if v.Some? then Some(v.value as int) else None)
  }

  lemma {:induction false} UnsignedWholeReadsBack(w: string)
    requires |w| > 0 && AllDigits(w)
    ensures UnsignedTenths(w) == Some(10 * DigitsValue(w))
  {
    if |w| >= 3 {
      assert IsDigit(w[|w| - 2]);
    }
  }

  lemma {:induction false} UnsignedFractionReadsBack(w: string, d: char)
    requires |w| > 0 && AllDigits(w) && IsDigit(d)
    ensures UnsignedTenths(w + "." + [d]) == Some(10 * DigitsValue(w) + DigitValue(d))
  {
    var u := w + "." + [d];
    var n := |u|;
    assert n >= 3 && u[n - 2] == '.' && IsDigit(u[n - 1]) by {
      assert u[n - 2] == "."[0];
    }
    assert AllDigits(u[..n - 2]) && DigitsValue(u[..n - 2]) == DigitsValue(w) by {
      assert u[..n - 2] == w;
    }
  }

  /** The unsigned part of a dose or sleep cell reads back as its magnitude. */
  lemma {:induction false} UnsignedTenthsReadsBack(a: nat)
    ensures UnsignedTenths(NatToString(a / 10) + (if a % 10 == 0 then "" else "." + [DigitChar(a % 10)])) == Some(a)
  {
    var whole := NatToString(a / 10);
    NatToStringRoundTrip(a / 10);
    if a % 10 == 0 {
      assert whole + "" == whole;
      UnsignedWholeReadsBack(whole);
    } else {
      assert whole + ("." + [DigitChar(a % 10)]) == whole + "." + [DigitChar(a % 10)];
      UnsignedFractionReadsBack(whole, DigitChar(a % 10));
    }
  }

  lemma {:induction false} SignReadsBack(u: string, v: nat)
    requires UnsignedTenths(u) == Some(v) && |u| > 0 && IsDigit(u[0])
    ensures ReadTenths(u) == Some(v)
    ensures ReadTenths("-" + u) == Some(-(v as int))
  {
    assert ("-" + u)[1..] == u;
  }

  /** A dose or sleep cell reads back as the number written. */
  lemma {:induction false} TenthsTextReadsBack(t: Tenths)
    ensures ReadTenths(TenthsText(t)) == Some(t)
  {
    var a := if t < 0 then -t else t;
    var whole := NatToString(a / 10);
    var fraction := if a % 10 == 0 then "" else "." + [DigitChar(a % 10)];
    var u := whole + fraction;
    UnsignedTenthsReadsBack(a);
    assert u[0] == whole[0];
    SignReadsBack(u, a);
    assert TenthsText(t) == if t < 0 then "-" + u else u;
  }

  /** `log.depressionLevel || ''`: empty when absent or zero. */
  function DepressionText(level: Option<int>): (s: string)
    ensures Csv.PlainSafe(s)
    ensures s == "" <==> level.None? || level.value == 0
  {
    if level.None? || level.value == 0 then "" else IntText(level.value)
  }

  const CsvHeader: seq<string> :=
    ["Date", "Dose (mg)", "Sleep (hrs)", "Anxiety (1-10)", "Mood (1-10)", "Depression (1-10)", "Notes"]

  /** The header line's fields, written verbatim. */
  function HeaderFields(): (r: seq<Csv.Field>)
    ensures |r| == 7
    ensures forall j :: 0 <= j < 7 ==> Csv.FieldSafe(r[j]) && r[j].text == CsvHeader[j]
  {
    forall j | 0 <= j < 7 ensures Csv.PlainSafe(CsvHeader[j]) {
      if j == 0 { assert Csv.PlainSafe("Date"); }
      else if j == 1 { assert Csv.PlainSafe("Dose (mg)"); }
      else if j == 2 { assert Csv.PlainSafe("Sleep (hrs)"); }
      else if j == 3 { assert Csv.PlainSafe("Anxiety (1-10)"); }
      else if j == 4 { assert Csv.PlainSafe("Mood (1-10)"); }
      else if j == 5 { assert Csv.PlainSafe("Depression (1-10)"); }
      else { assert Csv.PlainSafe("Notes"); }
    }
    seq(7, j requires 0 <= j < 7 => Csv.Plain(CsvHeader[j]))
  }

  lemma IsoIsPlainSafe(d: IsoDate)
    ensures Csv.PlainSafe(ToIso(d))
  {
    var s := ToIso(d);
    forall i | 0 <= i < |s| ensures s[i] != ',' && s[i] != '"' && s[i] != '\n' {
      assert s == Pad(d.year, 4) + "-" + Pad(d.month, 2) + "-" + Pad(d.day, 2);
      if i < 4 {
        assert s[i] == Pad(d.year, 4)[i];
      } else if 4 < i < 7 {
        assert s[i] == Pad(d.month, 2)[i - 5];
      } else if 7 < i {
        assert s[i] == Pad(d.day, 2)[i - 8];
      }
    }
  }

  /** The seven cells of a log's row; only the note is quoted. */
  function RowFields(log: Entry): (r: seq<Csv.Field>)
    ensures |r| == 7
    ensures forall j :: 0 <= j < 7 ==> Csv.FieldSafe(r[j])
    ensures r[0] == Csv.Plain(ToIso(log.date))
    ensures r[6] == Csv.Quoted(log.dailyNote.GetOr(""))
  {
    IsoIsPlainSafe(log.date);
    var date, dose, sleep := ToIso(log.date), TenthsText(log.lDose), TenthsText(log.sleepHrs);
    var anxiety, mood, depression := IntText(log.anxietyLevel), IntText(log.moodLevel), DepressionText(log.depressionLevel);
    var r := [ Csv.Plain(date), Csv.Plain(dose), Csv.Plain(sleep), Csv.Plain(anxiety),
               Csv.Plain(mood), Csv.Plain(depression), Csv.Quoted(log.dailyNote.GetOr("")) ];
    SevenSafe(r);
    r
  }

  lemma SevenSafe(r: seq<Csv.Field>)
    requires |r| == 7 && Csv.FieldSafe(r[0]) && Csv.FieldSafe(r[1]) && Csv.FieldSafe(r[2]) && Csv.FieldSafe(r[3])
    requires Csv.FieldSafe(r[4]) && Csv.FieldSafe(r[5]) && Csv.FieldSafe(r[6])
    ensures forall j :: 0 <= j < 7 ==> Csv.FieldSafe(r[j])
  {
  }

  function CsvRows(sorted: seq<Entry>): (r: seq<seq<Csv.Field>>)
    ensures |r| == |sorted|
    ensures forall i :: 0 <= i < |sorted| ==> r[i] == RowFields(sorted[i])
  {
    seq(|sorted|, i requires 0 <= i < |sorted| => RowFields(sorted[i]))
  }

  /** The text `downloadCSV` writes to the file; nothing for an empty log. */
  function ExportCsv(logs: seq<Entry>): (r: Option<string>)
    ensures r.None? <==> |logs| == 0
  {
    if |logs| == 0 then None
    else Some(Csv.RenderTable([HeaderFields()] + CsvRows(SortByDate(logs))))
  }

  lemma ExportRowsSafe(sorted: seq<Entry>)
    ensures Csv.RowsSafe([HeaderFields()] + CsvRows(sorted))
  {
    var rows := [HeaderFields()] + CsvRows(sorted);
    forall i | 0 <= i < |rows|
      ensures |rows[i]| > 0 && forall j :: 0 <= j < |rows[i]| ==> Csv.FieldSafe(rows[i][j])
    {
      if i > 0 {
        assert rows[i] == RowFields(sorted[i - 1]);
      }
    }
  }

  lemma HeaderTexts()
    ensures Csv.Texts(HeaderFields()) == CsvHeader
  {
  }

  /** Reading the export back gives the 7-column header, then exactly one
      7-field row per log in date order, whose first field is the log's date
      and whose last field is the log's note exactly as written, whatever
      quotes, commas or line breaks it holds. */
  lemma ExportReadsBack(logs: seq<Entry>)
    requires |logs| > 0
    ensures Csv.ParseTable(ExportCsv(logs).value).Some?
    ensures var t := Csv.ParseTable(ExportCsv(logs).value).value;
      var sorted := SortByDate(logs);
      && |t| == |logs| + 1
      && t[0] == CsvHeader
      && forall i :: 0 <= i < |logs| ==>
           t[i + 1] ==
             [ ToIso(sorted[i].date), TenthsText(sorted[i].lDose), TenthsText(sorted[i].sleepHrs),
               IntText(sorted[i].anxietyLevel), IntText(sorted[i].moodLevel),
               DepressionText(sorted[i].depressionLevel), sorted[i].dailyNote.GetOr("") ]
  {
    var sorted := SortByDate(logs);
    ExportParses(logs);
    var t := Csv.ParseTable(ExportCsv(logs).value).value;
    forall i | 0 <= i < |logs|
      ensures t[i + 1] ==
        [ ToIso(sorted[i].date), TenthsText(sorted[i].lDose), TenthsText(sorted[i].sleepHrs),
          IntText(sorted[i].anxietyLevel), IntText(sorted[i].moodLevel),
          DepressionText(sorted[i].depressionLevel), sorted[i].dailyNote.GetOr("") ]
    {
      ExportRowReadsBack(sorted, i);
    }
  }

  /** The export parses back to the texts of the header and rows written. */
  lemma ExportParses(logs: seq<Entry>)
    requires |logs| > 0
    ensures Csv.ParseTable(ExportCsv(logs).value) == Some(Csv.TableTexts([HeaderFields()] + CsvRows(SortByDate(logs))))
    ensures Csv.TableTexts([HeaderFields()] + CsvRows(SortByDate(logs)))[0] == CsvHeader
    ensures |Csv.TableTexts([HeaderFields()] + CsvRows(SortByDate(logs)))| == |logs| + 1
  {
    var rows := [HeaderFields()] + CsvRows(SortByDate(logs));
    ExportRowsSafe(SortByDate(logs));
    Csv.ParseRenderRoundTrip(rows);
    HeaderTexts();
  }

  lemma ExportRowReadsBack(sorted: seq<Entry>, i: int)
    requires 0 <= i < |sorted|
    ensures Csv.TableTexts([HeaderFields()] + CsvRows(sorted))[i + 1] ==
      [ ToIso(sorted[i].date), TenthsText(sorted[i].lDose), TenthsText(sorted[i].sleepHrs),
        IntText(sorted[i].anxietyLevel), IntText(sorted[i].moodLevel),
        DepressionText(sorted[i].depressionLevel), sorted[i].dailyNote.GetOr("") ]
  {
    var rows := [HeaderFields()] + CsvRows(sorted);
    assert rows[i + 1] == RowFields(sorted[i]);
    RowTexts(sorted[i]);
  }

  /** The seven texts one row holds are the log's date, doses, levels and note. */
  lemma RowTexts(log: Entry)
    ensures Csv.Texts(RowFields(log)) ==
      [ ToIso(log.date), TenthsText(log.lDose), TenthsText(log.sleepHrs), IntText(log.anxietyLevel),
        IntText(log.moodLevel), DepressionText(log.depressionLevel), log.dailyNote.GetOr("") ]
  {
  }

  // ---------------------------------------------------------------------------
  // Brain-zap label

  /** `['None', 'Mild', 'Mod', 'Severe'][log.brainZapLevel || 0]`; `None` where
      the index falls outside the array (the source shows `undefined`). */
  function BrainZapLabel(level: Option<int>): (r: Option<string>)
    ensures r.Some? <==> level.None? || 0 <= level.value <= 3
    ensures r == Some("None") <==> level.None? || level.value == 0
    ensures level.Some? && 0 <= level.value <= 3 ==> r.value == ["None", "Mild", "Mod", "Severe"][level.value]
  {
    var index := if level.None? then 0 else level.value;
    if 0 <= index <= 3 then Some(["None", "Mild", "Mod", "Severe"][index]) else None
  }
}
