/**
 The growth chart's numbers (public/js/board.js, buildActivitySeries and bucketActivityRows): per
 source series grouped into at most five, then days bucketed into weeks or averaged.
 */
module Activity {
  import opened Options
  import opened RealGeometry

  const TOP := 4
  const WEEK := 7

  /** One source's captures per day; the series of all the smaller sources together has no source. */
  datatype Series = Series(source: Option<string>, counts: seq<nat>)

  type Row = seq<nat>

  function At(counts: seq<nat>, i: nat): nat {
    if i < |counts| then counts[i] else 0
  }

  /** All captures of a day. */
  function DayTotal(series: seq<Series>, i: nat): nat {
    if series == [] then 0 else DayTotal(series[..|series| - 1], i) + At(series[|series| - 1].counts, i)
  }

  lemma {:induction false} DayTotalOfConcat(a: seq<Series>, b: seq<Series>, i: nat)
    ensures DayTotal(a + b, i) == DayTotal(a, i) + DayTotal(b, i)
  {
    if b == [] {
      assert a + b == a;
    } else {
      var last := |b| - 1;
      assert (a + b)[..|a + b| - 1] == a + b[..last];
      DayTotalOfConcat(a, b[..last], i);
    }
  }

  method AddCounts(sums: seq<nat>, counts: seq<nat>) returns (more: seq<nat>)
    requires |counts| <= |sums|
    ensures |more| == |sums| && forall i :: 0 <= i < |sums| ==> more[i] == sums[i] + At(counts, i)
  {
    more := sums;
    for i := 0 to |counts|
      invariant |more| == |sums|
      invariant forall j :: 0 <= j < |sums| ==> more[j] == sums[j] + if j < i then counts[j] else 0
    {
      more := more[i := more[i] + counts[i]];
    }
  }

  /** The four largest sources stay as they are and no capture of any day is lost to the fifth series. */
  method BuildActivitySeries(series: seq<Series>, days: nat) returns (defs: seq<Series>)
    requires forall k :: TOP <= k < |series| ==> |series[k].counts| <= days
    ensures |series| <= TOP ==> defs == series
    ensures |series| > TOP ==> |defs| == TOP + 1 && defs[..TOP] == series[..TOP] && defs[TOP].source == None
    ensures |series| > TOP ==> |defs[TOP].counts| == days && forall i :: 0 <= i < days ==> defs[TOP].counts[i] == DayTotal(series[TOP..], i)
    ensures forall i :: 0 <= i < days ==> DayTotal(defs, i) == DayTotal(series, i)
  {
    if |series| <= TOP {
      defs := series;
      return;
    }
    var top, rest := series[..TOP], series[TOP..];
    var other: seq<nat> := seq(days, _ => 0);
    for k := 0 to |rest|
      invariant |other| == days
      invariant forall i :: 0 <= i < days ==> other[i] == DayTotal(rest[..k], i)
    {
      assert rest[..k + 1][..k] == rest[..k];
      other := AddCounts(other, rest[k].counts);
    }
    assert rest[..|rest|] == rest && top + rest == series;
    var fifth := Series(None, other);
    defs := top + [fifth];
    forall i | 0 <= i < days ensures DayTotal(defs, i) == DayTotal(series, i) {
      DayTotalOfConcat(top, rest, i);
      DayTotalOfConcat(top, [fifth], i);
      assert DayTotal([fifth], i) == DayTotal([], i) + other[i];
    }
  }

  // ── Sums of a column ──────────────────────────────────────────────────────

  ghost predicate IsTable(rows: seq<Row>, width: nat) {
    forall i :: 0 <= i < |rows| ==> |rows[i]| == width
  }

  function Sum(rows: seq<Row>, k: nat): nat
    requires forall i :: 0 <= i < |rows| ==> k < |rows[i]|
  {
    if rows == [] then 0 else Sum(rows[..|rows| - 1], k) + rows[|rows| - 1][k]
  }

  lemma {:induction false} SumOfConcat(a: seq<Row>, b: seq<Row>, k: nat)
    requires forall i :: 0 <= i < |a| ==> k < |a[i]|
    requires forall i :: 0 <= i < |b| ==> k < |b[i]|
    ensures Sum(a + b, k) == Sum(a, k) + Sum(b, k)
  {
    if b == [] {
      assert a + b == a;
    } else {
      var last := |b| - 1;
      assert (a + b)[..|a + b| - 1] == a + b[..last];
      SumOfConcat(a, b[..last], k);
    }
  }

  method SumRows(rows: seq<Row>, width: nat) returns (sums: Row)
    requires IsTable(rows, width)
    ensures |sums| == width && forall k :: 0 <= k < width ==> sums[k] == Sum(rows, k)
  {
    sums := [];
    for k := 0 to width
      invariant |sums| == k && forall j :: 0 <= j < k ==> sums[j] == Sum(rows, j)
    {
      var acc := 0;
      for i := 0 to |rows|
        invariant acc == Sum(rows[..i], k)
      {
        assert rows[..i + 1][..i] == rows[..i];
        acc := acc + rows[i][k];
      }
      assert rows[..|rows|] == rows;
      sums := sums + [acc];
    }
  }

  // ── Weeks ─────────────────────────────────────────────────────────────────

  function Weeks(days: nat): nat {
    (days + WEEK - 1) / WEEK
  }

  /** Weeks are counted back from the last day, so only the first can be short. */
  function WeekEnd(days: nat, b: nat): int {
    days - WEEK * (Weeks(days) - 1 - b)
  }

  function WeekStart(days: nat, b: nat): int {
    if WeekEnd(days, b) < WEEK then 0 else WeekEnd(days, b) - WEEK
  }

  /** The weeks follow one another from the first day to the last, each but the first of seven days. */
  lemma WeeksPartitionDays(days: nat, b: nat)
    requires b < Weeks(days)
    ensures 0 <= WeekStart(days, b) < WeekEnd(days, b) <= days
    ensures b == 0 ==> WeekStart(days, b) == 0
    ensures b > 0 ==> WeekStart(days, b) == WeekEnd(days, b - 1) && WeekEnd(days, b) - WeekStart(days, b) == WEEK
    ensures b == Weeks(days) - 1 ==> WeekEnd(days, b) == days
  {
  }

  /** The row holds the sums of the b-th week. */
  ghost predicate IsWeek(rows: seq<Row>, width: nat, b: int, row: Row)
    requires IsTable(rows, width)
  {
    && 0 <= b < Weeks(|rows|) && 0 <= WeekStart(|rows|, b) <= WeekEnd(|rows|, b) <= |rows|
    && |row| == width && forall k :: 0 <= k < width ==> row[k] == Sum(rows[WeekStart(|rows|, b)..WeekEnd(|rows|, b)], k)
  }

  /** The rows hold the sums of the weeks from the b-th on. */
  ghost predicate AreWeeks(rows: seq<Row>, width: nat, b: int, weeks: seq<Row>)
    requires IsTable(rows, width)
  {
    forall j :: 0 <= j < |weeks| ==> IsWeek(rows, width, b + j, weeks[j])
  }

  ghost predicate SameSums(a: seq<Row>, b: seq<Row>, width: nat)
    requires IsTable(a, width) && IsTable(b, width)
  {
    forall k :: 0 <= k < width ==> Sum(a, k) == Sum(b, k)
  }

  lemma OneWeekEarlier(rows: seq<Row>, width: nat, b: int, weeks: seq<Row>, sums: Row)
    requires IsTable(rows, width) && AreWeeks(rows, width, b, weeks) && IsWeek(rows, width, b - 1, sums)
    ensures AreWeeks(rows, width, b - 1, [sums] + weeks)
  {
    hide IsWeek;
    forall j | 0 <= j < 1 + |weeks| ensures IsWeek(rows, width, b - 1 + j, ([sums] + weeks)[j]) {
      if j > 0 {
        assert IsWeek(rows, width, b + (j - 1), weeks[j - 1]);
      }
    }
  }

  lemma OneMoreWeek(sums: Row, weeks: seq<Row>, rows: seq<Row>, from: nat, i: nat, width: nat)
    requires IsTable(weeks, width) && IsTable(rows, width) && |sums| == width && from <= i <= |rows|
    requires forall k :: 0 <= k < width ==> sums[k] == Sum(rows[from..i], k)
    requires SameSums(weeks, rows[i..], width)
    ensures IsTable([sums] + weeks, width) && SameSums([sums] + weeks, rows[from..], width)
  {
    assert rows[from..] == rows[from..i] + rows[i..];
    forall k | 0 <= k < width ensures Sum([sums] + weeks, k) == Sum(rows[from..], k) {
      SumOfConcat([sums], weeks, k);
      SumOfConcat(rows[from..i], rows[i..], k);
      assert Sum([sums], k) == Sum([], k) + sums[k];
    }
  }

  lemma SliceIsTable(rows: seq<Row>, width: nat, from: nat, i: nat)
    requires IsTable(rows, width) && from <= i <= |rows|
    ensures IsTable(rows[from..i], width) && IsTable(rows[from..], width)
  {
  }

  method BucketByWeek(rows: seq<Row>, width: nat) returns (weeks: seq<Row>)
    requires IsTable(rows, width)
    ensures |weeks| == Weeks(|rows|) && IsTable(weeks, width) && AreWeeks(rows, width, 0, weeks)
    ensures SameSums(weeks, rows, width)
  {
    weeks := [];
    var n := |rows|;
    var i := n;
    ghost var b := Weeks(n);
    assert rows[n..] == [];
    hide Weeks, WeekStart, WeekEnd, Sum, AreWeeks, SameSums;
    assert SameSums([], [], width);
    while i > 0
      invariant 0 <= b <= Weeks(n) && |weeks| == Weeks(n) - b && IsTable(weeks, width)
      invariant 0 <= i <= n && WeekBoundary(n, b) == i && IsTable(rows[i..], width)
      invariant AreWeeks(rows, width, b, weeks) && SameSums(weeks, rows[i..], width)
    {
      BoundaryStep(n, b);
      var from := if i < WEEK then 0 else i - WEEK;
      SliceIsTable(rows, width, from, i);
      var sums := SumRows(rows[from..i], width);
      OneMoreWeek(sums, weeks, rows, from, i, width);
      assert IsWeek(rows, width, b - 1, sums);
      OneWeekEarlier(rows, width, b, weeks, sums);
      weeks := [sums] + weeks;
      b := b - 1;
      i := from;
    }
    BoundaryStep(n, b);
    assert rows[0..] == rows;
  }

  /** Where the b-th week begins; the last week ends where one more would begin. */
  function WeekBoundary(days: nat, b: nat): int {
    if b == Weeks(days) then days else WeekStart(days, b)
  }

  lemma BoundaryStep(days: nat, b: nat)
    requires b <= Weeks(days)
    ensures var i := WeekBoundary(days, b);
      && 0 <= i && (b > 0 <==> i > 0)
      && (b > 0 ==> WeekEnd(days, b - 1) == i && WeekBoundary(days, b - 1) == WeekStart(days, b - 1) == if i < WEEK then 0 else i - WEEK)
  {
  }

  // ── The centred average ───────────────────────────────────────────────────

  function WindowStart(i: nat): nat {
    if i < 3 then 0 else i - 3
  }

  function WindowEnd(n: nat, i: nat): nat
    requires i < n
  {
    if i + 4 > n then n else i + 4
  }

  /** A sum lies between its length times its least and its length times its greatest term. */
  lemma {:induction false} SumIsBounded(rows: seq<Row>, k: nat) returns (low: nat, high: nat)
    requires rows != [] && forall i :: 0 <= i < |rows| ==> k < |rows[i]|
    ensures low < |rows| && high < |rows|
    ensures |rows| * rows[low][k] <= Sum(rows, k) <= |rows| * rows[high][k]
    ensures forall i :: 0 <= i < |rows| ==> rows[low][k] <= rows[i][k] <= rows[high][k]
  {
    var last := |rows| - 1;
    if last == 0 {
      low, high := 0, 0;
      assert Sum(rows, k) == Sum(rows[..0], k) + rows[0][k];
    } else {
      low, high := SumIsBounded(rows[..last], k);
      var x := rows[last][k];
      TimesGrows(last, if x < rows[low][k] then x else rows[low][k], rows[low][k]);
      TimesGrows(last, rows[high][k], if x > rows[high][k] then x else rows[high][k]);
      if x < rows[low][k] { low := last; }
      if x > rows[high][k] { high := last; }
    }
  }

  lemma TimesGrows(n: nat, a: nat, b: nat)
    requires a <= b
    ensures n * a <= n * b
    ensures (n + 1) * a == n * a + a && (n + 1) * b == n * b + b
  {
  }

  /** Each average lies between the least and the greatest count of its window. */
  method MovingAverage(rows: seq<Row>, width: nat) returns (means: seq<seq<real>>)
    requires IsTable(rows, width)
    ensures |means| == |rows| && forall i :: 0 <= i < |rows| ==> |means[i]| == width
    ensures forall i, k :: 0 <= i < |rows| && 0 <= k < width ==>
      IsMeanOf(means[i][k], rows[WindowStart(i)..WindowEnd(|rows|, i)], k)
  {
    means := [];
    for i := 0 to |rows|
      invariant |means| == i && forall j :: 0 <= j < i ==> |means[j]| == width
      invariant forall j, k :: 0 <= j < i && 0 <= k < width ==>
        IsMeanOf(means[j][k], rows[WindowStart(j)..WindowEnd(|rows|, j)], k)
    {
      var window := rows[WindowStart(i)..WindowEnd(|rows|, i)];
      var sums := SumRows(window, width);
      var mean: seq<real> := [];
      for k := 0 to width
        invariant |mean| == k && forall j :: 0 <= j < k ==> IsMeanOf(mean[j], window, j)
      {
        mean := mean + [sums[k] as real / |window| as real];
      }
      means := means + [mean];
    }
  }

  ghost predicate IsMeanOf(mean: real, window: seq<Row>, k: nat) {
    window != [] && (forall i :: 0 <= i < |window| ==> k < |window[i]|) && mean == Sum(window, k) as real / |window| as real
  }

  lemma MeanIsBetween(mean: real, window: seq<Row>, k: nat) returns (low: nat, high: nat)
    requires IsMeanOf(mean, window, k)
    ensures low < |window| && high < |window|
    ensures window[low][k] as real <= mean <= window[high][k] as real
    ensures forall i :: 0 <= i < |window| ==> window[low][k] <= window[i][k] <= window[high][k]
  {
    low, high := SumIsBounded(window, k);
    QuotientIsBetween(Sum(window, k), |window|, window[low][k], window[high][k]);
  }

  lemma QuotientIsBetween(sum: nat, n: nat, low: nat, high: nat)
    requires n > 0 && n * low <= sum <= n * high
    ensures low as real <= sum as real / n as real <= high as real
  {
    var m, s := n as real, sum as real;
    assert m * low as real == (n * low) as real && m * high as real == (n * high) as real;
    QuotientOrder(m, low as real, s);
    QuotientOrder(m, high as real, s);
  }

  lemma QuotientOrder(m: real, x: real, s: real)
    requires m > 0.0
    ensures m * x <= s ==> x <= s / m
    ensures m * x >= s ==> x >= s / m
  {
    var q := s / m;
    assert m * q == s;
    if m * x <= s {
      assert m * (q - x) == m * q - m * x;
      FactorNonNegative(m, q - x);
    }
    if m * x >= s {
      assert m * (x - q) == m * x - m * q;
      FactorNonNegative(m, x - q);
    }
  }

  // ── From series to weeks ──────────────────────────────────────────────────

  /** One row a day, with every series' count of that day. */
  function RowsOf(defs: seq<Series>, days: nat): seq<Row> {
    seq(days, i requires 0 <= i < days => RowOf(defs, i))
  }

  function RowOf(defs: seq<Series>, i: nat): Row {
    seq(|defs|, k requires 0 <= k < |defs| => At(defs[k].counts, i))
  }

  /** The captures of one series over all days. */
  function SeriesTotal(s: Series, days: nat): nat {
    if days == 0 then 0 else SeriesTotal(s, days - 1) + At(s.counts, days - 1)
  }

  /** All captures of all days. */
  function Captures(series: seq<Series>, days: nat): nat {
    if days == 0 then 0 else Captures(series, days - 1) + DayTotal(series, days - 1)
  }

  function RowTotal(row: Row): nat {
    if row == [] then 0 else RowTotal(row[..|row| - 1]) + row[|row| - 1]
  }

  /** The total of a table. */
  function GrandTotal(rows: seq<Row>): nat {
    if rows == [] then 0 else GrandTotal(rows[..|rows| - 1]) + RowTotal(rows[|rows| - 1])
  }

  /** The sums of the first columns, added up. */
  function ColumnTotals(rows: seq<Row>, width: nat): nat
    requires forall i :: 0 <= i < |rows| ==> width <= |rows[i]|
  {
    if width == 0 then 0 else ColumnTotals(rows, width - 1) + Sum(rows, width - 1)
  }

  lemma {:induction false} ColumnsOfNone(width: nat)
    ensures ColumnTotals([], width) == 0
  {
    if width > 0 {
      ColumnsOfNone(width - 1);
    }
  }

  lemma {:induction false} ColumnsOfOneMore(rows: seq<Row>, row: Row, width: nat)
    requires width <= |row| && forall i :: 0 <= i < |rows| ==> width <= |rows[i]|
    ensures ColumnTotals(rows + [row], width) == ColumnTotals(rows, width) + RowTotal(row[..width])
  {
    if width > 0 {
      ColumnsOfOneMore(rows, row, width - 1);
      assert (rows + [row])[..|rows|] == rows;
      assert row[..width][..width - 1] == row[..width - 1];
    }
  }

  /** A table's total is the same by rows and by columns. */
  lemma {:induction false} TotalByColumns(rows: seq<Row>, width: nat)
    requires IsTable(rows, width)
    ensures GrandTotal(rows) == ColumnTotals(rows, width)
  {
    if rows == [] {
      ColumnsOfNone(width);
    } else {
      var last := |rows| - 1;
      TotalByColumns(rows[..last], width);
      ColumnsOfOneMore(rows[..last], rows[last], width);
      assert rows[..last] + [rows[last]] == rows && rows[last][..width] == rows[last];
    }
  }

  lemma {:induction false} SameColumns(a: seq<Row>, b: seq<Row>, width: nat, k: nat)
    requires IsTable(a, width) && IsTable(b, width) && SameSums(a, b, width) && k <= width
    ensures ColumnTotals(a, k) == ColumnTotals(b, k)
  {
    if k > 0 {
      SameColumns(a, b, width, k - 1);
    }
  }

  lemma {:induction false} RowTotalIsDayTotal(defs: seq<Series>, i: nat)
    ensures RowTotal(RowOf(defs, i)) == DayTotal(defs, i)
  {
    if defs != [] {
      RowTotalIsDayTotal(defs[..|defs| - 1], i);
      assert RowOf(defs, i)[..|defs| - 1] == RowOf(defs[..|defs| - 1], i);
    }
  }

  lemma {:induction false} RowsTotal(defs: seq<Series>, days: nat)
    ensures GrandTotal(RowsOf(defs, days)) == Captures(defs, days)
  {
    if days > 0 {
      RowsTotal(defs, days - 1);
      RowTotalIsDayTotal(defs, days - 1);
      assert RowsOf(defs, days)[..days - 1] == RowsOf(defs, days - 1);
    }
  }

  lemma {:induction false} ColumnIsSeries(defs: seq<Series>, days: nat, k: nat)
    requires k < |defs|
    ensures Sum(RowsOf(defs, days), k) == SeriesTotal(defs[k], days)
  {
    if days > 0 {
      ColumnIsSeries(defs, days - 1, k);
      assert RowsOf(defs, days)[..days - 1] == RowsOf(defs, days - 1);
    }
  }

  lemma {:induction false} SameDaysSameCaptures(a: seq<Series>, b: seq<Series>, days: nat)
    requires forall i :: 0 <= i < days ==> DayTotal(a, i) == DayTotal(b, i)
    ensures Captures(a, days) == Captures(b, days)
  {
    if days > 0 {
      SameDaysSameCaptures(a, b, days - 1);
    }
  }

  lemma {:induction false} RestIsOneSeries(fifth: Series, rest: seq<Series>, days: nat)
    requires days <= |fifth.counts| && forall i :: 0 <= i < days ==> fifth.counts[i] == DayTotal(rest, i)
    ensures SeriesTotal(fifth, days) == Captures(rest, days)
  {
    if days > 0 {
      RestIsOneSeries(fifth, rest, days - 1);
    }
  }

  method BuildRows(defs: seq<Series>, days: nat) returns (rows: seq<Row>)
    ensures rows == RowsOf(defs, days)
  {
    rows := [];
    for i := 0 to days
      invariant rows == RowsOf(defs, i)
    {
      var row: Row := [];
      for k := 0 to |defs|
        invariant row == RowOf(defs, i)[..k]
      {
        row := row + [At(defs[k].counts, i)];
      }
      assert RowOf(defs, i)[..|defs|] == RowOf(defs, i);
      rows := rows + [row];
    }
  }

  lemma WeeksConserve(defs: seq<Series>, days: nat, weeks: seq<Row>)
    requires IsTable(weeks, |defs|) && IsTable(RowsOf(defs, days), |defs|) && SameSums(weeks, RowsOf(defs, days), |defs|)
    ensures GrandTotal(weeks) == Captures(defs, days)
    ensures forall k :: 0 <= k < |defs| ==> Sum(weeks, k) == SeriesTotal(defs[k], days)
  {
    var rows := RowsOf(defs, days);
    RowsTotal(defs, days);
    TotalByColumns(weeks, |defs|);
    TotalByColumns(rows, |defs|);
    SameColumns(weeks, rows, |defs|, |defs|);
    forall k | 0 <= k < |defs| ensures Sum(weeks, k) == SeriesTotal(defs[k], days) {
      ColumnIsSeries(defs, days, k);
    }
  }

  /**
   The chart's weeks, from the sources' series: their total is that of all sources over all days,
   and every series that is kept has its own total.
   */
  method WeeksOfSeries(series: seq<Series>, days: nat) returns (weeks: seq<Row>, defs: seq<Series>)
    requires forall k :: TOP <= k < |series| ==> |series[k].counts| <= days
    ensures |weeks| == Weeks(days) && IsTable(weeks, |defs|)
    ensures |defs| == if |series| <= TOP then |series| else TOP + 1
    ensures GrandTotal(weeks) == Captures(series, days)
    ensures forall k :: 0 <= k < |series| && k < TOP ==> Sum(weeks, k) == SeriesTotal(series[k], days)
    ensures |series| > TOP ==> Sum(weeks, TOP) == Captures(series[TOP..], days)
  {
    defs := BuildActivitySeries(series, days);
    var rows := BuildRows(defs, days);
    weeks := BucketByWeek(rows, |defs|);
    WeeksConserve(defs, days, weeks);
    SameDaysSameCaptures(defs, series, days);
    if |series| > TOP {
      assert forall k :: 0 <= k < TOP ==> defs[k] == defs[..TOP][k] && series[..TOP][k] == series[k];
      RestIsOneSeries(defs[TOP], series[TOP..], days);
    }
  }

  predicate IsInWindow(n: nat, i: nat, j: int)
    requires i < n
  {
    WindowStart(i) <= j < WindowEnd(n, i)
  }

  /** A day's window is the days at most three away from it, so seven days wherever there are as many. */
  lemma WindowIsWeek(n: nat, i: nat)
    requires i < n
    ensures forall j :: IsInWindow(n, i, j) <==> 0 <= j < n && -3 <= j - i <= 3
    ensures 3 <= i && i + 3 < n ==> WindowEnd(n, i) - WindowStart(i) == 7
  {
  }

  lemma {:induction false} SumOfStretch(rows: seq<Row>, from: nat, k: nat, sums: seq<nat>)
    requires from + |sums| <= |rows| + 1 && |sums| >= 1 && sums[0] == 0
    requires forall i :: 0 <= i < |rows| ==> k < |rows[i]|
    requires forall j :: 1 <= j < |sums| ==> sums[j] == sums[j - 1] + rows[from + j - 1][k]
    ensures Sum(rows[from..from + |sums| - 1], k) == sums[|sums| - 1]
  {
    if |sums| > 1 {
      var last := |sums| - 1;
      SumOfStretch(rows, from, k, sums[..last]);
      assert rows[from..from + last][..last - 1] == rows[from..from + last - 1];
    }
  }

  /** Away from the ends an average is a seventh of the day's count and the three on either side. */
  lemma MeanIsOfSevenDays(rows: seq<Row>, i: nat, k: nat, mean: real)
    requires 3 <= i && i + 3 < |rows| && forall j :: 0 <= j < |rows| ==> k < |rows[j]|
    requires IsMeanOf(mean, rows[WindowStart(i)..WindowEnd(|rows|, i)], k)
    ensures 7.0 * mean == (rows[i - 3][k] + rows[i - 2][k] + rows[i - 1][k] + rows[i][k] + rows[i + 1][k] + rows[i + 2][k] + rows[i + 3][k]) as real
  {
    var a, b, c := rows[i - 3][k], rows[i - 2][k], rows[i - 1][k];
    var d := rows[i][k];
    var e, f, g := rows[i + 1][k], rows[i + 2][k], rows[i + 3][k];
    var abcd := a + b + c + d;
    SumOfStretch(rows, i - 3, k, [0, a, a + b, a + b + c, abcd, abcd + e, abcd + e + f, abcd + e + f + g]);
  }
}
