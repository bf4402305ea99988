/** The per-day view of the log: the table grouped by calendar day (availability,
    mean latency, request count), the SLO flag of each day, each day's 95th
    percentile latency merged into the table, and the day with the highest p95. */
module Daily {
  import opened SeqMath
  import opened Requests
  import opened Percentile

  datatype Option<T> = None | Some(value: T)

  /** The availability a day must reach for its SLO to be met. */
  const SloTarget: real := 90.0

  /** One line of the grouped table. */
  datatype DaySummary = DaySummary(day: int, availability: real, meanLatency: real, requests: nat)

  /** One line of the per-day p95 table. */
  datatype DayP95 = DayP95(day: int, p95: real)

  /** A line of the grouped table after the p95 column is merged in; `None`
      stands for the missing value a left join leaves when the day has no p95. */
  datatype DayReport = DayReport(day: int, availability: real, meanLatency: real, requests: nat, p95: Option<real>)

  /** The day column, in row order. */
  function Days(rows: seq<Row>): (ds: seq<int>)
  {
    seq(|rows|, i requires 0 <= i < |rows| => rows[i].day)
  }

  /** The rows of day `d` in their original order: one group of the group-by. */
  function DayRows(rows: seq<Row>, d: int): (g: seq<Row>)
    ensures |g| == Count(Days(rows), d)
    ensures forall r :: r in g <==> r in rows && r.day == d
  {
    var mask := Matches(Days(rows), d);
    var g := Select(rows, mask);
    SelectKeeps(rows, mask);
    assert forall r :: r in rows && r.day == d ==> r in g by {
      forall r | r in rows && r.day == d ensures r in g {
        var i :| 0 <= i < |rows| && rows[i] == r;
        assert mask[i];
      }
    }
    g
  }

  /** Grouping a concatenated log takes each part's rows of the day, in order. */
  lemma DayRowsAppend(a: seq<Row>, b: seq<Row>, d: int)
    ensures DayRows(a + b, d) == DayRows(a, d) + DayRows(b, d)
  {
    var ma, mb := Matches(Days(a), d), Matches(Days(b), d);
    assert Matches(Days(a + b), d) == ma + mb;
    SelectAppend(a, ma, b, mb);
  }

  /** A single row forms its own day's group and no other. Together with
      `DayRowsAppend` this fixes the group of every log, row by row. */
  lemma DayRowsOfOne(r: Row, d: int)
    ensures DayRows([r], d) == if r.day == d then [r] else []
  {
    assert Matches(Days([r]), d) == [r.day == d];
  }

  /** The latencies of day `d`. */
  function DayLatencies(rows: seq<Row>, d: int): (ls: seq<int>)
    requires d in Days(rows)
    ensures ls != []
  {
    Latencies(DayRows(rows, d))
  }

  /** The line of the grouped table for day `d`. */
  function SummaryOf(rows: seq<Row>, d: int): (s: DaySummary)
    requires d in Days(rows)
    ensures s.day == d
    ensures s.requests >= 1 && s.requests == Count(Days(rows), d)
    ensures s.availability == Percent(Successes(DayRows(rows, d)), s.requests)
    ensures 0.0 <= s.availability <= 100.0
    ensures s.meanLatency == Mean(DayLatencies(rows, d))
    ensures Min(DayLatencies(rows, d)) as real <= s.meanLatency <= Max(DayLatencies(rows, d)) as real
  {
    var g := DayRows(rows, d);
    DaySummary(d, Availability(g), MeanLatency(g), |g|)
  }

  function SummarizeDays(rows: seq<Row>, ks: seq<int>): (r: seq<DaySummary>)
    requires forall k :: k in ks ==> k in Days(rows)
    ensures |r| == |ks|
    ensures forall i :: 0 <= i < |ks| ==> r[i] == SummaryOf(rows, ks[i])
    ensures DaysOf(r) == ks
  {
    var r := seq(|ks|, i requires 0 <= i < |ks| => SummaryOf(rows, ks[i]));
    assert forall i :: 0 <= i < |ks| ==> DaysOf(r)[i] == ks[i];
    r
  }

  /** The day column of the grouped table. */
  function DaysOf(table: seq<DaySummary>): (ds: seq<int>)
  {
    seq(|table|, i requires 0 <= i < |table| => table[i].day)
  }

  /** The table grouped by day: exactly one line per day present in the log,
      in ascending day order, each line summarising that day's rows. */
  function DailySummary(rows: seq<Row>): (r: seq<DaySummary>)
    ensures Increasing(DaysOf(r))
    ensures forall d :: d in DaysOf(r) <==> d in Days(rows)
    ensures forall i :: 0 <= i < |r| ==> r[i].day in Days(rows) && r[i] == SummaryOf(rows, r[i].day)
  {
    var ks := Distinct(Days(rows));
    SummarizeDays(rows, ks)
  }

  function TotalRequests(table: seq<DaySummary>): int
  {
    if table == [] then 0 else table[0].requests + TotalRequests(table[1..])
  }

  lemma {:induction false} SummarizedRequests(rows: seq<Row>, ks: seq<int>)
    requires forall k :: k in ks ==> k in Days(rows)
    ensures TotalRequests(SummarizeDays(rows, ks)) == CountAll(Days(rows), ks)
  {
    if ks != [] {
      assert SummarizeDays(rows, ks)[1..] == SummarizeDays(rows, ks[1..]);
      SummarizedRequests(rows, ks[1..]);
    }
  }

  /** The per-day request counts add up to the number of rows. */
  lemma DailyRequestsAddUp(rows: seq<Row>)
    ensures TotalRequests(DailySummary(rows)) == |rows|
  {
    var ks := Distinct(Days(rows));
    SummarizedRequests(rows, ks);
    CountAllCovers(Days(rows), ks);
  }

  /** The "SLO met" column: one flag per line of the table. */
  function SloMet(table: seq<DaySummary>): (flags: seq<bool>)
    ensures |flags| == |table|
    ensures forall i :: 0 <= i < |table| ==> (flags[i] <==> table[i].availability >= SloTarget)
  {
    seq(|table|, i requires 0 <= i < |table| => table[i].availability >= SloTarget)
  }

  /** A day meets its SLO exactly when at most one request in ten failed that day. */
  lemma SloMetMeansFewErrors(rows: seq<Row>, i: nat)
    requires i < |DailySummary(rows)|
    ensures var g := DayRows(rows, DailySummary(rows)[i].day);
      SloMet(DailySummary(rows))[i] <==> 10 * Errors(g) <= |g|
  {
    var s := DailySummary(rows)[i];
    var g := DayRows(rows, s.day);
    SuccessesAndErrorsPartition(g);
    PercentAtLeastNinety(Successes(g), |g|);
  }

  /** The 95th percentile of day `d`'s latencies. */
  function DayP95Of(rows: seq<Row>, d: int): (p: real)
    requires d in Days(rows)
    ensures Min(DayLatencies(rows, d)) as real <= p <= Max(DayLatencies(rows, d)) as real
    ensures Count(Days(rows), d) == 1 ==> p == DayLatencies(rows, d)[0] as real
  {
    P95(DayLatencies(rows, d))
  }

  /** The 95th percentile of all latencies of the log. */
  function GlobalP95(rows: seq<Row>): (p: real)
    requires rows != []
    ensures Min(Latencies(rows)) as real <= p <= Max(Latencies(rows)) as real
    ensures |rows| == 1 ==> p == rows[0].latency as real
  {
    P95(Latencies(rows))
  }

  function P95sOver(rows: seq<Row>, ks: seq<int>): (r: seq<DayP95>)
    requires forall k :: k in ks ==> k in Days(rows)
    ensures |r| == |ks|
    ensures forall i :: 0 <= i < |ks| ==> r[i] == DayP95(ks[i], DayP95Of(rows, ks[i]))
    ensures P95Days(r) == ks
  {
    var r := seq(|ks|, i requires 0 <= i < |ks| => DayP95(ks[i], DayP95Of(rows, ks[i])));
    assert forall i :: 0 <= i < |ks| ==> P95Days(r)[i] == ks[i];
    r
  }

  /** The day column of a p95 table. */
  function P95Days(ps: seq<DayP95>): (ds: seq<int>)
  {
    seq(|ps|, i requires 0 <= i < |ps| => ps[i].day)
  }

  /** The per-day p95 table: the days of the log, ascending, each with that
      day's 95th percentile latency. */
  function P95ByDay(rows: seq<Row>): (r: seq<DayP95>)
    ensures Increasing(P95Days(r))
    ensures forall d :: d in P95Days(r) <==> d in Days(rows)
    ensures forall i :: 0 <= i < |r| ==> r[i].day in Days(rows) && r[i].p95 == DayP95Of(rows, r[i].day)
  {
    var ks := Distinct(Days(rows));
    P95sOverKeys(rows, ks);
    P95sOver(rows, ks)
  }

  lemma P95sOverKeys(rows: seq<Row>, ks: seq<int>)
    requires Increasing(ks) && forall d :: d in ks <==> d in Days(rows)
    ensures Increasing(P95Days(P95sOver(rows, ks)))
    ensures forall d :: d in P95Days(P95sOver(rows, ks)) <==> d in Days(rows)
    ensures forall i :: 0 <= i < |ks| ==>
      P95sOver(rows, ks)[i].day in Days(rows) && P95sOver(rows, ks)[i].p95 == DayP95Of(rows, P95sOver(rows, ks)[i].day)
  {
    assert forall i :: 0 <= i < |ks| ==> ks[i] in ks;
  }

  /** The p95 table lists the same days, in the same order, as the grouped table. */
  lemma P95ByDayFollowsTable(rows: seq<Row>)
    ensures P95Days(P95ByDay(rows)) == DaysOf(DailySummary(rows))
  {
    var ks := Distinct(Days(rows));
    assert P95ByDay(rows) == P95sOver(rows, ks);
    assert DailySummary(rows) == SummarizeDays(rows, ks);
  }

  /** The p95 listed for day `d`, if any: the right-hand side of a left join. */
  function LookupP95(ps: seq<DayP95>, d: int): (o: Option<real>)
    ensures o.None? <==> forall i :: 0 <= i < |ps| ==> ps[i].day != d
    ensures o.Some? ==> exists i :: 0 <= i < |ps| && ps[i].day == d && ps[i].p95 == o.value
  {
    if ps == [] then None
    else if ps[0].day == d then Some(ps[0].p95)
    else
      var o := LookupP95(ps[1..], d);
      assert forall i :: 1 <= i < |ps| ==> ps[i] == ps[1..][i - 1];
      o
  }

  /** Left join of the grouped table with the p95 table on the day: every line
      of the table is kept, in order, and gains the p95 of its day. A pandas
      left join repeats a line once per matching right-hand line, whereas this
      join takes the first match; the two agree whenever the p95 table lists
      each day at most once, as the p95 table of a log does (its days are
      strictly increasing, see `P95ByDay` and `MergedReportComplete`). */
  function MergeP95(table: seq<DaySummary>, ps: seq<DayP95>): (r: seq<DayReport>)
    ensures |r| == |table|
    ensures forall i :: 0 <= i < |r| ==>
      && r[i].day == table[i].day
      && r[i].availability == table[i].availability
      && r[i].meanLatency == table[i].meanLatency
      && r[i].requests == table[i].requests
      && r[i].p95 == LookupP95(ps, table[i].day)
  {
    seq(|table|, i requires 0 <= i < |table| =>
      DayReport(table[i].day, table[i].availability, table[i].meanLatency, table[i].requests,
                LookupP95(ps, table[i].day)))
  }

  /** On the log's own tables the join never leaves a p95 missing: every day
      of the merged report carries the 95th percentile of that day. */
  lemma MergedReportComplete(rows: seq<Row>)
    ensures var r := MergeP95(DailySummary(rows), P95ByDay(rows));
      forall i :: 0 <= i < |r| ==> r[i].day in Days(rows) && r[i].p95 == Some(DayP95Of(rows, r[i].day))
  {
    var table := DailySummary(rows);
    var ps := P95ByDay(rows);
    P95ByDayFollowsTable(rows);
    forall i | 0 <= i < |table| ensures LookupP95(ps, table[i].day) == Some(DayP95Of(rows, table[i].day)) {
      assert P95Days(ps)[i] == DaysOf(table)[i];
      LookupFindsOwnLine(ps, i);
    }
  }

  /** In a p95 table with strictly increasing days, looking up the day of a
      line finds that line's p95. */
  lemma LookupFindsOwnLine(ps: seq<DayP95>, i: int)
    requires Increasing(P95Days(ps)) && 0 <= i < |ps|
    ensures LookupP95(ps, ps[i].day) == Some(ps[i].p95)
  {
    var o := LookupP95(ps, ps[i].day);
    var j :| 0 <= j < |ps| && ps[j].day == ps[i].day && ps[j].p95 == o.value;
    assert P95Days(ps)[j] == P95Days(ps)[i];
    IncreasingPositions(P95Days(ps), i, j);
  }

  /** Position of the first largest p95, as `idxmax` picks it. */
  function IndexOfMax(ps: seq<DayP95>): (k: nat)
    requires ps != []
    ensures k < |ps|
    ensures forall j :: 0 <= j < |ps| ==> ps[j].p95 <= ps[k].p95
    ensures forall j :: 0 <= j < k ==> ps[j].p95 < ps[k].p95
  {
    if |ps| == 1 then 0
    else
      var k := IndexOfMax(ps[1..]) + 1;
      assert forall j :: 1 <= j < |ps| ==> ps[j] == ps[1..][j - 1];
      if ps[k].p95 <= ps[0].p95 then 0 else k
  }

  /** `pk` is the peak of the log's p95 table: a day of the log carrying its
      own p95, at least the p95 of every day and strictly above the p95 of
      every earlier day. */
  predicate IsPeak(rows: seq<Row>, pk: DayP95)
  {
    && pk.day in Days(rows)
    && pk.p95 == DayP95Of(rows, pk.day)
    && (forall d :: d in Days(rows) ==> DayP95Of(rows, d) <= pk.p95)
    && (forall d :: d in Days(rows) && d < pk.day ==> DayP95Of(rows, d) < pk.p95)
  }

  /** The day of highest p95 latency, the first one when several tie. */
  function PeakP95Day(rows: seq<Row>): (pk: DayP95)
    requires rows != []
    ensures IsPeak(rows, pk)
  {
    P95ByDayNonEmpty(rows);
    var k := IndexOfMax(P95ByDay(rows));
    PeakDominates(rows, k);
    P95ByDay(rows)[k]
  }

  lemma P95ByDayNonEmpty(rows: seq<Row>)
    requires rows != []
    ensures P95ByDay(rows) != []
  {
    assert Days(rows)[0] in P95Days(P95ByDay(rows));
  }

  /** The line `idxmax` picks from the p95 table dominates the p95 of every day. */
  lemma PeakDominates(rows: seq<Row>, k: nat)
    requires k < |P95ByDay(rows)|
    requires forall j :: 0 <= j < |P95ByDay(rows)| ==> P95ByDay(rows)[j].p95 <= P95ByDay(rows)[k].p95
    requires forall j :: 0 <= j < k ==> P95ByDay(rows)[j].p95 < P95ByDay(rows)[k].p95
    ensures IsPeak(rows, P95ByDay(rows)[k])
  {
    var ps := P95ByDay(rows);
    forall d | d in Days(rows)
      ensures DayP95Of(rows, d) <= ps[k].p95
      ensures d < ps[k].day ==> DayP95Of(rows, d) < ps[k].p95
    {
      var i :| 0 <= i < |ps| && P95Days(ps)[i] == d;
      assert P95Days(ps)[k] == ps[k].day;
      IncreasingPositions(P95Days(ps), i, k);
    }
  }

  /** A log that covers a single day groups into one line, and that line and
      its p95 are the global figures of the log. */
  lemma OneDayIsWholeLog(rows: seq<Row>, d: int)
    requires rows != []
    requires forall i :: 0 <= i < |rows| ==> rows[i].day == d
    ensures DayRows(rows, d) == rows
    ensures DailySummary(rows) == [DaySummary(d, Availability(rows), MeanLatency(rows), |rows|)]
    ensures P95ByDay(rows) == [DayP95(d, GlobalP95(rows))]
  {
    SelectAll(rows, Matches(Days(rows), d));
    DistinctConstant(Days(rows), d);
  }
}
