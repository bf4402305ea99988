/** Worked scenarios: small logs whose aggregates are known exactly. */
module Scenarios {
  import opened SeqMath
  import opened Requests
  import opened Daily
  import opened Hourly

  lemma TruesOfThree(m: seq<bool>)
    requires |m| == 3
    ensures Trues(m) == (if m[0] then 1 else 0) + (if m[1] then 1 else 0) + (if m[2] then 1 else 0)
  {
    TruesStep(m);
    TruesStep(m[1..]);
    TruesStep(m[2..]);
    assert m[3..] == [];
  }

  lemma SumOfThree(xs: seq<int>)
    requires |xs| == 3
    ensures Sum(xs) == xs[0] + xs[1] + xs[2]
  {
    assert Sum(xs) == xs[0] + Sum(xs[1..]);
    assert xs[1..][1..] == xs[2..];
    assert Sum(xs[1..]) == xs[1] + Sum(xs[2..]);
    assert xs[2..][1..] == [];
    assert Sum(xs[2..]) == xs[2] + Sum([]);
  }

  lemma ScenarioCounts(rows: seq<Row>, d: int)
    requires rows == [Row(d, 9, "sucesso", 50), Row(d, 9, "erro", 500), Row(d, 10, "sucesso", 60)]
    ensures Successes(rows) == 2
    ensures Sum(Latencies(rows)) == 610
  {
    assert "erro" != Success;
    TruesOfThree(Matches(Statuses(rows), Success));
    SumOfThree(Latencies(rows));
  }

  lemma ScenarioErrorRows(rows: seq<Row>, d: int)
    requires rows == [Row(d, 9, "sucesso", 50), Row(d, 9, "erro", 500), Row(d, 10, "sucesso", 60)]
    ensures ErrorRows(rows) == [rows[1]]
  {
    assert "erro" != Success;
    var mask := Differs(Statuses(rows), Success);
    assert mask == [false, true, false];
    assert Select(rows[2..], mask[2..]) == [] by {
      assert Select(rows[2..][1..], mask[2..][1..]) == [];
    }
    assert Select(rows[1..], mask[1..]) == [rows[1]] + Select(rows[2..], mask[2..]);
  }

  /** Three requests on one day, one of them failed: the day's availability
      is 200/3 % (66.67 when printed) and its mean latency 610/3 ms (203.33). */
  lemma ThreeRequestsOneDay(rows: seq<Row>, d: int)
    requires rows == [Row(d, 9, "sucesso", 50), Row(d, 9, "erro", 500), Row(d, 10, "sucesso", 60)]
    ensures DailySummary(rows) == [DaySummary(d, 200.0 / 3.0, 610.0 / 3.0, 3)]
  {
    OneDayIsWholeLog(rows, d);
    ScenarioCounts(rows, d);
    assert Availability(rows) == Percent(2, 3);
    MeanFromSum(Latencies(rows), 610);
  }

  lemma MeanFromSum(xs: seq<int>, total: int)
    requires |xs| == 3 && Sum(xs) == total
    ensures Mean(xs) == total as real / 3.0
  {
  }

  /** The only failed request of the same log falls in hour 9. */
  lemma ThreeRequestsErrorHour(rows: seq<Row>, d: int)
    requires rows == [Row(d, 9, "sucesso", 50), Row(d, 9, "erro", 500), Row(d, 10, "sucesso", 60)]
    ensures ErrorsPerHour(rows) == [HourErrors(9, 1)]
  {
    ScenarioErrorRows(rows, d);
    var hs := Hours(ErrorRows(rows));
    assert hs == [9];
    assert Distinct(hs) == [9];
    assert Count(hs, 9) == 1;
  }
}
