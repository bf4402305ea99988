/** The errors-per-hour histogram: the failed requests grouped by the hour of
    day of their timestamp, one line per hour in which at least one failed. */
module Hourly {
  import opened SeqMath
  import opened Requests

  /** One bar of the histogram. */
  datatype HourErrors = HourErrors(hour: int, errors: nat)

  /** The hour column, in row order. */
  function Hours(rows: seq<Row>): (hs: seq<int>)
  {
    seq(|rows|, i requires 0 <= i < |rows| => rows[i].hour as int)
  }

  /** Reference count: the rows that failed during hour `h`, read straight off the log. */
  function ErrorsAt(rows: seq<Row>, h: int): (n: nat)
    ensures n <= |rows|
    ensures n > 0 <==> exists r :: r in rows && r.status != Success && r.hour == h
  {
    var es := ErrorRows(rows);
    ErrorsAtThroughErrorRows(rows, h);
    assert h in Hours(es) <==> exists r :: r in rows && r.status != Success && r.hour == h by {
      if h in Hours(es) {
        var i :| 0 <= i < |es| && Hours(es)[i] == h;
        assert es[i] in es;
      }
      if exists r :: r in es && r.hour == h {
        var r :| r in es && r.hour == h;
        var i :| 0 <= i < |es| && es[i] == r;
        assert Hours(es)[i] == h;
      }
    }
    Trues(FailedDuring(rows, h))
  }

  /** Element-wise `status != "sucesso" and hour == h`. */
  function FailedDuring(rows: seq<Row>, h: int): (mask: seq<bool>)
  {
    seq(|rows|, i requires 0 <= i < |rows| => rows[i].status != Success && rows[i].hour == h)
  }

  /** Element-wise `mask and hour == h`. */
  function KeptDuring(rows: seq<Row>, mask: seq<bool>, h: int): (both: seq<bool>)
    requires |mask| == |rows|
  {
    seq(|rows|, i requires 0 <= i < |rows| => mask[i] && rows[i].hour == h)
  }

  /** Grouping the rows a mask keeps by hour counts, for each hour, the kept
      rows of that hour. */
  lemma {:induction false} CountHoursOfSelect(rows: seq<Row>, mask: seq<bool>, h: int)
    requires |mask| == |rows|
    ensures Count(Hours(Select(rows, mask)), h) == Trues(KeptDuring(rows, mask, h))
  {
    if rows != [] {
      var kept := Select(rows[1..], mask[1..]);
      var both := KeptDuring(rows, mask, h);
      var one := if both[0] then 1 else 0;
      assert both[1..] == KeptDuring(rows[1..], mask[1..], h);
      CountHoursOfSelect(rows[1..], mask[1..], h);
      TruesStep(both);
      assert Trues(both) == one + Count(Hours(kept), h);
      HoursOfSelectStep(rows, mask);
      if mask[0] {
        var x := rows[0].hour as int;
        assert Hours(Select(rows, mask)) == [x] + Hours(kept);
        CountCons(x, Hours(kept), h);
        assert one == (if x == h then 1 else 0);
      }
      assert Count(Hours(Select(rows, mask)), h) == one + Count(Hours(kept), h);
    }
  }

  lemma HoursOfSelectStep(rows: seq<Row>, mask: seq<bool>)
    requires |mask| == |rows| && rows != []
    ensures mask[0] ==> Hours(Select(rows, mask)) == [rows[0].hour as int] + Hours(Select(rows[1..], mask[1..]))
    ensures !mask[0] ==> Hours(Select(rows, mask)) == Hours(Select(rows[1..], mask[1..]))
  {
    var kept := Select(rows[1..], mask[1..]);
    if mask[0] {
      assert Select(rows, mask) == [rows[0]] + kept;
      HoursCons(rows[0], kept);
    } else {
      assert Select(rows, mask) == kept;
    }
  }

  lemma HoursCons(r: Row, rows: seq<Row>)
    ensures Hours([r] + rows) == [r.hour as int] + Hours(rows)
  {
    assert forall i :: 1 <= i <= |rows| ==> ([r] + rows)[i] == rows[i - 1];
  }

  /** The failed rows of hour `h`, counted through the error rows. */
  lemma ErrorsAtThroughErrorRows(rows: seq<Row>, h: int)
    ensures Count(Hours(ErrorRows(rows)), h) == Trues(FailedDuring(rows, h))
  {
    var mask := Differs(Statuses(rows), Success);
    CountHoursOfSelect(rows, mask, h);
    assert KeptDuring(rows, mask, h) == FailedDuring(rows, h);
  }

  /** The hour column of the histogram. */
  function HoursOf(hist: seq<HourErrors>): (hs: seq<int>)
  {
    seq(|hist|, i requires 0 <= i < |hist| => hist[i].hour)
  }

  /** The bars for the hours `ks`, each counting the failed rows of its hour. */
  function BarsFor(rows: seq<Row>, ks: seq<int>): (hist: seq<HourErrors>)
    ensures |hist| == |ks|
    ensures forall i :: 0 <= i < |ks| ==> hist[i] == HourErrors(ks[i], Count(Hours(ErrorRows(rows)), ks[i]))
  {
    var hs := Hours(ErrorRows(rows));
    seq(|ks|, i requires 0 <= i < |ks| => HourErrors(ks[i], Count(hs, ks[i])))
  }

  /** Number of failed requests per hour of day: the hours with at least one
      failure, ascending, each with the number of failures in that hour. */
  function ErrorsPerHour(rows: seq<Row>): (hist: seq<HourErrors>)
    ensures Increasing(HoursOf(hist))
    ensures forall h :: h in HoursOf(hist) <==> ErrorsAt(rows, h) > 0
    ensures forall i :: 0 <= i < |hist| ==>
      && 0 <= hist[i].hour < 24
      && hist[i].errors >= 1
      && hist[i].errors == ErrorsAt(rows, hist[i].hour)
  {
    var es := ErrorRows(rows);
    var ks := Distinct(Hours(es));
    var hist := BarsFor(rows, ks);
    HourKeys(rows);
    assert HoursOf(hist) == ks;
    hist
  }

  /** The hours of the failed rows are hours of the day, and each has as many
      occurrences as the reference count says. */
  lemma HourKeys(rows: seq<Row>)
    ensures forall h :: h in Hours(ErrorRows(rows)) <==> ErrorsAt(rows, h) > 0
    ensures forall h :: h in Hours(ErrorRows(rows)) ==> 0 <= h < 24
    ensures forall h :: Count(Hours(ErrorRows(rows)), h) == ErrorsAt(rows, h)
  {
    forall h ensures Count(Hours(ErrorRows(rows)), h) == ErrorsAt(rows, h) {
      ErrorsAtThroughErrorRows(rows, h);
    }
  }

  function TotalErrors(hist: seq<HourErrors>): int
  {
    if hist == [] then 0 else hist[0].errors + TotalErrors(hist[1..])
  }

  lemma {:induction false} BarsAddUp(rows: seq<Row>, ks: seq<int>)
    ensures TotalErrors(BarsFor(rows, ks)) == CountAll(Hours(ErrorRows(rows)), ks)
  {
    if ks != [] {
      assert BarsFor(rows, ks)[1..] == BarsFor(rows, ks[1..]);
      BarsAddUp(rows, ks[1..]);
    }
  }

  /** The bars of the histogram add up to the number of failed requests. */
  lemma ErrorsPerHourAddUp(rows: seq<Row>)
    ensures TotalErrors(ErrorsPerHour(rows)) == Errors(rows)
  {
    var hs := Hours(ErrorRows(rows));
    var ks := Distinct(hs);
    BarsAddUp(rows, ks);
    CountAllCovers(hs, ks);
  }

  /** A successful request changes no bar of the histogram, wherever it sits in the log. */
  lemma ErrorsPerHourIgnoresSuccesses(a: seq<Row>, x: Row, b: seq<Row>)
    requires x.status == Success
    ensures ErrorsPerHour(a + [x] + b) == ErrorsPerHour(a + b)
  {
    ErrorRowsSkipSuccess(a, x, b);
  }
}
