/** The request log and its global statistics: total, successes, errors,
    availability, error rate, mean latency and error-budget consumption.
    A row is already parsed; its calendar day is an ordinal number and its
    hour is the hour-of-day of its timestamp. */
module Requests {
  import opened SeqMath

  /** The range of a timestamp's hour-of-day. */
  type Hour = h: int | 0 <= h < 24

  datatype Row = Row(day: int, hour: Hour, status: string, latency: int)

  /** The one status value that counts as a success; every other value is an error. */
  const Success: string := "sucesso"

  /** Error budget: the number of errors the period may spend. */
  const ErrorBudget: nat := 300

  /** The status column, in row order. */
  function Statuses(rows: seq<Row>): (col: seq<string>)
  {
    seq(|rows|, i requires 0 <= i < |rows| => rows[i].status)
  }

  /** The latency column, in row order. */
  function Latencies(rows: seq<Row>): (col: seq<int>)
  {
    seq(|rows|, i requires 0 <= i < |rows| => rows[i].latency)
  }

  /** The rows a boolean mask keeps, in their original order (`df[mask]`). */
  function Select(rows: seq<Row>, mask: seq<bool>): (kept: seq<Row>)
    requires |mask| == |rows|
    ensures |kept| == Trues(mask)
  {
    if rows == [] then []
    else
      TruesStep(mask);
      (if mask[0] then [rows[0]] else []) + Select(rows[1..], mask[1..])
  }

  /** `df[mask]` keeps exactly the rows whose mask entry is true. */
  lemma {:induction false} SelectKeeps(rows: seq<Row>, mask: seq<bool>)
    requires |mask| == |rows|
    ensures forall r :: r in Select(rows, mask) ==> exists i :: 0 <= i < |rows| && mask[i] && rows[i] == r
    ensures forall i :: 0 <= i < |rows| && mask[i] ==> rows[i] in Select(rows, mask)
  {
    if rows != [] {
      var head := if mask[0] then [rows[0]] else [];
      SelectKeeps(rows[1..], mask[1..]);
      SelectStep(rows, mask, head, Select(rows[1..], mask[1..]));
    }
  }

  /** Keeping or dropping the first row extends what `Select` states of the
      remaining rows to the whole table. */
  lemma SelectStep(rows: seq<Row>, mask: seq<bool>, head: seq<Row>, rest: seq<Row>)
    requires |mask| == |rows| && rows != []
    requires head == if mask[0] then [rows[0]] else []
    requires forall r :: r in rest ==> exists i :: 0 <= i < |rows| - 1 && mask[1..][i] && rows[1..][i] == r
    requires forall i :: 0 <= i < |rows| - 1 && mask[1..][i] ==> rows[1..][i] in rest
    ensures forall r :: r in head + rest ==> exists i :: 0 <= i < |rows| && mask[i] && rows[i] == r
    ensures forall i :: 0 <= i < |rows| && mask[i] ==> rows[i] in head + rest
  {
    forall r | r in head + rest
      ensures exists i :: 0 <= i < |rows| && mask[i] && rows[i] == r
    {
      if r in rest {
        var i :| 0 <= i < |rows| - 1 && mask[1..][i] && rows[1..][i] == r;
        assert mask[i + 1] && rows[i + 1] == r;
      } else {
        assert mask[0] && rows[0] == r;
      }
    }
    forall i | 0 <= i < |rows| && mask[i]
      ensures rows[i] in head + rest
    {
      if i > 0 {
        assert mask[1..][i - 1] && rows[1..][i - 1] == rows[i];
      }
    }
  }

  lemma {:induction false} SelectAppend(a: seq<Row>, ma: seq<bool>, b: seq<Row>, mb: seq<bool>)
    requires |ma| == |a| && |mb| == |b|
    ensures Select(a + b, ma + mb) == Select(a, ma) + Select(b, mb)
  {
    if a == [] {
      assert a + b == b && ma + mb == mb;
    } else {
      var head := if ma[0] then [a[0]] else [];
      assert (a + b)[0] == a[0] && (ma + mb)[0] == ma[0];
      assert (a + b)[1..] == a[1..] + b;
      assert (ma + mb)[1..] == ma[1..] + mb;
      SelectAppend(a[1..], ma[1..], b, mb);
      AppendAssoc(head, Select(a[1..], ma[1..]), Select(b, mb));
    }
  }

  lemma AppendAssoc(x: seq<Row>, y: seq<Row>, z: seq<Row>)
    ensures x + (y + z) == (x + y) + z
  {
  }

  /** A mask that keeps every row selects the whole table. */
  lemma {:induction false} SelectAll(rows: seq<Row>, mask: seq<bool>)
    requires |mask| == |rows|
    requires forall i :: 0 <= i < |mask| ==> mask[i]
    ensures Select(rows, mask) == rows
  {
    if rows != [] {
      SelectAll(rows[1..], mask[1..]);
    }
  }

  /** Number of rows whose status equals "sucesso": the sum of that boolean mask. */
  function Successes(rows: seq<Row>): (n: nat)
    ensures n <= |rows|
  {
    Trues(Matches(Statuses(rows), Success))
  }

  /** Number of rows whose status differs from "sucesso". */
  function Errors(rows: seq<Row>): (n: nat)
    ensures n <= |rows|
  {
    Trues(Differs(Statuses(rows), Success))
  }

  /** The two masks are complementary, so every row is counted exactly once. */
  lemma SuccessesAndErrorsPartition(rows: seq<Row>)
    ensures Successes(rows) + Errors(rows) == |rows|
  {
    ComplementaryMasks(Matches(Statuses(rows), Success), Differs(Statuses(rows), Success));
  }

  /** `(part / whole) * 100` in exact arithmetic. */
  function Percent(part: nat, whole: nat): (p: real)
    requires 0 < whole && part <= whole
    ensures 0.0 <= p <= 100.0
    ensures p * whole as real == 100.0 * part as real
    ensures p == 100.0 <==> part == whole
    ensures p == 0.0 <==> part == 0
  {
    var f := part as real / whole as real;
    assert f * whole as real == part as real;
    f * 100.0
  }

  /** Comparing `p` with `q` is comparing `p * w` with `q * w`, for positive `w`. */
  lemma ScaleCancel(p: real, q: real, w: real, pw: real, qw: real)
    requires 0.0 < w && pw == p * w && qw == q * w
    ensures pw >= qw <==> p >= q
  {
    assert pw - qw == (p - q) * w;
    if p >= q {
      assert (p - q) * w >= 0.0;
    } else {
      assert (q - p) * w > 0.0;
    }
  }

  /** Reaching 90% means at least nine parts in ten. */
  lemma PercentAtLeastNinety(part: nat, whole: nat)
    requires 0 < whole && part <= whole
    ensures Percent(part, whole) >= 90.0 <==> 10 * part >= 9 * whole
  {
    var p, w, x := Percent(part, whole), whole as real, part as real;
    ScaleCancel(p, 90.0, w, 100.0 * x, 90.0 * w);
  }

  /** Percentage of successful requests. */
  function Availability(rows: seq<Row>): (a: real)
    requires rows != []
    ensures 0.0 <= a <= 100.0
    ensures a * |rows| as real == 100.0 * Successes(rows) as real
    ensures a == 100.0 <==> Successes(rows) == |rows|
    ensures a == 0.0 <==> Successes(rows) == 0
  {
    Percent(Successes(rows), |rows|)
  }

  /** Percentage of failed requests. */
  function ErrorRate(rows: seq<Row>): (e: real)
    requires rows != []
    ensures 0.0 <= e <= 100.0
    ensures e * |rows| as real == 100.0 * Errors(rows) as real
    ensures e == 0.0 <==> Errors(rows) == 0
  {
    Percent(Errors(rows), |rows|)
  }

  /** Two shares of the same whole, each scaled to percent, add up to 100. */
  lemma SharesAddUp(p: real, q: real, w: real, x: real, y: real)
    requires 0.0 < w && x + y == w
    requires p * w == 100.0 * x && q * w == 100.0 * y
    ensures p + q == 100.0
  {
    assert (p + q - 100.0) * w == 0.0;
  }

  lemma PercentsOfPartition(a: nat, b: nat, n: nat)
    requires 0 < n && a + b == n
    ensures Percent(a, n) + Percent(b, n) == 100.0
  {
    SharesAddUp(Percent(a, n), Percent(b, n), n as real, a as real, b as real);
  }

  /** Availability and error rate are complementary percentages. */
  lemma AvailabilityPlusErrorRate(rows: seq<Row>)
    requires rows != []
    ensures Availability(rows) + ErrorRate(rows) == 100.0
  {
    SuccessesAndErrorsPartition(rows);
    PercentsOfPartition(Successes(rows), Errors(rows), |rows|);
  }

  /** Mean latency over all rows: it lies between the smallest and the largest latency. */
  function MeanLatency(rows: seq<Row>): (m: real)
    requires rows != []
    ensures Min(Latencies(rows)) as real <= m <= Max(Latencies(rows)) as real
  {
    Mean(Latencies(rows))
  }

  /** Percentage of the error budget that the observed errors consume; it
      stays within 100% exactly when there are at most 300 errors. */
  function BudgetConsumed(rows: seq<Row>): (c: real)
    ensures c * ErrorBudget as real == 100.0 * Errors(rows) as real
    ensures 0.0 <= c
    ensures c <= 100.0 <==> Errors(rows) <= ErrorBudget
    ensures c == 0.0 <==> Errors(rows) == 0
  {
    Errors(rows) as real / ErrorBudget as real * 100.0
  }

  /** The rows whose status is not "sucesso", in their original order. */
  function ErrorRows(rows: seq<Row>): (es: seq<Row>)
    ensures |es| == Errors(rows)
    ensures forall r :: r in es <==> r in rows && r.status != Success
  {
    var mask := Differs(Statuses(rows), Success);
    var es := Select(rows, mask);
    SelectKeeps(rows, mask);
    assert forall r :: r in rows && r.status != Success ==> r in es by {
      forall r | r in rows && r.status != Success ensures r in es {
        var i :| 0 <= i < |rows| && rows[i] == r;
        assert mask[i];
      }
    }
    es
  }

  lemma ErrorRowsAppend(a: seq<Row>, b: seq<Row>)
    ensures ErrorRows(a + b) == ErrorRows(a) + ErrorRows(b)
  {
    var ma, mb := Differs(Statuses(a), Success), Differs(Statuses(b), Success);
    assert Differs(Statuses(a + b), Success) == ma + mb;
    SelectAppend(a, ma, b, mb);
  }

  lemma NoErrorRowsInSuccess(x: Row)
    requires x.status == Success
    ensures ErrorRows([x]) == []
  {
    assert Differs(Statuses([x]), Success) == [false];
  }

  /** Adding a successful row anywhere leaves the error rows unchanged. */
  lemma ErrorRowsSkipSuccess(a: seq<Row>, x: Row, b: seq<Row>)
    requires x.status == Success
    ensures ErrorRows(a + [x] + b) == ErrorRows(a + b)
  {
    NoErrorRowsInSuccess(x);
    calc {
      ErrorRows(a + [x] + b);
    == { ErrorRowsAppend(a + [x], b); }
      ErrorRows(a + [x]) + ErrorRows(b);
    == { ErrorRowsAppend(a, [x]); }
      ErrorRows(a) + ErrorRows(b);
    == { ErrorRowsAppend(a, b); }
      ErrorRows(a + b);
    }
  }
}
