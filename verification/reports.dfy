/**
 * The administrator's monthly and quarterly exports: completed requests counted per period
 * of their start, one row per period in the order the periods first occur.
 */
module Reports {
  import opened Sequences
  import opened Calendar
  import opened Bookings

  /** A report period: the 'YYYY-MM' and 'YYYY-Qn' keys as values. */
  datatype Period = Month(year: int, month: int) | Quarter(year: int, quarter: int)

  datatype Granularity = Monthly | Quarterly

  /** One exported row: the period (기간) and its number of completed requests (완료건수). */
  datatype Row = Row(period: Period, completed: nat)

  /** The quarter of a month 1..12: floor((month - 1) / 3) + 1. */
  function QuarterOf(month: int): (q: int)
    requires 1 <= month <= 12
    ensures 1 <= q <= 4
    ensures 3 * q - 2 <= month <= 3 * q
  {
    (month - 1) / 3 + 1
  }

  /** The report key of an instant: the calendar month, or the quarter, of its date. */
  function PeriodOf(t: int, g: Granularity): (p: Period)
    ensures g == Monthly ==> p.Month? && 1 <= p.month <= 12
    ensures g == Quarterly ==> p.Quarter? && 1 <= p.quarter <= 4
  {
    var c := CivilFromDays(DayOf(t));
    match g
    case Monthly => Month(c.year, c.month)
    case Quarterly => Quarter(c.year, QuarterOf(c.month))
  }

  predicate IsCompleted(r: Request) {
    r.status == Completed
  }

  /** The number of completed requests whose start falls in period `p`. */
  function CompletedIn(reqs: seq<Request>, g: Granularity, p: Period): (n: nat)
    ensures n <= |reqs|
  {
    if reqs == [] then 0
    else
      var init, r := reqs[..|reqs| - 1], reqs[|reqs| - 1];
      CompletedIn(init, g, p) + (if IsCompleted(r) && PeriodOf(r.start, g) == p then 1 else 0)
  }

  /**
   * The periods of the completed requests, each once, in the order of their first
   * completed request: the insertion order of the export's count dictionary.
   */
  function FirstSeen(reqs: seq<Request>, g: Granularity): (ps: seq<Period>)
    ensures |ps| <= |reqs|
  {
    if reqs == [] then []
    else
      var seen, r := FirstSeen(reqs[..|reqs| - 1], g), reqs[|reqs| - 1];
      if !IsCompleted(r) || PeriodOf(r.start, g) in seen then seen else seen + [PeriodOf(r.start, g)]
  }

  /** The total of the counts of the periods in `ps`. */
  function SumOver(ps: seq<Period>, reqs: seq<Request>, g: Granularity): nat {
    if ps == [] then 0 else CompletedIn(reqs, g, ps[0]) + SumOver(ps[1..], reqs, g)
  }

  /** Both definitions unfolded for a sequence extended by one request. */
  lemma AppendOne(reqs: seq<Request>, r: Request, g: Granularity)
    ensures var seen := FirstSeen(reqs, g);
      FirstSeen(reqs + [r], g) ==
        if !IsCompleted(r) || PeriodOf(r.start, g) in seen then seen else seen + [PeriodOf(r.start, g)]
    ensures forall p :: CompletedIn(reqs + [r], g, p) ==
              CompletedIn(reqs, g, p) + (if IsCompleted(r) && PeriodOf(r.start, g) == p then 1 else 0)
  {
    assert (reqs + [r])[..|reqs|] == reqs;
  }

  // ---------------------------------------------------------------------------
  // Properties of the counting

  /** Each period is listed once, and exactly the periods with a completed request are listed. */
  lemma {:induction false} FirstSeenIsExact(reqs: seq<Request>, g: Granularity)
    ensures Distinct(FirstSeen(reqs, g))
    ensures forall p :: p in FirstSeen(reqs, g) <==> CompletedIn(reqs, g, p) > 0
  {
    if reqs != [] {
      FirstSeenIsExact(reqs[..|reqs| - 1], g);
    }
  }

  lemma {:induction false} SumOverSnoc(ps: seq<Period>, x: Period, reqs: seq<Request>, g: Granularity)
    ensures SumOver(ps + [x], reqs, g) == SumOver(ps, reqs, g) + CompletedIn(reqs, g, x)
  {
    if ps != [] {
      assert (ps + [x])[1..] == ps[1..] + [x];
      SumOverSnoc(ps[1..], x, reqs, g);
    }
  }

  /** Appending one request adds one to the total exactly when it is completed in a listed period. */
  lemma {:induction false} SumOverAppend(ps: seq<Period>, reqs: seq<Request>, r: Request, g: Granularity)
    requires Distinct(ps)
    ensures SumOver(ps, reqs + [r], g) ==
            SumOver(ps, reqs, g) + (if IsCompleted(r) && PeriodOf(r.start, g) in ps then 1 else 0)
  {
    assert (reqs + [r])[..|reqs|] == reqs;
    if ps != [] {
      SumOverAppend(ps[1..], reqs, r, g);
      assert PeriodOf(r.start, g) in ps <==> PeriodOf(r.start, g) == ps[0] || PeriodOf(r.start, g) in ps[1..];
      if PeriodOf(r.start, g) == ps[0] {
        assert ps[0] !in ps[1..];
      }
    }
  }

  /** Every completed request is counted exactly once: the counts add up to the number completed. */
  lemma {:induction false} CountsAddUp(reqs: seq<Request>, g: Granularity)
    ensures SumOver(FirstSeen(reqs, g), reqs, g) == Count(reqs, IsCompleted)
  {
    if reqs != [] {
      var init, r := reqs[..|reqs| - 1], reqs[|reqs| - 1];
      assert reqs == init + [r];
      CountsAddUp(init, g);
      CountSnoc(init, r, IsCompleted);
      FirstSeenIsExact(init, g);
      var seen := FirstSeen(init, g);
      SumOverAppend(seen, init, r, g);
      if IsCompleted(r) && PeriodOf(r.start, g) !in seen {
        SumOverSnoc(seen, PeriodOf(r.start, g), reqs, g);
      }
    }
  }

  /** A quarter's count is the sum of the counts of its three months. */
  lemma {:induction false} QuarterIsSumOfMonths(reqs: seq<Request>, year: int, q: int)
    requires 1 <= q <= 4
    ensures CompletedIn(reqs, Quarterly, Quarter(year, q)) ==
            CompletedIn(reqs, Monthly, Month(year, 3 * q - 2)) +
            CompletedIn(reqs, Monthly, Month(year, 3 * q - 1)) +
            CompletedIn(reqs, Monthly, Month(year, 3 * q))
  {
    if reqs != [] {
      QuarterIsSumOfMonths(reqs[..|reqs| - 1], year, q);
    }
  }

  /** The state of the export loop after `done`: the periods in insertion order and their counts. */
  ghost predicate Tally(periods: seq<Period>, counts: map<Period, nat>, done: seq<Request>, g: Granularity) {
    && periods == FirstSeen(done, g)
    && (forall p :: p in counts <==> p in periods)
    && (forall p :: p in counts ==> counts[p] == CompletedIn(done, g, p))
  }

  /** A request that is not completed leaves the tally as it is. */
  lemma TallySkip(periods: seq<Period>, counts: map<Period, nat>, done: seq<Request>, r: Request, g: Granularity)
    requires Tally(periods, counts, done, g) && !IsCompleted(r)
    ensures Tally(periods, counts, done + [r], g)
  {
    AppendOne(done, r, g);
  }

  /** A completed request in a period already listed adds one to that period's count. */
  lemma TallyBump(periods: seq<Period>, counts: map<Period, nat>, done: seq<Request>, r: Request, g: Granularity)
    requires Tally(periods, counts, done, g) && IsCompleted(r) && PeriodOf(r.start, g) in counts
    ensures Tally(periods, counts[PeriodOf(r.start, g) := counts[PeriodOf(r.start, g)] + 1], done + [r], g)
  {
    AppendOne(done, r, g);
  }

  /** A completed request in a new period lists that period last, with count one. */
  lemma TallyAdd(periods: seq<Period>, counts: map<Period, nat>, done: seq<Request>, r: Request, g: Granularity)
    requires Tally(periods, counts, done, g) && IsCompleted(r) && PeriodOf(r.start, g) !in counts
    ensures Tally(periods + [PeriodOf(r.start, g)], counts[PeriodOf(r.start, g) := 1], done + [r], g)
  {
    AppendOne(done, r, g);
    FirstSeenIsExact(done, g);
  }

  /**
   * exportMonthly / exportQuarterly: count the completed requests per period in one pass,
   * keeping a dictionary from period to count and the order in which periods were added,
   * then list the rows in that order.
   */
  method CountCompleted(reqs: seq<Request>, g: Granularity) returns (rows: seq<Row>)
    ensures |rows| == |FirstSeen(reqs, g)|
    ensures forall j :: 0 <= j < |rows| ==>
              rows[j].period == FirstSeen(reqs, g)[j] && rows[j].completed == CompletedIn(reqs, g, rows[j].period)
  {
    var periods: seq<Period> := [];
    var counts: map<Period, nat> := map[];
    var i := 0;
    while i < |reqs|
      invariant 0 <= i <= |reqs|
      invariant Tally(periods, counts, reqs[..i], g)
    {
      var r := reqs[i];
      assert reqs[..i + 1] == reqs[..i] + [r];
      if IsCompleted(r) {
        var k := PeriodOf(r.start, g);
        if k in counts {
          TallyBump(periods, counts, reqs[..i], r, g);
          counts := counts[k := counts[k] + 1];
        } else {
          TallyAdd(periods, counts, reqs[..i], r, g);
          periods := periods + [k];
          counts := counts[k := 1];
        }
      } else {
        TallySkip(periods, counts, reqs[..i], r, g);
      }
      i := i + 1;
    }
    assert reqs[..i] == reqs;
    rows := seq(|periods|, j requires 0 <= j < |periods| => Row(periods[j], counts[periods[j]]));
  }
}
