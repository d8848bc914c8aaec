/**
 * The slot availability engine: which one-hour consultation slots of a day can be booked,
 * given the holiday list, the busy intervals and the current time.
 */
module Availability {
  import opened Calendar
  import opened Sequences

  /** A time range [start, end) in instants. */
  datatype Interval = Interval(start: int, end: int)

  /** Two half-open intervals [s1, e1) and [s2, e2) overlap: max(s1, s2) < min(e1, e2). */
  predicate Within(s1: int, e1: int, s2: int, e2: int): (b: bool)
    ensures b <==> s1 < e1 && s2 < e2 && s1 < e2 && s2 < e1
  {
    (if s1 < s2 then s2 else s1) < (if e1 < e2 then e1 else e2)
  }

  predicate Overlaps(a: Interval, b: Interval) {
    Within(a.start, a.end, b.start, b.end)
  }

  /** Some busy interval overlaps `s`. */
  predicate OverlapsAny(s: Interval, busy: seq<Interval>) {
    exists i | 0 <= i < |busy| :: Overlaps(s, busy[i])
  }

  /** The slot starts at least one hour after `now` (the one-hour lead time). */
  predicate LeadTimeOk(s: Interval, now: int): (b: bool)
    ensures b <==> (s.start - now) as real / 3600.0 >= 1.0
  {
    s.start - now >= HourSecs
  }

  /** The k-th candidate slot of a day, [9+k:00, 10+k:00). */
  function Candidate(day: int, k: int): Interval {
    Interval(SetHour(day, 9 + k), SetHour(day, 10 + k))
  }

  /** The nine candidate slots 09:00-10:00 ... 17:00-18:00, in ascending order. */
  function Candidates(day: int): (all: seq<Interval>)
    ensures |all| == 9
    ensures forall k :: 0 <= k < 9 ==> all[k] == Candidate(day, k)
  {
    seq(9, k => Candidate(day, k))
  }

  /** Saturdays, Sundays and holidays have no slots at all. */
  predicate ExcludedDay(day: int, holidays: seq<Ymd>): (b: bool)
    ensures b <==> day % 7 == 2 || day % 7 == 3 ||
                   exists h :: h in holidays && DaysFromCivil(h) == day && CivilFromDays(DaysFromCivil(h)) == h
  {
    IsWeekend(day) || IsHoliday(day, holidays)
  }

  /**
   * The bookable slots of `day`: the candidates that overlap no busy interval and that
   * start at least an hour after `now`, or none on an excluded day.
   */
  function GenSlots(day: int, holidays: seq<Ymd>, busy: seq<Interval>, now: int): (slots: seq<Interval>)
    ensures |slots| <= 9
    ensures ExcludedDay(day, holidays) ==> slots == []
    ensures forall s :: s in slots ==> s in Candidates(day) && !OverlapsAny(s, busy) && LeadTimeOk(s, now)
  {
    if ExcludedDay(day, holidays) then []
    else
      var free := Filter(Candidates(day), s => !OverlapsAny(s, busy));
      Filter(free, s => LeadTimeOk(s, now))
  }

  /** Every slot is an exact hour, starting on the hour between 09:00 and 17:00. */
  predicate IsCandidateOf(day: int, s: Interval) {
    exists k | 0 <= k < 9 :: s == Candidate(day, k)
  }

  /** Starts strictly increase along the sequence. */
  predicate Ascending(slots: seq<Interval>) {
    forall i, j :: 0 <= i < j < |slots| ==> slots[i].start < slots[j].start
  }

  // ---------------------------------------------------------------------------
  // Properties of the engine

  /** An interval that ends exactly where another starts does not overlap it. */
  lemma TouchingIntervalsDoNotOverlap(a: Interval, b: Interval)
    requires a.start < a.end && b.start < b.end
    ensures a.end == b.start ==> !Overlaps(a, b) && !Overlaps(b, a)
    ensures Overlaps(a, b) <==> Overlaps(b, a)
    ensures Overlaps(a, b) <==> a.start < b.end && b.start < a.end
  {
  }

  /** Weekends and holidays yield no slots, whatever the busy list and the time. */
  lemma ExcludedDayHasNoSlots(day: int, holidays: seq<Ymd>, busy: seq<Interval>, now: int)
    requires IsWeekend(day) || CivilFromDays(day) in holidays
    ensures GenSlots(day, holidays, busy, now) == []
  {
  }

  /**
   * The exact characterisation of the result: a slot is offered if and only if the day is a
   * working day, it is one of the nine candidates, it overlaps no busy interval and it
   * starts at least an hour after `now`.
   */
  lemma GenSlotsMembership(day: int, holidays: seq<Ymd>, busy: seq<Interval>, now: int, s: Interval)
    ensures s in GenSlots(day, holidays, busy, now) <==>
              !ExcludedDay(day, holidays) && IsCandidateOf(day, s) &&
              (forall b :: b in busy ==> !Overlaps(s, b)) && s.start - now >= HourSecs
  {
    if s in Candidates(day) {
      var k :| 0 <= k < 9 && Candidates(day)[k] == s;
      assert s == Candidate(day, k);
    }
    if IsCandidateOf(day, s) {
      var k :| 0 <= k < 9 && s == Candidate(day, k);
      assert Candidates(day)[k] == s;
    }
    if (exists b :: b in busy && Overlaps(s, b)) {
      var b :| b in busy && Overlaps(s, b);
      var i :| 0 <= i < |busy| && busy[i] == b;
      assert OverlapsAny(s, busy);
    }
  }

  /** No offered slot overlaps a busy interval, and each starts at least an hour after now. */
  lemma GenSlotsAreFree(day: int, holidays: seq<Ymd>, busy: seq<Interval>, now: int)
    ensures forall s, b :: s in GenSlots(day, holidays, busy, now) && b in busy ==>
              !Overlaps(s, b) && s.start - now >= HourSecs
  {
    forall s, b | s in GenSlots(day, holidays, busy, now) && b in busy
      ensures !Overlaps(s, b) && s.start - now >= HourSecs
    {
      GenSlotsMembership(day, holidays, busy, now, s);
    }
  }

  lemma {:induction false} SubsequenceKeepsAscending(a: seq<Interval>, b: seq<Interval>)
    requires IsSubsequence(a, b) && Ascending(b)
    ensures Ascending(a)
    decreases |b|
  {
    if b != [] {
      if IsSubsequence(a, b[1..]) {
        SubsequenceKeepsAscending(a, b[1..]);
      } else {
        SubsequenceKeepsAscending(a[1..], b[1..]);
        SubsequenceIncluded(a[1..], b[1..]);
        forall j | 0 < j < |a| ensures a[0].start < a[j].start {
          assert a[j] in a[1..];
          var m :| 0 <= m < |b| - 1 && b[1..][m] == a[j];
          assert b[m + 1] == a[j];
        }
      }
    }
  }

  /**
   * The shape of the result: an order-preserving selection of the nine candidates, so at
   * most nine slots, each exactly one hour long, in strictly ascending order.
   */
  lemma GenSlotsShape(day: int, holidays: seq<Ymd>, busy: seq<Interval>, now: int)
    ensures var r := GenSlots(day, holidays, busy, now);
      && IsSubsequence(r, Candidates(day))
      && |r| <= 9
      && Ascending(r)
      && forall i :: 0 <= i < |r| ==> r[i].end - r[i].start == HourSecs && IsCandidateOf(day, r[i])
  {
    var all := Candidates(day);
    var r := GenSlots(day, holidays, busy, now);
    if ExcludedDay(day, holidays) {
      EmptyIsSubsequence(all);
    } else {
      var free := Filter(all, s => !OverlapsAny(s, busy));
      FilterIsSubsequence(all, s => !OverlapsAny(s, busy));
      FilterIsSubsequence(free, s => LeadTimeOk(s, now));
      SubsequenceTransitive(r, free, all);
    }
    assert Ascending(all);
    SubsequenceKeepsAscending(r, all);
    forall i | 0 <= i < |r| ensures r[i].end - r[i].start == HourSecs && IsCandidateOf(day, r[i]) {
      GenSlotsMembership(day, holidays, busy, now, r[i]);
    }
  }

  /** With nothing busy and `now` at or before 08:00, a working day offers all nine slots. */
  lemma AllNineWhenFree(day: int, holidays: seq<Ymd>, now: int)
    requires !ExcludedDay(day, holidays)
    requires now <= SetHour(day, 8)
    ensures GenSlots(day, holidays, [], now) == Candidates(day)
    ensures |GenSlots(day, holidays, [], now)| == 9
  {
    var all := Candidates(day);
    FilterKeepsAll(all, s => !OverlapsAny(s, []));
    FilterKeepsAll(all, s => LeadTimeOk(s, now));
  }

  /** The lead time is exactly one hour: a slot starting 60 minutes after `now` is still offered. */
  lemma LeadTimeBoundary(day: int, holidays: seq<Ymd>, k: int)
    requires !ExcludedDay(day, holidays) && 0 <= k < 9
    ensures Candidate(day, k) in GenSlots(day, holidays, [], SetHour(day, 8 + k))
    ensures Candidate(day, k) !in GenSlots(day, holidays, [], SetHour(day, 8 + k) + 1)
  {
    GenSlotsMembership(day, holidays, [], SetHour(day, 8 + k), Candidate(day, k));
    GenSlotsMembership(day, holidays, [], SetHour(day, 8 + k) + 1, Candidate(day, k));
  }

  /** Distinct candidates of one day never overlap; consecutive ones touch. */
  lemma CandidatesDisjoint(day: int, j: int, k: int)
    requires j != k
    ensures !Overlaps(Candidate(day, j), Candidate(day, k))
  {
  }

  /** Busy with candidate k alone, every other candidate is free and candidate k is not. */
  lemma OnlyCandidateKBusy(day: int, k: int)
    requires 0 <= k < 9
    ensures forall i :: 0 <= i < 9 && i != k ==> !OverlapsAny(Candidate(day, i), [Candidate(day, k)])
    ensures OverlapsAny(Candidate(day, k), [Candidate(day, k)])
  {
    var busy := [Candidate(day, k)];
    assert |busy| == 1 && busy[0] == Candidate(day, k);
    forall i | 0 <= i < 9 && i != k ensures !OverlapsAny(Candidate(day, i), busy) {
      CandidatesDisjoint(day, i, k);
    }
    assert Overlaps(Candidate(day, k), busy[0]);
  }

  /** Busy with candidate k alone, the free candidates are all the others, in order. */
  lemma OneBusyHourFree(day: int, k: int)
    requires 0 <= k < 9
    ensures var all := Candidates(day);
      Filter(all, s => !OverlapsAny(s, [Candidate(day, k)])) == all[..k] + all[k + 1..]
  {
    var all := Candidates(day);
    var notBusy := s => !OverlapsAny(s, [Candidate(day, k)]);
    var before, after := all[..k], all[k + 1..];
    OnlyCandidateKBusy(day, k);
    forall i | 0 <= i < |before| ensures notBusy(before[i]) {
      assert before[i] == Candidate(day, i);
    }
    forall i | 0 <= i < |after| ensures notBusy(after[i]) {
      assert after[i] == Candidate(day, k + 1 + i);
    }
    assert !notBusy(all[k]);
    assert all == before + [all[k]] + after;
    FilterDropsOne(before, all[k], after, notBusy);
  }

  /**
   * A single busy hour that coincides with candidate k removes exactly that candidate:
   * the neighbours that touch it at their ends stay available.
   */
  lemma OneBusyHourRemovesOneSlot(day: int, holidays: seq<Ymd>, now: int, k: int)
    requires !ExcludedDay(day, holidays)
    requires now <= SetHour(day, 8)
    requires 0 <= k < 9
    ensures var all := Candidates(day);
      GenSlots(day, holidays, [Candidate(day, k)], now) == all[..k] + all[k + 1..]
    ensures |GenSlots(day, holidays, [Candidate(day, k)], now)| == 8
  {
    var all := Candidates(day);
    OneBusyHourFree(day, k);
    var free := all[..k] + all[k + 1..];
    forall i | 0 <= i < |free| ensures LeadTimeOk(free[i], now) {
      assert free[i] in all;
    }
    FilterKeepsAll(free, s => LeadTimeOk(s, now));
  }
}
