/**
 * Concrete days run through the model: New Year's Day 2025 as a holiday, and Tuesday
 * 2025-06-10 as an ordinary working day.
 */
module Scenarios {
  import opened Wrappers
  import opened Calendar
  import opened Availability
  import opened Bookings
  import opened Ledger

  /**
   * The eight dates the holiday endpoint returns for a year: 1 January, 1 March, 5 May,
   * 6 June, 15 August, 3 October, 9 October and 25 December.
   */
  function SampleHolidays(year: int): (list: seq<Ymd>)
    ensures |list| == 8
    ensures forall i :: 0 <= i < 8 ==> list[i].year == year && 1 <= list[i].month <= 12
    ensures Ymd(year, 1, 1) in list && Ymd(year, 6, 10) !in list
  {
    [Ymd(year, 1, 1), Ymd(year, 3, 1), Ymd(year, 5, 5), Ymd(year, 6, 6),
     Ymd(year, 8, 15), Ymd(year, 10, 3), Ymd(year, 10, 9), Ymd(year, 12, 25)]
  }

  /** Day 20089 is Wednesday 2025-01-01; day 20249 is Tuesday 2025-06-10. */
  const NewYear: int := 20089
  const JuneTenth: int := 20249

  lemma NewYearDate()
    ensures CivilFromDays(NewYear) == Ymd(2025, 1, 1) && Weekday(NewYear) == 3
  {
    // z = 739557 lies 9072 days into era 5; year-of-era 24, day-of-year 306 counted from March.
    assert 739557 / 146097 == 5;
    assert 9072 / 1460 == 6 && 9072 / 36524 == 0 && 9072 / 146096 == 0;
    assert 9066 / 365 == 24 && 24 / 4 == 6 && 24 / 100 == 0;
    assert (5 * 306 + 2) / 153 == 10 && (153 * 10 + 2) / 5 == 306;
  }

  lemma JuneTenthDate()
    ensures CivilFromDays(JuneTenth) == Ymd(2025, 6, 10) && Weekday(JuneTenth) == 2
  {
    // z = 739717 lies 9232 days into era 5; year-of-era 25, day-of-year 101 counted from March.
    assert 739717 / 146097 == 5;
    assert 9232 / 1460 == 6 && 9232 / 36524 == 0 && 9232 / 146096 == 0;
    assert 9226 / 365 == 25 && 25 / 4 == 6 && 25 / 100 == 0;
    assert (5 * 101 + 2) / 153 == 3 && (153 * 3 + 2) / 5 == 92;
  }

  /** A weekday that is on the holiday list (New Year's Day) offers nothing. */
  lemma HolidayOffersNothing(busy: seq<Interval>, now: int)
    ensures GenSlots(NewYear, SampleHolidays(2025), busy, now) == []
  {
    NewYearDate();
    ExcludedDayHasNoSlots(NewYear, SampleHolidays(2025), busy, now);
  }

  /** With the calendar empty and the clock at 08:00, 2025-06-10 offers 09:00 through 17:00. */
  lemma WorkingDayOffersNine()
    ensures var slots := GenSlots(JuneTenth, SampleHolidays(2025), [], SetHour(JuneTenth, 8));
      |slots| == 9 && slots[0].start == SetHour(JuneTenth, 9) && slots[8].end == SetHour(JuneTenth, 18)
  {
    JuneTenthDate();
    AllNineWhenFree(JuneTenth, SampleHolidays(2025), SetHour(JuneTenth, 8));
  }

  /** A busy 10:00-11:00 removes that slot only, leaving eight. */
  lemma BusyTenOClock()
    ensures var slots := GenSlots(JuneTenth, SampleHolidays(2025),
                                  [Interval(SetHour(JuneTenth, 10), SetHour(JuneTenth, 11))], SetHour(JuneTenth, 8));
      && |slots| == 8
      && Interval(SetHour(JuneTenth, 10), SetHour(JuneTenth, 11)) !in slots
      && Interval(SetHour(JuneTenth, 9), SetHour(JuneTenth, 10)) in slots
      && Interval(SetHour(JuneTenth, 11), SetHour(JuneTenth, 12)) in slots
  {
    JuneTenthDate();
    OneBusyHourRemovesOneSlot(JuneTenth, SampleHolidays(2025), SetHour(JuneTenth, 8), 1);
    var all := Candidates(JuneTenth);
    assert all[0] in all[..1] && all[2] in all[2..];
  }

  /** A signed-in member with a plan but a zero balance is refused for lack of credits. */
  lemma ZeroBalanceRefused(slot: Interval)
    ensures SubmitCheck(true, Some("basic"), 0, Some(slot)) == Some(NoCredits)
    ensures SubmitCheck(true, Some("basic"), 1, Some(slot)) == None
    ensures SubmitCheck(true, Some(""), 5, Some(slot)) == Some(NoPlan)
  {
  }

  /**
   * A text request for 14:00-15:00 on 2025-06-10 does not block the slot while submitted;
   * once the administrator confirms it, the slot is no longer offered.
   */
  lemma ConfirmingTextRequestBlocksSlot()
    ensures var r := Request("r1", "kim@wins.law", "basic", 0, Text, "t", "d",
                             SetHour(JuneTenth, 14), SetHour(JuneTenth, 15), Submitted);
      var slot := Interval(SetHour(JuneTenth, 14), SetHour(JuneTenth, 15));
      var hol := SampleHolidays(2025);
      var now := SetHour(JuneTenth, 8);
      && slot in GenSlots(JuneTenth, hol, Busy([], [r]), now)
      && slot !in GenSlots(JuneTenth, hol, Busy(BlocksAfterStatus([], [r], "r1", Confirmed),
                                                WithStatus([r], "r1", Confirmed)), now)
  {
    var r := Request("r1", "kim@wins.law", "basic", 0, Text, "t", "d",
                     SetHour(JuneTenth, 14), SetHour(JuneTenth, 15), Submitted);
    var slot := Interval(SetHour(JuneTenth, 14), SetHour(JuneTenth, 15));
    var hol := SampleHolidays(2025);
    var now := SetHour(JuneTenth, 8);
    JuneTenthDate();
    SubmissionOccupiesSlot([], [], r, JuneTenth, hol, now, slot);
    assert Busy([], [r]) == Busy([], []) by {
      assert [r] == [r] + [];
    }
    AllNineWhenFree(JuneTenth, hol, now);
    assert slot == Candidate(JuneTenth, 5);
    assert Busy([], []) == [];
    ConfirmedRequestNotOffered([r], [], "r1", JuneTenth, hol, now, slot);
  }
}
