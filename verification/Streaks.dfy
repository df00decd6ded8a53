/** Interaction streaks on clock times: the row update of the service, tied to the chains of days it stands for. */
module Streaks {
  import opened Prelude
  import opened UtcCalendar
  import opened StreakChains

  datatype Streak = Streak(currentStreak: nat, longestStreak: nat, lastActiveAt: int, lastGracePassUsedAt: Option<int>)

  /** Difference in UTC calendar days, through the dates' year, month and day numbers. */
  function CalendarDayDifference(from: int, to: int): int {
    UtcDay(Day(to)) - UtcDay(Day(from))
  }

  predicate UsedGracePassThisMonth(lastUsedAt: Option<int>, now: int) {
    && lastUsedAt.Some?
    && YearOf(Day(lastUsedAt.value)) == YearOf(Day(now))
    && MonthOf(Day(lastUsedAt.value)) == MonthOf(Day(now))
  }

  function Next(row: Streak, days: int, passUsed: bool, now: int): Streak {
    var grace := days == 2 && !passUsed;
    var current := if days == 1 || grace then row.currentStreak + 1 else 1;
    Streak(current, Max(current, row.longestStreak), now, if grace then Some(now) else row.lastGracePassUsedAt)
  }

  /** The next row for a qualifying interaction; `None` when the day is already counted. */
  function CalculateUpdate(row: Streak, now: int): Option<Streak> {
    var days := CalendarDayDifference(row.lastActiveAt, now);
    if days <= 0 then None else Some(Next(row, days, UsedGracePassThisMonth(row.lastGracePassUsedAt, now), now))
  }

  function Record(row: Option<Streak>, now: int): Streak {
    if row.None? then Streak(1, 1, now, None)
    else
      var update := CalculateUpdate(row.value, now);
      if update.Some? then update.value else row.value
  }

  // ---- from clock times to calendar stamps -----------------------------------------------------------------

  /** The calendar day and month the service sees in a time. */
  function StampOf(t: int): Stamp {
    Stamp(UtcDay(Day(t)), MonthIndex(Day(t)))
  }

  /** The figures of a row under any way of stamping times. */
  function FiguresBy(stamp: int -> Stamp, row: Streak): Figures {
    Figures(row.currentStreak, row.longestStreak, stamp(row.lastActiveAt),
            if row.lastGracePassUsedAt.Some? then Some(stamp(row.lastGracePassUsedAt.value)) else None)
  }

  function FiguresOf(row: Streak): Figures {
    FiguresBy(StampOf, row)
  }

  lemma SameMonth(a: int, b: int)
    ensures UsedGracePassThisMonth(Some(a), b) <==> StampOf(a).month == StampOf(b).month
  {
    MonthIndexSame(Day(a), Day(b));
  }

  lemma PassIsStamp(row: Streak, now: int)
    ensures UsedGracePassThisMonth(row.lastGracePassUsedAt, now)
      <==> row.lastGracePassUsedAt.Some? && StampOf(row.lastGracePassUsedAt.value).month == StampOf(now).month
  {
    if row.lastGracePassUsedAt.Some? { SameMonth(row.lastGracePassUsedAt.value, now); }
  }

  /** The stored row after an update with these findings. */
  function Updated(row: Streak, days: int, passUsed: bool, now: int): Streak {
    if days <= 0 then row else Next(row, days, passUsed, now)
  }

  /** The row arithmetic is the figures' arithmetic, once gap and pass agree. */
  lemma UpdatedIsAdvance(stamp: int -> Stamp, row: Streak, days: int, passUsed: bool, now: int)
    requires days == stamp(now).day - stamp(row.lastActiveAt).day
    requires passUsed <==>
      row.lastGracePassUsedAt.Some? && stamp(row.lastGracePassUsedAt.value).month == stamp(now).month
    ensures FiguresBy(stamp, Updated(row, days, passUsed, now)) == Advance(FiguresBy(stamp, row), stamp(now))
  {
  }

  lemma RecordIsUpdated(row: Streak, now: int, days: int, passUsed: bool)
    requires days == CalendarDayDifference(row.lastActiveAt, now)
    requires passUsed == UsedGracePassThisMonth(row.lastGracePassUsedAt, now)
    ensures Record(Some(row), now) == Updated(row, days, passUsed, now)
  {
  }

  /** What the row update finds out about the two times, in terms of their stamps. */
  lemma Findings(row: Streak, now: int) returns (days: int, passUsed: bool)
    ensures days == StampOf(now).day - StampOf(row.lastActiveAt).day
    ensures passUsed <==>
      row.lastGracePassUsedAt.Some? && StampOf(row.lastGracePassUsedAt.value).month == StampOf(now).month
    ensures Record(Some(row), now) == Updated(row, days, passUsed, now)
  {
    days := CalendarDayDifference(row.lastActiveAt, now);
    passUsed := UsedGracePassThisMonth(row.lastGracePassUsedAt, now);
    PassIsStamp(row, now);
    RecordIsUpdated(row, now, days, passUsed);
  }

  lemma RecordIsAdvance(row: Streak, now: int)
    ensures FiguresOf(Record(Some(row), now)) == Advance(FiguresOf(row), StampOf(now))
  {
    var days, passUsed := Findings(row, now);
    UpdatedIsAdvance(StampOf, row, days, passUsed, now);
  }

  // ---- runs -----------------------------------------------------------------------------------------------

  /** The stored row after qualifying interactions at `times`, in whatever order the clock gave them. */
  function RowAfter(times: seq<int>): Streak
    requires times != []
  {
    if |times| == 1 then Record(None, times[0])
    else Record(Some(RowAfter(times[..|times| - 1])), times[|times| - 1])
  }

  function StampsOf(times: seq<int>): (s: seq<Stamp>)
    ensures |s| == |times| && forall i :: 0 <= i < |s| ==> s[i] == StampOf(times[i])
  {
    seq(|times|, i requires 0 <= i < |times| => StampOf(times[i]))
  }

  predicate AllModern(times: seq<int>) {
    forall i :: 0 <= i < |times| ==> Modern(Day(times[i]))
  }

  lemma {:induction false} RowIsFigures(times: seq<int>)
    requires times != []
    ensures FiguresOf(RowAfter(times)) == FiguresAfter(StampsOf(times))
  {
    if |times| > 1 {
      var init := times[..|times| - 1];
      RowIsFigures(init);
      RecordIsAdvance(RowAfter(init), times[|times| - 1]);
      FiguresNext(times);
    }
  }

  lemma FiguresNext(times: seq<int>)
    requires |times| > 1
    ensures FiguresAfter(StampsOf(times))
      == Advance(FiguresAfter(StampsOf(times[..|times| - 1])), StampOf(times[|times| - 1]))
  {
    assert StampsOf(times)[..|times| - 1] == StampsOf(times[..|times| - 1]);
  }

  /** Outside the years 0 to 99 the stamps are the true calendar days, so a later day never lies in an earlier month. */
  lemma StampsInOrder(times: seq<int>)
    requires AllModern(times)
    ensures AllInOrder(StampsOf(times))
    ensures forall i :: 0 <= i < |times| ==> StampsOf(times)[i].day == Day(times[i])
  {
    var s := StampsOf(times);
    forall i | 0 <= i < |s| ensures s[i].day == Day(times[i]) {
      DateUtcInverts(Day(times[i]));
    }
    forall i, j | 0 <= i < |s| && 0 <= j < |s| ensures InOrder(s[i], s[j]) {
      if Day(times[i]) <= Day(times[j]) { MonthIndexMonotone(Day(times[i]), Day(times[j])); }
    }
  }

  /**
   * For every sequence of interactions, the stored row means what its chains of calendar days say, and its last day is
   * the latest one.
   */
  lemma StreakMeaning(times: seq<int>)
    requires times != [] && AllModern(times)
    ensures Means(FiguresOf(RowAfter(times)), HistoryAfter(StampsOf(times)))
    ensures forall i :: 0 <= i < |times| ==>
      StampsOf(times)[i].day == Day(times[i]) <= FiguresOf(RowAfter(times)).last.day
    ensures FiguresOf(RowAfter(times)).last in StampsOf(times)
  {
    RowIsFigures(times);
    StampsInOrder(times);
    var s := StampsOf(times);
    HistoryMeans(s);
    forall i | 0 <= i < |times| ensures s[i].day <= FiguresAfter(s).last.day { assert s[i] in s; }
  }

  // ---- the stored rows -----------------------------------------------------------------------------------

  const QUALIFYING := {"TRANSFER_SENT", "REQUEST_CREATED", "REQUEST_PAID", "SPLIT_CREATED", "SPLIT_PAID",
    "ENVELOPE_CREATED", "ENVELOPE_CLAIMED", "REFERRAL_REGISTERED", "BOT_COMMAND", "APP_LOGIN"}

  class GrowthService {
    var streaks: map<string, Streak>

    constructor ()
      ensures streaks == map[]
    {
      streaks := map[];
    }

    /** A qualifying interaction advances only its user's row; others change nothing. */
    method RecordInteraction(user: string, kind: string, now: int)
      modifies this
      ensures kind !in QUALIFYING ==> streaks == old(streaks)
      ensures kind in QUALIFYING ==>
        streaks == old(streaks)[user := Record(if user in old(streaks) then Some(old(streaks)[user]) else None, now)]
    {
      if kind !in QUALIFYING { return; }
      if user !in streaks {
        streaks := streaks[user := Streak(1, 1, now, None)];
        return;
      }
      var update := CalculateUpdate(streaks[user], now);
      if update.Some? {
        streaks := streaks[user := update.value];
      } else {
        assert streaks[user := streaks[user]] == streaks;
      }
    }
  }
}
