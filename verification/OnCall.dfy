/** Week and window arithmetic of the on-call rotation, on the worker's side and on the
    API's, and the shifts the worker materializes. */
module OnCall {
  import opened Arithmetic
  import opened Options

  const MS_PER_MINUTE := 60000
  const MS_PER_DAY := 86400000
  const MS_PER_WEEK := 604800000
  const MINUTES_PER_DAY := 1440

  // ---- weeks ---------------------------------------------------------------

  function DayOf(ms: int): int {
    ms / MS_PER_DAY
  }

  /** Sunday is 0; the epoch was a Thursday. */
  function UtcDay(ms: int): int {
    (DayOf(ms) + 4) % 7
  }

  /** Monday midnight, UTC. */
  function WeekStart(ms: int): int {
    (DayOf(ms) - (UtcDay(ms) + 6) % 7) * MS_PER_DAY
  }

  function WeekIndex(ms: int): int {
    WeekStart(ms) / MS_PER_WEEK
  }

  ghost predicate MondayMidnight(ms: int) {
    ms % MS_PER_DAY == 0 && UtcDay(ms) == 1
  }

  /** The week start is the last Monday midnight not after the instant. */
  lemma WeekStartIsLastMonday(ms: int)
    ensures MondayMidnight(WeekStart(ms))
    ensures WeekStart(ms) <= ms < WeekStart(ms) + MS_PER_WEEK
  {
  }

  /** The worker's week count goes up by one a week, from -1 in the week of the epoch. */
  lemma WeeksCountUp(ms: int)
    ensures WeekIndex(ms + MS_PER_WEEK) == WeekIndex(ms) + 1
    ensures WeekIndex(0) == -1
  {
    assert DayOf(ms + MS_PER_WEEK) == DayOf(ms) + 7;
    FullTurn(DayOf(ms) + 4, 7);
    assert WeekStart(ms + MS_PER_WEEK) == WeekStart(ms) + MS_PER_WEEK;
    hide WeekStart, UtcDay, DayOf;
    FullTurn(WeekStart(ms), MS_PER_WEEK);
    EpochWeek();
  }

  lemma EpochWeek()
    ensures WeekIndex(0) == -1
  {
  }

  // ---- rotation ------------------------------------------------------------

  /** JavaScript's remainder takes the sign of the dividend. */
  function Remainder(a: int, n: int): int
    requires n > 0
  {
    if a >= 0 then a % n else -(-a % n)
  }

  /** `order[week % order.length]`; a negative index reads undefined. */
  function Slot(order: seq<string>, week: int): Option<string> {
    if order == [] || Remainder(week, |order|) < 0 then None else Some(order[Remainder(week, |order|)])
  }

  /** Any |order| consecutive weeks from the epoch on pick each slot exactly once. */
  lemma EachSlotOncePerCycle(week: nat, n: nat, slot: nat)
    requires slot < n
    ensures exists w: int :: week <= w < week + n && Remainder(w, n) == slot &&
              forall v: int :: week <= v < week + n && Remainder(v, n) == slot ==> v == w
  {
    var base := week / n * n + slot;
    var w := if base >= week then base else base + n;
    assert week == week / n * n + week % n;
    DivModUnique(base, n, week / n, slot);
    FullTurn(base, n);
    assert week <= w < week + n && Remainder(w, n) == slot;
    forall v: int | week <= v < week + n && Remainder(v, n) == slot ensures v == w {
      SameRemainder(v, w, n);
    }
  }

  lemma SameRemainder(v: int, w: int, n: int)
    requires n > 0 && v % n == w % n && -n < v - w < n
    ensures v == w
  {
    var d := v / n - w / n;
    assert d * n == v / n * n - w / n * n;
    MultipleIsFar(d, n);
  }

  // ---- the API's answer ----------------------------------------------------

  /** A time "HH:MM". */
  datatype TimeOfDay = TimeOfDay(hour: nat, minute: nat)

  function HourToMinutes(t: TimeOfDay): int {
    t.hour * 60 + t.minute
  }

  predicate OnTheClock(t: TimeOfDay) {
    t.hour < 24 && t.minute < 60
  }

  function LocalMinutes(localMs: int): int {
    Remainder(Remainder(localMs / MS_PER_MINUTE, MINUTES_PER_DAY) + MINUTES_PER_DAY, MINUTES_PER_DAY)
  }

  predicate InsideWindow(minutes: int, start: int, end: int) {
    if start <= end then start <= minutes < end else minutes >= start || minutes < end
  }

  function ApiWeekIndex(localMs: int): int {
    DayOf(localMs) / 7
  }

  /** The engineer on call at `now`, with the schedule's time zone `offset` minutes behind
      UTC. */
  function ComputeActiveEngineer(
    order: seq<string>, offset: int, start: TimeOfDay, end: TimeOfDay, now: int): Option<string>
  {
    if order == [] then None
    else
      var localMs := now - offset * MS_PER_MINUTE;
      if !InsideWindow(LocalMinutes(localMs), HourToMinutes(start), HourToMinutes(end)) then None
      else Slot(order, ApiWeekIndex(localMs))
  }

  /** The double remainder is the minute of the local day, before the epoch as well. */
  lemma LocalMinutesOfDay(localMs: int)
    ensures LocalMinutes(localMs) == localMs / MS_PER_MINUTE % MINUTES_PER_DAY
    ensures 0 <= LocalMinutes(localMs) < MINUTES_PER_DAY
  {
    var n := MINUTES_PER_DAY;
    var minutes := localMs / MS_PER_MINUTE;
    RemainderIsModulo(minutes, n);
    var r := Remainder(minutes, n);
    if r == minutes % n {
      DivModUnique(r + n, n, 1, r);
    } else {
      DivModUnique(r + n, n, 0, r + n);
    }
  }

  /** The signed remainder is the modulus, or one divisor less. */
  lemma RemainderIsModulo(a: int, n: int)
    requires n > 0
    ensures Remainder(a, n) == a % n || Remainder(a, n) == a % n - n
    ensures a >= 0 ==> Remainder(a, n) == a % n
  {
    if a < 0 {
      var q, r := -a / n, -a % n;
      assert -a == q * n + r;
      if r == 0 {
        assert a == (-q) * n;
        DivModUnique(a, n, -q, 0);
      } else {
        assert a == (-q - 1) * n + (n - r);
        DivModUnique(a, n, -q - 1, n - r);
      }
    }
  }

  /** A window is the arc of the day that begins at its start and ends before its end,
      overnight or not: a minute is inside exactly if it comes, counted from the start and
      round the clock, before the end does. */
  lemma WindowIsAnArc(minute: int, start: int, end: int)
    requires 0 <= minute < MINUTES_PER_DAY && 0 <= start < MINUTES_PER_DAY && 0 <= end < MINUTES_PER_DAY
    ensures InsideWindow(minute, start, end) <==>
            (minute - start) % MINUTES_PER_DAY < (end - start) % MINUTES_PER_DAY
  {
  }

  /** Stepping one minute forward round the clock, one leaves a window only on reaching its
      end and enters it only on reaching its start. */
  lemma WindowChangesAtItsEnds(minute: int, start: int, end: int)
    requires 0 <= minute < MINUTES_PER_DAY && 0 <= start < MINUTES_PER_DAY && 0 <= end < MINUTES_PER_DAY
    ensures var next := (minute + 1) % MINUTES_PER_DAY;
            && (InsideWindow(minute, start, end) && !InsideWindow(next, start, end) ==> next == end)
            && (!InsideWindow(minute, start, end) && InsideWindow(next, start, end) ==> next == start)
  {
  }

  lemma LocalMinute(now: int, offset: int)
    ensures (now - offset * MS_PER_MINUTE) / MS_PER_MINUTE == now / MS_PER_MINUTE - offset
  {
  }

  lemma WeekOfMinute(localMs: int)
    ensures ApiWeekIndex(localMs) == localMs / MS_PER_MINUTE / 10080
  {
    var minute := localMs / MS_PER_MINUTE;
    assert DayOf(localMs) == minute / MINUTES_PER_DAY;
    assert minute / MINUTES_PER_DAY / 7 == minute / 10080;
  }

  lemma RoundTheClock(minute: int, from: int)
    ensures (minute % MINUTES_PER_DAY - from) % MINUTES_PER_DAY == (minute - from) % MINUTES_PER_DAY
  {
  }

  lemma MinutesOnTheClock(t: TimeOfDay)
    requires OnTheClock(t)
    ensures HourToMinutes(t) == t.hour * 60 + t.minute && 0 <= HourToMinutes(t) < MINUTES_PER_DAY
  {
  }

  /** The API's answer from the local clock, for any time zone: the minute is counted from
      the start of the window, the week is seven times 1440 minutes. */
  lemma ActiveEngineerByTheClock(order: seq<string>, offset: int, start: TimeOfDay, end: TimeOfDay, now: int)
    requires order != [] && OnTheClock(start) && OnTheClock(end)
    requires now / 60000 - offset >= 0
    ensures var minute := now / 60000 - offset;
            var from, to := start.hour * 60 + start.minute, end.hour * 60 + end.minute;
            ComputeActiveEngineer(order, offset, start, end, now) ==
            if (minute - from) % 1440 < (to - from) % 1440 then Some(order[minute / 10080 % |order|]) else None
  {
    hide InsideWindow, LocalMinutes, Slot, HourToMinutes, OnTheClock, ApiWeekIndex;
    var localMs := now - offset * MS_PER_MINUTE;
    var minute := now / MS_PER_MINUTE - offset;
    LocalMinute(now, offset);
    LocalMinutesOfDay(localMs);
    MinutesOnTheClock(start);
    MinutesOnTheClock(end);
    WindowIsAnArc(minute % MINUTES_PER_DAY, HourToMinutes(start), HourToMinutes(end));
    RoundTheClock(minute, HourToMinutes(start));
    WeekOfMinute(localMs);
    SlotFromTheEpoch(order, minute / 10080);
  }

  /** The instant at which a clock `offset` minutes behind UTC shows `t` on local day `day`. */
  function InstantOf(day: int, t: TimeOfDay, offset: int): int {
    day * MS_PER_DAY + t.hour * 3600000 + t.minute * 60000 + offset * MS_PER_MINUTE
  }

  lemma MinuteOfInstant(day: int, t: TimeOfDay, offset: int)
    ensures InstantOf(day, t, offset) / 60000 - offset == day * 1440 + (t.hour * 60 + t.minute)
  {
  }

  lemma WholeDays(day: int, minutes: int)
    ensures (day * 1440 + minutes) % 1440 == minutes % 1440
  {
  }

  lemma SameMinute(t: TimeOfDay, u: TimeOfDay)
    requires OnTheClock(t) && OnTheClock(u)
    ensures (u.hour * 60 + u.minute - (t.hour * 60 + t.minute)) % 1440 == 0 <==> t == u
  {
  }

  /** Someone is on call as the window starts, unless it is empty, and no one as it ends. */
  lemma OnCallFromStartToEnd(order: seq<string>, offset: int, start: TimeOfDay, end: TimeOfDay, day: nat)
    requires order != [] && OnTheClock(start) && OnTheClock(end)
    ensures ComputeActiveEngineer(order, offset, start, end, InstantOf(day, start, offset)) != None <==> start != end
    ensures ComputeActiveEngineer(order, offset, start, end, InstantOf(day, end, offset)) == None
  {
    hide ComputeActiveEngineer, InstantOf, OnTheClock;
    var from, to := start.hour * 60 + start.minute, end.hour * 60 + end.minute;
    MinuteOfInstant(day, start, offset);
    MinuteOfInstant(day, end, offset);
    ActiveEngineerByTheClock(order, offset, start, end, InstantOf(day, start, offset));
    ActiveEngineerByTheClock(order, offset, start, end, InstantOf(day, end, offset));
    WholeDays(day, 0);
    WholeDays(day, to - from);
    SameMinute(start, end);
    assert day * 1440 + from - from == day * 1440 + 0;
    assert day * 1440 + to - from == day * 1440 + (to - from);
  }

  /** The windows [a,b) and [b,a) share no minute and leave none out: at every instant one
      of two complementary schedules has someone on call, and only one. Equal ends make an
      empty window. */
  lemma WindowsPartitionTheDay(order: seq<string>, offset: int, a: TimeOfDay, b: TimeOfDay, now: int)
    requires order != [] && OnTheClock(a) && OnTheClock(b)
    requires now - offset * MS_PER_MINUTE >= 0
    ensures a != b ==>
              (ComputeActiveEngineer(order, offset, a, b, now) == None <==>
               ComputeActiveEngineer(order, offset, b, a, now) != None)
    ensures a == b ==> ComputeActiveEngineer(order, offset, a, b, now) == None
  {
  }

  /** The two week counts differ: the API's weeks begin on Thursday, the worker's on
      Monday. From the first Monday after the epoch they agree Monday to Wednesday, and
      the API is one ahead from Thursday to Sunday. */
  lemma ApiWeekRunsAhead(now: int)
    requires now >= 4 * MS_PER_DAY
    ensures ApiWeekIndex(now) == WeekIndex(now) + if UtcDay(now) in {1, 2, 3} then 0 else 1
    ensures WeekIndex(now) >= 0
  {
  }

  /** One slot on is the same slot only in a rotation of one. */
  lemma NextSlotDiffers(w: int, n: nat)
    requires n > 0 && (w + 1) % n == w % n
    ensures n == 1
  {
    if n > 1 {
      SameRemainder(w + 1, w, n);
    }
  }

  lemma SlotFromTheEpoch(order: seq<string>, week: nat)
    requires order != []
    ensures Slot(order, week) == Some(order[week % |order|])
  {
  }

  /** So in UTC the engineer the API names is the one whose shift the worker wrote exactly
      if the schedule's window contains the instant and it is Monday to Wednesday, or the
      rotation gives the next week to the same engineer. */
  lemma ApiAgreesWithShifts(order: seq<string>, start: TimeOfDay, end: TimeOfDay, now: int)
    requires order != [] && now >= 4 * MS_PER_DAY
    ensures WeekIndex(now) >= 0
    ensures var w := WeekIndex(now);
            ComputeActiveEngineer(order, 0, start, end, now) == Slot(order, w) <==>
            && InsideWindow(LocalMinutes(now), HourToMinutes(start), HourToMinutes(end))
            && (UtcDay(now) in {1, 2, 3} || order[(w + 1) % |order|] == order[w % |order|])
  {
    hide LocalMinutes, WeekIndex, ApiWeekIndex, UtcDay, Slot, InsideWindow;
    ApiWeekRunsAhead(now);
    var w := WeekIndex(now);
    SlotFromTheEpoch(order, w);
    SlotFromTheEpoch(order, w + 1);
  }

  /** With every engineer named once they agree from Monday to Wednesday only, unless there
      is just one engineer. */
  lemma DistinctRotationsAgreeUntilWednesday(order: seq<string>, start: TimeOfDay, end: TimeOfDay, now: int)
    requires order != [] && now >= 4 * MS_PER_DAY
    requires forall j, k :: 0 <= j < k < |order| ==> order[j] != order[k]
    requires InsideWindow(LocalMinutes(now), HourToMinutes(start), HourToMinutes(end))
    ensures ComputeActiveEngineer(order, 0, start, end, now) == Slot(order, WeekIndex(now)) <==>
            UtcDay(now) in {1, 2, 3} || |order| == 1
  {
    hide LocalMinutes, WeekIndex, UtcDay, Slot, InsideWindow, ComputeActiveEngineer, HourToMinutes;
    ApiAgreesWithShifts(order, start, end, now);
    var w := WeekIndex(now);
    if order[(w + 1) % |order|] == order[w % |order|] {
      NextSlotDiffers(w, |order|);
    }
  }

  // ---- materialized shifts -------------------------------------------------

  datatype Schedule = Schedule(id: nat, order: seq<string>)

  datatype Shift = Shift(user: string, startsAt: int, endsAt: int)

  /** The text key "<schedule>:<start>". */
  type ShiftKey = (nat, int)

  const RETENTION_MS := 2592000000

  predicate Covers(s: Shift, now: int) {
    s.startsAt <= now < s.endsAt
  }

  /** Someone can be put on shift: the rotation names a non-empty user. */
  predicate Staffed(s: Schedule, now: int) {
    var slot := Slot(s.order, WeekIndex(now));
    slot.Some? && slot.value != ""
  }

  ghost predicate ShiftOk(key: ShiftKey, s: Shift) {
    s.startsAt == key.1 && MondayMidnight(s.startsAt) && s.endsAt == s.startsAt + MS_PER_WEEK
  }

  function Kept(shifts: map<ShiftKey, Shift>, now: int): map<ShiftKey, Shift> {
    map k | k in shifts && shifts[k].endsAt >= now - RETENTION_MS :: shifts[k]
  }

  ghost predicate AllOk(shifts: map<ShiftKey, Shift>) {
    forall k :: k in shifts ==> ShiftOk(k, shifts[k])
  }

  /** The current week's shift of `s`, if someone is to have it and no one has it yet. */
  function WithShift(shifts: map<ShiftKey, Shift>, s: Schedule, now: int): map<ShiftKey, Shift> {
    var start := WeekStart(now);
    if Staffed(s, now) && (s.id, start) !in shifts then
      shifts[(s.id, start) := Shift(Slot(s.order, WeekIndex(now)).value, start, start + MS_PER_WEEK)]
    else shifts
  }

  function WithAllShifts(shifts: map<ShiftKey, Shift>, schedules: seq<Schedule>, now: int): map<ShiftKey, Shift> {
    if schedules == [] then shifts
    else
      var n := |schedules| - 1;
      WithShift(WithAllShifts(shifts, schedules[..n], now), schedules[n], now)
  }

  /** What is on the table after the worker has run. */
  function Materialized(shifts: map<ShiftKey, Shift>, schedules: seq<Schedule>, now: int): map<ShiftKey, Shift> {
    Kept(WithAllShifts(shifts, schedules, now), now)
  }

  /** Rows that were there stay as they are; a new row is the current week's of one of the
      schedules, for the engineer whose turn it is; every staffed schedule has its row. */
  lemma {:induction false} AllShiftsWritten(shifts: map<ShiftKey, Shift>, schedules: seq<Schedule>, now: int)
    requires AllOk(shifts)
    ensures var written := WithAllShifts(shifts, schedules, now);
            && AllOk(written)
            && (forall k :: k in shifts ==> k in written && written[k] == shifts[k])
            && (forall s :: s in schedules && Staffed(s, now) ==> (s.id, WeekStart(now)) in written)
            && (forall k :: k in written && k !in shifts ==>
                  k.1 == WeekStart(now) &&
                  exists s :: s in schedules && s.id == k.0 && Slot(s.order, WeekIndex(now)) == Some(written[k].user))
  {
    hide Slot, WeekIndex;
    WeekStartIsLastMonday(now);
    hide WeekStart, MondayMidnight;
    if schedules != [] {
      var n := |schedules| - 1;
      AllShiftsWritten(shifts, schedules[..n], now);
      assert schedules == schedules[..n] + [schedules[n]];
      var written := WithAllShifts(shifts, schedules, now);
      forall k | k in written && k !in shifts
        ensures k.1 == WeekStart(now)
        ensures exists s :: s in schedules && s.id == k.0 && Slot(s.order, WeekIndex(now)) == Some(written[k].user)
      {
        if k !in WithAllShifts(shifts, schedules[..n], now) {
          assert schedules[n] in schedules;
        } else {
          var s :| s in schedules[..n] && s.id == k.0 && Slot(s.order, WeekIndex(now)) == Some(written[k].user);
          assert s in schedules;
        }
      }
    }
  }

  /** The current week's rows survive the clean-up, so every staffed schedule has exactly
      one shift that covers the instant. */
  lemma MaterializedCoversNow(shifts: map<ShiftKey, Shift>, schedules: seq<Schedule>, s: Schedule, now: int)
    requires AllOk(shifts) && s in schedules && Staffed(s, now)
    ensures var after := Materialized(shifts, schedules, now);
            var key := (s.id, WeekStart(now));
            && AllOk(after)
            && key in after && Covers(after[key], now)
            && forall k :: k in after && k.0 == s.id && Covers(after[k], now) ==> k == key
  {
    AllShiftsWritten(shifts, schedules, now);
    WeekStartIsLastMonday(now);
    ExactlyOneShiftCovers(WithAllShifts(shifts, schedules, now), s.id, now);
  }

  /** Run again later in the same week, the worker adds nothing: it only drops what has
      meanwhile become too old. */
  lemma {:induction false} MaterializeIsIdempotent(
    shifts: map<ShiftKey, Shift>, schedules: seq<Schedule>, now: int, later: int)
    requires AllOk(shifts) && WeekStart(later) == WeekStart(now) && now <= later
    ensures var once := Materialized(shifts, schedules, now);
            Materialized(once, schedules, later) == Kept(once, later)
  {
    var once := Materialized(shifts, schedules, now);
    forall s | s in schedules && Staffed(s, now) ensures (s.id, WeekStart(now)) in once {
      MaterializedCoversNow(shifts, schedules, s, now);
    }
    NothingToAdd(once, schedules, later);
  }

  /** A shift that is on the table stays there unchanged until 30 days after its end, and a
      run after that drops it. */
  lemma ShiftsAreKeptThirtyDays(shifts: map<ShiftKey, Shift>, schedules: seq<Schedule>, k: ShiftKey, later: int)
    requires AllOk(shifts) && k in shifts
    ensures var after := Materialized(shifts, schedules, later);
            && (k in after <==> later <= shifts[k].endsAt + 30 * MS_PER_DAY)
            && (k in after ==> after[k] == shifts[k])
  {
    AllShiftsWritten(shifts, schedules, later);
  }

  lemma {:induction false} NothingToAdd(shifts: map<ShiftKey, Shift>, schedules: seq<Schedule>, now: int)
    requires forall s :: s in schedules && Staffed(s, now) ==> (s.id, WeekStart(now)) in shifts
    ensures WithAllShifts(shifts, schedules, now) == shifts
  {
    if schedules != [] {
      NothingToAdd(shifts, schedules[..|schedules| - 1], now);
    }
  }

  lemma KeptAreOk(shifts: map<ShiftKey, Shift>, now: int)
    requires AllOk(shifts)
    ensures AllOk(Kept(shifts, now))
  {
  }

  lemma NoScheduleYet(shifts: map<ShiftKey, Shift>, schedules: seq<Schedule>, now: int)
    ensures WithAllShifts(shifts, schedules[..0], now) == shifts
  {
  }

  lemma OneMoreSchedule(shifts: map<ShiftKey, Shift>, schedules: seq<Schedule>, i: nat, now: int)
    requires i < |schedules|
    ensures WithAllShifts(shifts, schedules[..i + 1], now) ==
            WithShift(WithAllShifts(shifts, schedules[..i], now), schedules[i], now)
  {
    assert schedules[..i + 1][..i] == schedules[..i];
  }

  class ShiftTable {
    var shifts: map<ShiftKey, Shift>

    ghost predicate Valid()
      reads this
    {
      AllOk(shifts)
    }

    constructor ()
      ensures Valid() && shifts == map[]
    {
      shifts := map[];
    }

    /** Writes a row unless its key is taken. */
    method UpsertShift(key: ShiftKey, row: Shift) returns (added: nat)
      modifies this
      ensures shifts == if key in old(shifts) then old(shifts) else old(shifts)[key := row]
      ensures added == |shifts| - |old(shifts)|
    {
      added := 0;
      if key !in shifts {
        shifts := shifts[key := row];
        added := 1;
      }
    }

    /** Writes the current week's shift of every staffed schedule that has none yet, and
        drops shifts that ended more than 30 days ago. */
    method MaterializeShifts(schedules: seq<Schedule>, now: int) returns (inserted: nat)
      requires Valid()
      modifies this
      ensures Valid() && shifts == Materialized(old(shifts), schedules, now)
      ensures inserted == |WithAllShifts(old(shifts), schedules, now)| - |old(shifts)|
    {
      assert AllOk(Materialized(shifts, schedules, now)) by {
        AllShiftsWritten(shifts, schedules, now);
        KeptAreOk(WithAllShifts(shifts, schedules, now), now);
      }
      hide AllOk, Slot, Remainder, WeekStart, WeekIndex, Kept, WithAllShifts;
      var start := WeekStart(now);
      var end := start + MS_PER_WEEK;
      var week := WeekIndex(now);
      inserted := 0;
      var i := 0;
      NoScheduleYet(shifts, schedules, now);
      while i < |schedules|
        invariant i <= |schedules|
        invariant shifts == WithAllShifts(old(shifts), schedules[..i], now)
        invariant inserted == |shifts| - |old(shifts)|
      {
        var s := schedules[i];
        OneMoreSchedule(old(shifts), schedules, i, now);
        i := i + 1;
        if |s.order| == 0 {
          continue;
        }
        var user := Slot(s.order, week);
        if user.None? || user.value == "" {
          continue;
        }
        var added := UpsertShift((s.id, start), Shift(user.value, start, end));
        inserted := inserted + added;
      }
      assert schedules[..i] == schedules;
      shifts := Kept(shifts, now);
    }
  }

  /** The shifts of one schedule never overlap, whenever they were written. */
  lemma ShiftsAreDisjoint(shifts: map<ShiftKey, Shift>, j: ShiftKey, k: ShiftKey, at: int)
    requires AllOk(shifts)
    requires j in shifts && k in shifts && j.0 == k.0 && Covers(shifts[j], at) && Covers(shifts[k], at)
    ensures j == k
  {
  }

  /** A shift under the current week's key covers the instant, and it is the only one of
      its schedule that does. */
  lemma ExactlyOneShiftCovers(shifts: map<ShiftKey, Shift>, schedule: nat, now: int)
    requires AllOk(shifts)
    requires (schedule, WeekStart(now)) in shifts
    ensures Covers(shifts[(schedule, WeekStart(now))], now)
    ensures forall k :: k in shifts && k.0 == schedule && Covers(shifts[k], now) ==> k == (schedule, WeekStart(now))
  {
    WeekStartIsLastMonday(now);
    var key := (schedule, WeekStart(now));
    assert ShiftOk(key, shifts[key]);
    forall k | k in shifts && k.0 == schedule && Covers(shifts[k], now) ensures k == key {
      ShiftsAreDisjoint(shifts, k, key, now);
    }
  }
}
