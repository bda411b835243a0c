/** `AvailabilitySlotService.generate_slots_for_shift` (schedules/services.py):
    walk a date range, keep the shift's weekday, skip dates blocked by an
    unavailable override or an active leave, and cut the shift into slots of
    a fixed length around its break.

    The specification is three functions: `DayDrafts` (one date), `DayOpen`
    (which dates get slots) and `RangeDrafts` (the whole range). The method
    `DraftSlots` is the source's nested loop corrected: a slot ends at t + d
    on the same date, where the source's `.time()` wraps at midnight. It is
    proved equal to `RangeDrafts`, and the lemmas state what the slots look
    like. The end of the module models the inner loop as written
    (`WrappedDayDrafts`) and shows where the two agree and where they part. */
module SlotGeneration {
  import opened Base
  import opened ScheduleRecords
  import opened ScheduleQueries

  /** A slot the generator proposes; it is saved available and unbooked. */
  datatype Draft = Draft(date: Date, startTime: Time, endTime: Time)

  /** Everything one call reads: the shift, its duty's doctor, the slot length,
      the override and leave tables, and the current date (for the active-leave query). */
  datatype Plan = Plan(shift: Shift, doctor: int, duration: int,
                       overrides: seq<Override>, leaves: seq<Leave>, today: Date)

  predicate HasBreak(s: Shift) { s.breakStart.Some? && s.breakEnd.Some? }

  /** A candidate [t, e] is kept unless both break bounds are set and it overlaps the break. */
  predicate ClearOfBreak(s: Shift, t: int, e: int) {
    !HasBreak(s) || e <= s.breakStart.value || t >= s.breakEnd.value
  }

  /** `x` is one of t, t + d, t + 2d, ... */
  predicate OnGrid(t: int, d: int, x: int)
    requires d > 0
    decreases x - t
  {
    x == t || (x >= t + d && OnGrid(t + d, d, x))
  }

  /** The slots of one date, walking the shift from time `t`: every candidate
      [t, t + d] that ends by the shift end is considered, a candidate that
      overlaps the break is dropped, and the walk always advances by d. */
  function DayDrafts(s: Shift, d: int, date: Date, t: int): seq<Draft>
    requires d > 0 && 0 <= t
    decreases s.endTime - t
  {
    if t + d > s.endTime then []
    else (if ClearOfBreak(s, t, t + d) then [Draft(date, t, t + d)] else [])
         + DayDrafts(s, d, date, t + d)
  }

  predicate BlockedByOverride(p: Plan, date: Date) {
    var o := OverrideFor(p.overrides, p.doctor, date);
    o.Some? && !o.value.isAvailable
  }

  /** Some leave that is active today (not necessarily on `date`) covers `date`. */
  predicate OnLeave(p: Plan, date: Date) {
    exists l :: l in ActiveLeaves(p.leaves, p.doctor, p.today) && l.startDate <= date <= l.endDate
  }

  /** A date gets slots iff it is the shift's weekday and neither an
      unavailable override nor an active leave blocks it. */
  predicate DayOpen(p: Plan, date: Date) {
    Weekday(date) == p.shift.dayOfWeek && !BlockedByOverride(p, date) && !OnLeave(p, date)
  }

  /** All slots from `date` to `endDate`, date by date. */
  function RangeDrafts(p: Plan, date: Date, endDate: Date): seq<Draft>
    requires p.duration > 0
    decreases endDate - date
  {
    if date > endDate then []
    else (if DayOpen(p, date) then DayDrafts(p.shift, p.duration, date, p.shift.startTime) else [])
         + RangeDrafts(p, date + 1, endDate)
  }

  function CoversDate(l: Leave, date: Date): bool { l.startDate <= date <= l.endDate }

  /** The `any(...)` over the active leaves. */
  function AnyLeaveCovers(leaves: seq<Leave>, date: Date): (r: bool)
    ensures r <==> exists l :: l in leaves && l.startDate <= date <= l.endDate
  {
    var hits := Filter(leaves, l => CoversDate(l, date));
    assert |hits| > 0 ==> hits[0] in hits;
    |hits| > 0
  }

  // ---------------------------------------------------------------------
  // the source's loops

  /** The inner loop, corrected: the slots of one date, cut from the shift
      start, with each slot ending at the unwrapped t + d. */
  method CutDay(s: Shift, d: int, date: Date) returns (day: seq<Draft>)
    requires d > 0
    ensures day == DayDrafts(s, d, date, s.startTime)
  {
    var t: int := s.startTime;
    day := [];
    while true
      invariant s.startTime <= t
      invariant day + DayDrafts(s, d, date, t) == DayDrafts(s, d, date, s.startTime)
      decreases s.endTime - t
    {
      DayStep(s, d, date, t);
      var slotEnd := t + d;
      if slotEnd > s.endTime {
        break;
      }
      if s.breakStart.Some? && s.breakEnd.Some? {
        if !(slotEnd <= s.breakStart.value || t >= s.breakEnd.value) {
          t := t + d;
          continue;
        }
      }
      day := day + [Draft(date, t, slotEnd)];
      t := slotEnd;
    }
  }

  /** One candidate of the walk: none past the shift end, otherwise the
      candidate when it clears the break, then the rest. */
  lemma DayStep(s: Shift, d: int, date: Date, t: int)
    requires d > 0 && 0 <= t
    ensures t + d > s.endTime ==> DayDrafts(s, d, date, t) == []
    ensures t + d <= s.endTime ==>
      DayDrafts(s, d, date, t) == (if ClearOfBreak(s, t, t + d) then [Draft(date, t, t + d)] else []) + DayDrafts(s, d, date, t + d)
  {
  }

  /** On this date the loop asks for the doctor's override and the doctor
      has two, so `get_override_for_date` raises MultipleObjectsReturned. */
  predicate ClashOn(p: Plan, date: Date) {
    Weekday(date) == p.shift.dayOfWeek && OverrideLookup(p.overrides, p.doctor, date).Failure?
  }

  /** Some date from `date` to `endDate` satisfies `f`. */
  predicate SomeDate(f: Date -> bool, date: Date, endDate: Date)
    decreases endDate - date
  {
    date <= endDate && (f(date) || SomeDate(f, date + 1, endDate))
  }

  lemma {:induction false} SomeDateIff(f: Date -> bool, date: Date, endDate: Date)
    ensures SomeDate(f, date, endDate) <==> exists d :: date <= d <= endDate && f(d)
    decreases endDate - date
  {
    if date <= endDate {
      SomeDateIff(f, date + 1, endDate);
      if !f(date) {
        assert forall d :: date <= d <= endDate && f(d) ==> date + 1 <= d;
      }
    }
  }

  /** Some date from `date` to `endDate` makes the override lookup raise. */
  predicate RangeClash(p: Plan, date: Date, endDate: Date) {
    SomeDate(ClashTest(p), date, endDate)
  }

  function ClashTest(p: Plan): Date -> bool { d => ClashOn(p, d) }

  lemma RangeClashIff(p: Plan, date: Date, endDate: Date)
    ensures RangeClash(p, date, endDate) <==> exists d :: date <= d <= endDate && ClashOn(p, d)
  {
    SomeDateIff(ClashTest(p), date, endDate);
    assert forall d :: ClashTest(p)(d) == ClashOn(p, d);
  }

  /** One date of the range decides the clash or passes it on. */
  lemma ClashStep(p: Plan, date: Date, endDate: Date)
    ensures date > endDate ==> !RangeClash(p, date, endDate)
    ensures date <= endDate ==>
      (RangeClash(p, date, endDate) <==> ClashOn(p, date) || RangeClash(p, date + 1, endDate))
  {
    assert ClashTest(p)(date) == ClashOn(p, date);
  }

  /** The slot drafts `generate_slots_for_shift` collects before saving
      them, or the MultipleObjectsReturned an override lookup raises. */
  method DraftSlots(p: Plan, startDate: Date, endDate: Date) returns (r: Result<seq<Draft>>)
    requires p.duration > 0
    ensures r.Failure? <==> RangeClash(p, startDate, endDate)
    ensures r.Failure? ==> r.error == "MultipleObjectsReturned"
    ensures r.Success? ==> r.value == RangeDrafts(p, startDate, endDate)
  {
    var drafts := [];
    var date := startDate;
    while date <= endDate
      invariant drafts + RangeDrafts(p, date, endDate) == RangeDrafts(p, startDate, endDate)
      invariant RangeClash(p, startDate, endDate) == RangeClash(p, date, endDate)
      decreases endDate - date
    {
      ClashStep(p, date, endDate);
      var day := DraftDay(p, date);
      if day.Failure? {
        return Failure(day.error);
      }
      DraftsStep(p, startDate, date, endDate, drafts, day.value);
      drafts := drafts + day.value;
      date := date + 1;
    }
    ClashStep(p, date, endDate);
    return Success(drafts);
  }

  /** The loop invariant of `DraftSlots` survives one date. */
  lemma DraftsStep(p: Plan, startDate: Date, date: Date, endDate: Date, drafts: seq<Draft>, day: seq<Draft>)
    requires p.duration > 0 && date <= endDate
    requires drafts + RangeDrafts(p, date, endDate) == RangeDrafts(p, startDate, endDate)
    requires day == if DayOpen(p, date) then DayDrafts(p.shift, p.duration, date, p.shift.startTime) else []
    ensures drafts + day + RangeDrafts(p, date + 1, endDate) == RangeDrafts(p, startDate, endDate)
  {
    RangeStep(p, date, endDate);
    var rest := RangeDrafts(p, date + 1, endDate);
    if !DayOpen(p, date) {
      assert day + rest == rest;
    }
    Regroup(drafts, day, rest, RangeDrafts(p, startDate, endDate));
  }

  lemma Regroup(a: seq<Draft>, b: seq<Draft>, c: seq<Draft>, whole: seq<Draft>)
    requires a + (b + c) == whole
    ensures a + b + c == whole
  {
  }

  /** The body of the date loop: the date's slots when it is open, none when
      it is not, or the exception of the override lookup. */
  method DraftDay(p: Plan, date: Date) returns (r: Result<seq<Draft>>)
    requires p.duration > 0
    ensures r.Failure? <==> ClashOn(p, date)
    ensures r.Failure? ==> r.error == "MultipleObjectsReturned"
    ensures r.Success? ==>
      r.value == if DayOpen(p, date) then DayDrafts(p.shift, p.duration, date, p.shift.startTime) else []
  {
    if Weekday(date) != p.shift.dayOfWeek {
      return Success([]);
    }
    var lookup := OverrideLookup(p.overrides, p.doctor, date);
    if lookup.Failure? {
      return Failure(lookup.error);
    }
    var o := lookup.value;
    if o.Some? && !o.value.isAvailable {
      return Success([]);
    }
    var leaves := ActiveLeaves(p.leaves, p.doctor, p.today);
    var isOnLeave := AnyLeaveCovers(leaves, date);
    OpenFlags(p, date);
    if isOnLeave {
      return Success([]);
    }
    var day := CutDay(p.shift, p.duration, date);
    return Success(day);
  }

  /** One date of the range: its slots when it is open, then the rest. */
  lemma RangeStep(p: Plan, date: Date, endDate: Date)
    requires p.duration > 0 && date <= endDate
    ensures DayOpen(p, date) ==>
      RangeDrafts(p, date, endDate) == DayDrafts(p.shift, p.duration, date, p.shift.startTime) + RangeDrafts(p, date + 1, endDate)
    ensures !DayOpen(p, date) ==> RangeDrafts(p, date, endDate) == RangeDrafts(p, date + 1, endDate)
  {
  }

  /** The loop's two checks decide `DayOpen` on the shift's weekday. */
  lemma OpenFlags(p: Plan, date: Date)
    requires Weekday(date) == p.shift.dayOfWeek && !BlockedByOverride(p, date)
    ensures DayOpen(p, date) <==> !AnyLeaveCovers(ActiveLeaves(p.leaves, p.doctor, p.today), date)
  {
  }

  // ---------------------------------------------------------------------
  // what one date's slots look like

  /** Every slot of a date lies inside the shift, is exactly d long, starts on
      the grid that begins at the walk's first time, and clears the break. */
  lemma {:induction false} DayDraftShape(s: Shift, d: int, date: Date, t: int, x: Draft)
    requires d > 0 && 0 <= t
    requires x in DayDrafts(s, d, date, t)
    ensures x.date == date && t <= x.startTime
    ensures x.endTime == x.startTime + d && x.endTime <= s.endTime
    ensures OnGrid(t, d, x.startTime)
    ensures ClearOfBreak(s, x.startTime, x.endTime)
    decreases s.endTime - t
  {
    var rest := DayDrafts(s, d, date, t + d);
    if x in rest {
      DayDraftShape(s, d, date, t + d, x);
    }
  }

  /** Conversely, every grid candidate that ends by the shift end and clears
      the break is a slot: a dropped candidate does not shift the grid. */
  lemma {:induction false} DayDraftComplete(s: Shift, d: int, date: Date, t: int, x: int)
    requires d > 0 && 0 <= t
    requires OnGrid(t, d, x) && x + d <= s.endTime && ClearOfBreak(s, x, x + d)
    ensures 0 <= x && Draft(date, x, x + d) in DayDrafts(s, d, date, t)
    decreases x - t
  {
    if x != t {
      DayDraftComplete(s, d, date, t + d, x);
    }
  }

  /** The break rule as an equivalence: [x, e] is a slot of the date iff it
      is a grid candidate of length d inside the shift that clears the break. */
  lemma DaySlotIff(s: Shift, d: int, date: Date, x: Time, e: Time)
    requires d > 0
    ensures Draft(date, x, e) in DayDrafts(s, d, date, s.startTime) <==>
      OnGrid(s.startTime, d, x) && e == x + d && e <= s.endTime && ClearOfBreak(s, x, e)
  {
    if Draft(date, x, e) in DayDrafts(s, d, date, s.startTime) {
      DayDraftShape(s, d, date, s.startTime, Draft(date, x, e));
    }
    if OnGrid(s.startTime, d, x) && e == x + d && e <= s.endTime && ClearOfBreak(s, x, e) {
      DayDraftComplete(s, d, date, s.startTime, x);
    }
  }

  /** Each slot ends no later than any later slot starts. */
  predicate InOrder(r: seq<Draft>) {
    forall i, j :: 0 <= i < j < |r| ==> r[i].endTime <= r[j].startTime
  }

  /** A date's slots are in increasing order and pairwise disjoint. */
  lemma {:induction false} DayDraftsOrdered(s: Shift, d: int, date: Date, t: int)
    requires d > 0 && 0 <= t
    ensures InOrder(DayDrafts(s, d, date, t))
    decreases s.endTime - t
  {
    if t + d <= s.endTime {
      var head := if ClearOfBreak(s, t, t + d) then [Draft(date, t, t + d)] else [];
      var rest := DayDrafts(s, d, date, t + d);
      DayDraftsOrdered(s, d, date, t + d);
      forall k | 0 <= k < |rest| ensures t + d <= rest[k].startTime {
        DayDraftShape(s, d, date, t + d, rest[k]);
      }
      var r := head + rest;
      forall i, j | 0 <= i < j < |r| ensures r[i].endTime <= r[j].startTime {
        if i >= |head| {
          assert r[i] == rest[i - |head|] && r[j] == rest[j - |head|];
          assert InOrder(rest);
        } else {
          assert r[i] == head[0] && r[j] == rest[j - 1];
          assert t + d <= rest[j - 1].startTime;
        }
      }
      assert DayDrafts(s, d, date, t) == r;
    }
  }

  // ---------------------------------------------------------------------
  // which dates get slots, and the order of the whole result

  /** A draft is produced iff its date lies in the range, the date is open,
      and the draft is one of that date's slots. */
  lemma {:induction false} RangeDraftIff(p: Plan, date: Date, endDate: Date, x: Draft)
    requires p.duration > 0
    ensures x in RangeDrafts(p, date, endDate) <==>
      date <= x.date <= endDate && DayOpen(p, x.date)
      && x in DayDrafts(p.shift, p.duration, x.date, p.shift.startTime)
    decreases endDate - date
  {
    if date <= endDate {
      RangeDraftIff(p, date + 1, endDate, x);
      var today := if DayOpen(p, date) then DayDrafts(p.shift, p.duration, date, p.shift.startTime) else [];
      if x in today {
        DayDraftShape(p.shift, p.duration, date, p.shift.startTime, x);
      }
      if x.date == date && DayOpen(p, x.date)
         && x in DayDrafts(p.shift, p.duration, x.date, p.shift.startTime) {
        assert x in today;
      }
    }
  }

  /** Ordered by date, and within a date by time without overlap. */
  predicate ChronologicalAndDisjoint(r: seq<Draft>) {
    forall i, j :: 0 <= i < j < |r| ==>
      r[i].date < r[j].date || (r[i].date == r[j].date && r[i].endTime <= r[j].startTime)
  }

  /** One date's ordered slots followed by ordered slots of later dates are
      ordered. */
  lemma ConcatOrdered(day: seq<Draft>, rest: seq<Draft>, date: Date)
    requires InOrder(day) && ChronologicalAndDisjoint(rest)
    requires forall k :: 0 <= k < |day| ==> day[k].date == date
    requires forall k :: 0 <= k < |rest| ==> date < rest[k].date
    ensures ChronologicalAndDisjoint(day + rest)
  {
    var r := day + rest;
    forall i, j | 0 <= i < j < |r|
      ensures r[i].date < r[j].date || (r[i].date == r[j].date && r[i].endTime <= r[j].startTime)
    {
      if j < |day| {
        assert r[i] == day[i] && r[j] == day[j];
      } else if i >= |day| {
        assert r[i] == rest[i - |day|] && r[j] == rest[j - |day|];
      } else {
        assert r[i] == day[i] && r[j] == rest[j - |day|];
      }
    }
  }

  /** Drafts come out in strictly increasing (date, start) order and never
      overlap: a later slot on the same date starts no earlier than the
      previous one ends. */
  lemma {:induction false} RangeDraftsOrdered(p: Plan, date: Date, endDate: Date)
    requires p.duration > 0
    ensures ChronologicalAndDisjoint(RangeDrafts(p, date, endDate))
    decreases endDate - date
  {
    if date <= endDate {
      var day := if DayOpen(p, date) then DayDrafts(p.shift, p.duration, date, p.shift.startTime) else [];
      var rest := RangeDrafts(p, date + 1, endDate);
      RangeDraftsOrdered(p, date + 1, endDate);
      if DayOpen(p, date) {
        DayDraftsOrdered(p.shift, p.duration, date, p.shift.startTime);
      }
      forall k | 0 <= k < |day| ensures day[k].date == date {
        DayDraftShape(p.shift, p.duration, date, p.shift.startTime, day[k]);
      }
      forall k | 0 <= k < |rest| ensures date < rest[k].date {
        RangeDraftIff(p, date + 1, endDate, rest[k]);
      }
      var r := day + rest;
      if DayOpen(p, date) {
        ConcatOrdered(day, rest, date);
      } else {
        assert r == rest;
      }
      assert RangeDrafts(p, date, endDate) == r;
    }
  }

  /** Everything the source promises about one call, in terms of the specification. */
  lemma GeneratedSlotFacts(p: Plan, startDate: Date, endDate: Date, x: Draft)
    requires p.duration > 0
    requires x in RangeDrafts(p, startDate, endDate)
    ensures startDate <= x.date <= endDate
    ensures Weekday(x.date) == p.shift.dayOfWeek
    ensures !BlockedByOverride(p, x.date) && !OnLeave(p, x.date)
    ensures p.shift.startTime <= x.startTime && x.startTime < x.endTime <= p.shift.endTime
    ensures x.endTime == x.startTime + p.duration
    ensures OnGrid(p.shift.startTime, p.duration, x.startTime)
    ensures ClearOfBreak(p.shift, x.startTime, x.endTime)
  {
    RangeDraftIff(p, startDate, endDate, x);
    DayDraftShape(p.shift, p.duration, x.date, p.shift.startTime, x);
  }

  // ---------------------------------------------------------------------
  // the source as written: the end of a slot is computed with `.time()`,
  // which wraps at midnight

  /** `(datetime.combine(date, t) + timedelta(minutes=d)).time()` */
  function WrappedEnd(t: Time, d: nat): Time {
    (t + d) % MinutesPerDay
  }

  /** The as-written inner loop goes on from `t` iff the wrapped end is not past the shift end. */
  predicate WrappedLoopContinues(s: Shift, d: nat, t: Time) {
    WrappedEnd(t, d) <= s.endTime
  }

  /** The as-written walk: the time reached after n more iterations, or None if it stopped. */
  function WrappedWalk(s: Shift, d: nat, t: Time, n: nat): Option<Time>
    decreases n
  {
    if n == 0 then Some(t)
    else if !WrappedLoopContinues(s, d, t) then None
    else WrappedWalk(s, d, WrappedEnd(t, d), n - 1)
  }

  /** The 23:00 to 23:50 shift with 30-minute slots and no break. */
  function LateShift(): Shift {
    Shift(1, 1, 0, 1380, 1430, None, None, 10, true)
  }

  lemma {:induction false} LateShiftClimbs(j: nat)
    requires j <= 47
    ensures WrappedWalk(LateShift(), 30, 30 * j, 47 - j) == Some(1410)
    decreases 47 - j
  {
    if j < 47 {
      LateShiftClimbs(j + 1);
      assert WrappedEnd(30 * j, 30) == 30 * (j + 1);
    }
  }

  /** As written, the 23:30 candidate of the late shift ends at 00:00, which
      is not after 23:50, so the loop keeps a slot that ends before it
      starts and then restarts from midnight; 48 iterations later it is back
      at 23:30, so the loop never ends. */
  lemma WrappedLoopNeverEnds()
    ensures WrappedEnd(1410, 30) == 0 && WrappedLoopContinues(LateShift(), 30, 1410)
    ensures WrappedWalk(LateShift(), 30, 1410, 48) == Some(1410)
  {
    LateShiftClimbs(0);
  }

  /** Corrected: the same shift yields the single slot 23:00 to 23:30, and in
      general no slot crosses midnight (every slot ends after it starts and
      by the shift end). */
  lemma LateShiftCorrected(date: Date)
    ensures DayDrafts(LateShift(), 30, date, 1380) == [Draft(date, 1380, 1410)]
  {
    assert DayDrafts(LateShift(), 30, date, 1440 - 30) == [];
  }

  /** The as-written inner loop of one date, run for at most `fuel`
      iterations from `t`: the slots it stores before it stops, or None when
      it is still running. A candidate that overlaps the break is skipped,
      and the walk moves to the wrapped end either way. */
  function WrappedDayDrafts(s: Shift, d: nat, date: Date, t: Time, fuel: nat): Option<seq<Draft>>
    decreases fuel
  {
    if fuel == 0 then None
    else
      var e := WrappedEnd(t, d);
      if e > s.endTime then Some([])
      else
        var rest := WrappedDayDrafts(s, d, date, e, fuel - 1);
        if !ClearOfBreak(s, t, e) || rest.None? then rest
        else Some([Draft(date, t, e)] + rest.value)
  }

  /** Where no candidate reaches midnight (the shift ends more than d
      minutes before it), the as-written loop stops and stores exactly the
      corrected slots, so the correction changes nothing there. */
  lemma {:induction false} WrappedAgreesBeforeMidnight(s: Shift, d: nat, date: Date, t: Time, fuel: nat)
    requires d > 0 && s.endTime + d < MinutesPerDay
    requires t <= s.endTime && fuel > s.endTime - t
    ensures WrappedDayDrafts(s, d, date, t, fuel) == Some(DayDrafts(s, d, date, t))
    decreases fuel
  {
    assert WrappedEnd(t, d) == t + d;
    DayStep(s, d, date, t);
    if t + d <= s.endTime {
      WrappedAgreesBeforeMidnight(s, d, date, t + d, fuel - 1);
      var rest := DayDrafts(s, d, date, t + d);
      assert [] + rest == rest;
    }
  }

  /** The 21:00 to 23:00 shift with no break; 115-minute slots pass the
      serializer's 15..120 check. */
  function EveningShift(): Shift {
    Shift(1, 1, 0, 1260, 1380, None, None, 10, true)
  }

  /** From 00:50 the as-written walk stores the slots 00:50 + 115k to
      00:50 + 115(k + 1) up to one ending at 21:55, then stops. */
  lemma {:induction false} EveningTail(date: Date, k: nat)
    requires k <= 10
    ensures WrappedDayDrafts(EveningShift(), 115, date, 50 + 115 * k, 12 - k)
            == Some(seq(11 - k, i requires 0 <= i < 11 - k =>
                          Draft(date, 50 + 115 * (k + i), 50 + 115 * (k + i + 1))))
    decreases 10 - k
  {
    var t := 50 + 115 * k;
    assert WrappedEnd(t, 115) == t + 115;
    var whole := seq(11 - k, i requires 0 <= i < 11 - k =>
                       Draft(date, 50 + 115 * (k + i), 50 + 115 * (k + i + 1)));
    if k < 10 {
      EveningTail(date, k + 1);
      assert t + 115 == 50 + 115 * (k + 1);
      var tail := seq(10 - k, i requires 0 <= i < 10 - k =>
                        Draft(date, 50 + 115 * (k + 1 + i), 50 + 115 * (k + 1 + i + 1)));
      assert WrappedDayDrafts(EveningShift(), 115, date, t + 115, 11 - k) == Some(tail);
      assert WrappedDayDrafts(EveningShift(), 115, date, t, 12 - k) == Some([Draft(date, t, t + 115)] + tail);
      forall i | 0 <= i < 11 - k ensures whole[i] == ([Draft(date, t, t + 115)] + tail)[i] {
        if i > 0 {
          assert ([Draft(date, t, t + 115)] + tail)[i] == tail[i - 1];
          assert k + 1 + (i - 1) == k + i;
        }
      }
      assert whole == [Draft(date, t, t + 115)] + tail;
    } else {
      assert t == 1200;
      assert WrappedEnd(1200, 115) == 1315 && WrappedEnd(1315, 115) == 1430;
      assert WrappedDayDrafts(EveningShift(), 115, date, 1315, 1) == Some([]);
      assert [Draft(date, 1200, 1315)] + [] == [Draft(date, 1200, 1315)];
      assert WrappedDayDrafts(EveningShift(), 115, date, 1200, 2) == Some([Draft(date, 1200, 1315)]);
      assert whole == [Draft(date, 1200, 1315)];
    }
  }

  /** As written, the evening shift does stop, after 14 iterations, but it
      stores 13 slots: the 21:00 to 22:55 slot the corrected loop gives, one
      from 22:55 that ends at 00:50 the same date, and eleven slots that
      start before the shift does, from 00:50 to the last one, 20:00 to
      21:55. */
  lemma EveningShiftAsWritten(date: Date)
    ensures var r := WrappedDayDrafts(EveningShift(), 115, date, 1260, 14);
      r.Some? && |r.value| == 13
      && r.value[0] == Draft(date, 1260, 1375)
      && r.value[1] == Draft(date, 1375, 50)
      && (forall i :: 2 <= i < 13 ==> r.value[i].startTime < EveningShift().startTime)
      && r.value[12] == Draft(date, 1200, 1315)
    ensures DayDrafts(EveningShift(), 115, date, 1260) == [Draft(date, 1260, 1375)]
  {
    EveningTail(date, 0);
    var r := WrappedDayDrafts(EveningShift(), 115, date, 1260, 14);
    var tail := WrappedDayDrafts(EveningShift(), 115, date, 50, 12);
    forall i | 0 <= i < 11 ensures tail.value[i].startTime < 1260 {
      assert tail.value[i].startTime == 50 + 115 * (0 + i);
    }
    assert WrappedEnd(1260, 115) == 1375 && WrappedEnd(1375, 115) == 50;
    assert DayDrafts(EveningShift(), 115, date, 1375) == [];
  }
}
