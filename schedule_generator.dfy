/** The rule engine of `ScheduleGeneratorService`: a day-by-staff walk that
    filters the candidate shifts through four rules, picks one at random and
    records it, with a forced day-off backfill on Sundays. */
module ScheduleGenerator {
  import opened Common
  import opened DateUtil
  import opened ScheduleDomain
  import opened Locks

  type ShiftHistory = map<string, seq<ShiftType>>
  type LastShift = map<string, ShiftType>

  /** Number of days the outer loop runs: `dayOffset < 7 * periodWeeks`. */
  function DayCount(rules: Rules): (n: nat)
    ensures n == 0 <==> rules.periodWeeks <= 0
    ensures rules.periodWeeks > 0 ==> n == 7 * rules.periodWeeks
  {
    if rules.periodWeeks <= 0 then 0 else 7 * rules.periodWeeks
  }

  /** `List.remove(Object)`: drops the first occurrence of t. */
  function RemoveShift(cands: seq<ShiftType>, t: ShiftType): (r: seq<ShiftType>)
    requires NoDuplicates(cands)
    ensures NoDuplicates(r)
    ensures forall u :: u in r <==> u in cands && u != t
  {
    if cands == [] then []
    else if cands[0] == t then
      assert forall k :: 1 <= k < |cands| ==> cands[k] != cands[0];
      cands[1..]
    else
      assert forall k :: 1 <= k < |cands| ==> cands[k] != cands[0];
      var rest := RemoveShift(cands[1..], t);
      assert cands[0] !in rest;
      assert forall k :: 0 <= k < |rest| ==> ([cands[0]] + rest)[k + 1] == rest[k];
      [cands[0]] + rest
  }

  /** How often t occurs in a staff member's shift history. */
  function Occurrences(history: seq<ShiftType>, t: ShiftType): (n: nat)
    ensures n <= |history|
    ensures n == 0 <==> t !in history
  {
    if history == [] then 0
    else Occurrences(history[..|history| - 1], t) + (if history[|history| - 1] == t then 1 else 0)
  }

  /** The day-off count of lines 131-135: assignments of `staffId` that are
      DAY_OFF and whose date has week number `week`. */
  function DayOffsInWeek(all: seq<ShiftAssignment>, staffId: string, week: int, weekOf: Date -> int): (n: nat)
    ensures n <= |all|
  {
    if all == [] then 0
    else
      var a := all[|all| - 1];
      var n := DayOffsInWeek(all[..|all| - 1], staffId, week, weekOf);
      n + (if a.staffId == staffId && a.shiftType == DAY_OFF && weekOf(a.date) == week then 1 else 0)
  }

  /** The stream `findFirst` of lines 148-151: the first assignment of
      `staffId` on `date`. */
  function FindAssignment(all: seq<ShiftAssignment>, staffId: string, date: Date): (r: Option<nat>)
    ensures r.Some? ==> r.value < |all| && all[r.value].staffId == staffId && all[r.value].date == date
    ensures r.Some? ==> forall i :: 0 <= i < r.value ==> !(all[i].staffId == staffId && all[i].date == date)
    ensures r.None? ==> forall i :: 0 <= i < |all| ==> !(all[i].staffId == staffId && all[i].date == date)
  {
    if all == [] then None
    else if all[0].staffId == staffId && all[0].date == date then Some(0)
    else
      match FindAssignment(all[1..], staffId, date)
      case None => None
      case Some(i) => Some(i + 1)
  }

  /** Whether one of the rules of lines 121-173 strikes shift t from the
      candidates of a staff member whose last recorded shift is `last`, who has
      `dayOffs` day-offs in the current week and `mornings`/`evenings` shifts
      so far. */
  predicate Excluded(rules: Rules, last: Option<ShiftType>, dayOffs: int, mornings: nat, evenings: nat, t: ShiftType)
  {
    || (t == MORNING && rules.avoidMorningAfterEvening && last == Some(EVENING))
    || (t == DAY_OFF && (!rules.dayOffEnabled || dayOffs >= rules.offDaysPerWeek))
    || (t == EVENING && rules.balanceShifts && mornings < evenings)
    || (t == MORNING && rules.balanceShifts && evenings < mornings)
  }

  function LastOf(last: LastShift, staffId: string): Option<ShiftType>
  {
    if staffId in last then Some(last[staffId]) else None
  }

  /** The backfill's effect: `after` is `before` with exactly the indices in
      `rewritten` turned into DAY_OFF; they are at most `budget` distinct
      assignments of `staffId` dated Tuesday..Saturday before `sunday`. */
  ghost predicate RewrittenAsDayOff(before: seq<ShiftAssignment>, after: seq<ShiftAssignment>, rewritten: seq<nat>,
                                    staffId: string, sunday: Date, budget: int)
  {
    && |after| == |before|
    && |rewritten| <= budget
    && NoDuplicates(rewritten)
    && (forall k :: 0 <= k < |rewritten| ==>
          rewritten[k] < |before| && before[rewritten[k]].staffId == staffId
          && sunday - 5 <= before[rewritten[k]].date <= sunday - 1)
    && (forall i :: 0 <= i < |before| ==>
          after[i] == if i in rewritten then before[i].(shiftType := DAY_OFF) else before[i])
  }

  /** The backfill walked every date from Saturday back to Tuesday: each
      assignment of `staffId` in that range has its first match rewritten. */
  ghost predicate BackfillExhausted(before: seq<ShiftAssignment>, rewritten: seq<nat>, staffId: string, sunday: Date)
  {
    forall i :: 0 <= i < |before| && before[i].staffId == staffId && sunday - 5 <= before[i].date <= sunday - 1 ==>
      FindAssignment(before, staffId, before[i].date).Some? &&
      FindAssignment(before, staffId, before[i].date).value in rewritten
  }

  /** Changing shift types only leaves every `findFirst` result the same. */
  lemma FindAssignmentIgnoresShift(a: seq<ShiftAssignment>, b: seq<ShiftAssignment>, staffId: string, date: Date)
    requires |a| == |b|
    requires forall i :: 0 <= i < |a| ==> a[i].staffId == b[i].staffId && a[i].date == b[i].date
    ensures FindAssignment(a, staffId, date) == FindAssignment(b, staffId, date)
  {
    var ra := FindAssignment(a, staffId, date);
    if ra.Some? {
      assert b[ra.value].staffId == staffId && b[ra.value].date == date;
    }
  }

  /** Lines 145-158: walk back from Saturday while day-offs are missing and the
      date is not a Monday, turning the first assignment of `staffId` on each
      date into DAY_OFF. Returns the rewritten positions. */
  method BackfillDayOffs(all: seq<ShiftAssignment>, staffId: string, sunday: Date, missing: int)
    returns (after: seq<ShiftAssignment>, rewritten: seq<nat>)
    requires DayOfWeek(sunday) == SUNDAY
    ensures RewrittenAsDayOff(all, after, rewritten, staffId, sunday, if missing < 0 then 0 else missing)
    ensures |rewritten| < missing ==> BackfillExhausted(all, rewritten, staffId, sunday)
  {
    after, rewritten := all, [];
    var remaining := missing;
    var updateDate := sunday - 1;
    BackfillWeekday(sunday, updateDate);
    while remaining > 0 && DayOfWeek(updateDate) != MONDAY
      invariant sunday - 6 <= updateDate <= sunday - 1
      invariant DayOfWeek(updateDate) == MONDAY <==> updateDate == sunday - 6
      invariant remaining == missing - |rewritten|
      invariant RewrittenAsDayOff(all, after, rewritten, staffId, sunday, if missing < 0 then 0 else missing)
      invariant forall k :: 0 <= k < |rewritten| ==> all[rewritten[k]].date > updateDate
      invariant forall i :: 0 <= i < |all| && all[i].staffId == staffId && updateDate < all[i].date <= sunday - 1 ==>
                  FindAssignment(all, staffId, all[i].date).Some? &&
                  FindAssignment(all, staffId, all[i].date).value in rewritten
      decreases updateDate - (sunday - 6)
    {
      FindAssignmentIgnoresShift(all, after, staffId, updateDate);
      var existing := FindAssignment(after, staffId, updateDate);
      ghost var rewrittenBefore := rewritten;
      if existing.Some? {
        var i := existing.value;
        RewriteOneKeeps(all, after, rewritten, staffId, sunday, if missing < 0 then 0 else missing, updateDate, i);
        after := after[i := after[i].(shiftType := DAY_OFF)];
        rewritten := rewritten + [i];
        remaining := remaining - 1;
      }
      BackfillCovers(all, rewrittenBefore, rewritten, staffId, sunday, updateDate);
      BackfillWeekday(sunday, updateDate - 1);
      updateDate := updateDate - 1;
    }
  }

  lemma BackfillWeekday(sunday: Date, d: Date)
    requires DayOfWeek(sunday) == SUNDAY && sunday - 6 <= d <= sunday - 1
    ensures DayOfWeek(d) == MONDAY <==> d == sunday - 6
  {
    DayOfWeekAdvance(d, sunday - d);
  }

  /** Rewriting one more not yet rewritten assignment of `staffId` dated
      `date` keeps the rewrite well formed. */
  lemma RewriteOneKeeps(all: seq<ShiftAssignment>, after: seq<ShiftAssignment>, rewritten: seq<nat>,
                        staffId: string, sunday: Date, budget: int, date: Date, i: nat)
    requires RewrittenAsDayOff(all, after, rewritten, staffId, sunday, budget)
    requires forall k :: 0 <= k < |rewritten| ==> all[rewritten[k]].date > date
    requires sunday - 5 <= date <= sunday - 1 && |rewritten| < budget
    requires i < |all| && all[i].staffId == staffId && all[i].date == date
    ensures RewrittenAsDayOff(all, after[i := after[i].(shiftType := DAY_OFF)], rewritten + [i], staffId, sunday, budget)
    ensures forall k :: 0 <= k < |rewritten + [i]| ==> all[(rewritten + [i])[k]].date >= date
  {
    assert i !in rewritten;
  }

  /** Walking past `date` keeps every visited date covered: when `date` had
      an assignment of `staffId`, its first one is among the rewritten. */
  lemma BackfillCovers(all: seq<ShiftAssignment>, rewrittenBefore: seq<nat>, rewritten: seq<nat>,
                       staffId: string, sunday: Date, date: Date)
    requires forall k :: 0 <= k < |rewrittenBefore| ==> rewrittenBefore[k] in rewritten
    requires FindAssignment(all, staffId, date).Some? ==> FindAssignment(all, staffId, date).value in rewritten
    requires forall i :: 0 <= i < |all| && all[i].staffId == staffId && date < all[i].date <= sunday - 1 ==>
               FindAssignment(all, staffId, all[i].date).Some? &&
               FindAssignment(all, staffId, all[i].date).value in rewrittenBefore
    ensures forall i :: 0 <= i < |all| && all[i].staffId == staffId && date - 1 < all[i].date <= sunday - 1 ==>
              FindAssignment(all, staffId, all[i].date).Some? &&
              FindAssignment(all, staffId, all[i].date).value in rewritten
  {
  }

  /** `assignAndRecordShift`: append the assignment, extend the staff member's
      history and move their last-shift record. */
  method AssignAndRecordShift(all: seq<ShiftAssignment>, staffId: string, currentDate: Date, shiftType: ShiftType,
                              history: ShiftHistory, last: LastShift)
    returns (all': seq<ShiftAssignment>, history': ShiftHistory, last': LastShift)
    requires staffId in history
    ensures all' == all + [ShiftAssignment(staffId, currentDate, shiftType)]
    ensures history' == history[staffId := history[staffId] + [shiftType]]
    ensures last' == last[staffId := shiftType]
  {
    all' := all + [ShiftAssignment(staffId, currentDate, shiftType)];
    history' := history[staffId := history[staffId] + [shiftType]];
    last' := last[staffId := shiftType];
  }

  /** One pass of the inner loop body (lines 119-180) for `staffId` on
      `currentDate`. `forced` reports the Sunday backfill, after which the
      caller leaves the day (`continue dayOffsetLoop`). */
  method PlanStaffDay(rules: Rules, weekOf: Date -> int, all: seq<ShiftAssignment>, history: ShiftHistory,
                      last: LastShift, staffId: string, currentDate: Date, currentWeek: int)
    returns (all': seq<ShiftAssignment>, history': ShiftHistory, last': LastShift,
             shift: ShiftType, forced: bool, rewritten: seq<nat>)
    requires staffId in history
    ensures |all'| == |all| + 1
    ensures all'[|all|] == ShiftAssignment(staffId, currentDate, shift)
    ensures history' == history[staffId := history[staffId] + [shift]]
    ensures last' == last[staffId := shift]
    ensures forced <==> rules.dayOffEnabled && DayOfWeek(currentDate) == SUNDAY
                        && DayOffsInWeek(all, staffId, currentWeek, weekOf) < rules.offDaysPerWeek
    // an ordinary day: only an append, and the pick passed every rule filter,
    // unless every filter struck and it is the EVENING fallback
    ensures !forced ==> all'[..|all|] == all && rewritten == []
    ensures !forced ==>
      var dayOffs := DayOffsInWeek(all, staffId, currentWeek, weekOf);
      var mornings := Occurrences(history[staffId], MORNING);
      var evenings := Occurrences(history[staffId], EVENING);
      !Excluded(rules, LastOf(last, staffId), dayOffs, mornings, evenings, shift)
      || (shift == EVENING && forall u :: Excluded(rules, LastOf(last, staffId), dayOffs, mornings, evenings, u))
    // a Sunday with a shortfall: DAY_OFF today, and up to shortfall - 1 of this
    // staff member's Tuesday..Saturday assignments rewritten to DAY_OFF
    ensures forced ==> shift == DAY_OFF
    ensures forced ==>
      var shortfall := rules.offDaysPerWeek - DayOffsInWeek(all, staffId, currentWeek, weekOf);
      && RewrittenAsDayOff(all, all'[..|all|], rewritten, staffId, currentDate, shortfall - 1)
      && (|rewritten| < shortfall - 1 ==> BackfillExhausted(all, rewritten, staffId, currentDate))
    ensures OnlyTurnedIntoDayOff(all, all'[..|all|])
  {
    var possibleShiftTypes := [MORNING, EVENING, DAY_OFF];
    ghost var dayOffs := DayOffsInWeek(all, staffId, currentWeek, weekOf);
    ghost var mornings := Occurrences(history[staffId], MORNING);
    ghost var evenings := Occurrences(history[staffId], EVENING);
    ghost var lastShift := LastOf(last, staffId);

    // RULE 2: avoid-morning-after-evening
    if rules.avoidMorningAfterEvening {
      if staffId in last && last[staffId] == EVENING {
        possibleShiftTypes := RemoveShift(possibleShiftTypes, MORNING);
      }
    }

    // RULE 3: day-off
    if rules.dayOffEnabled {
      var dayOffsThisWeek := DayOffsInWeek(all, staffId, currentWeek, weekOf);
      if dayOffsThisWeek >= rules.offDaysPerWeek {
        possibleShiftTypes := RemoveShift(possibleShiftTypes, DAY_OFF);
      }
      if DayOfWeek(currentDate) == SUNDAY {
        var missingDayOffs := rules.offDaysPerWeek - dayOffsThisWeek;
        if missingDayOffs > 0 {
          all', history', last', rewritten := ForceSundayDayOff(all, history, last, staffId, currentDate, missingDayOffs);
          shift, forced := DAY_OFF, true;
          return;
        }
      }
    } else {
      possibleShiftTypes := RemoveShift(possibleShiftTypes, DAY_OFF);
    }

    // RULE 4: balance-shifts
    if rules.balanceShifts {
      var morningCount := Occurrences(history[staffId], MORNING);
      var eveningCount := Occurrences(history[staffId], EVENING);
      if morningCount < eveningCount {
        possibleShiftTypes := RemoveShift(possibleShiftTypes, EVENING);
      } else if eveningCount < morningCount {
        possibleShiftTypes := RemoveShift(possibleShiftTypes, MORNING);
      }
    }

    assert forall u :: u in possibleShiftTypes <==> !Excluded(rules, lastShift, dayOffs, mornings, evenings, u);
    if possibleShiftTypes == [] {
      possibleShiftTypes := [EVENING];
    }

    // the random pick: some element of the candidates
    shift :| shift in possibleShiftTypes;
    all', history', last' := AssignAndRecordShift(all, staffId, currentDate, shift, history, last);
    forced, rewritten := false, [];
  }

  /** Lines 139-160: on a Sunday with `missingDayOffs` day-offs short, assign
      DAY_OFF today and backfill the other `missingDayOffs - 1` from Saturday
      back to Tuesday. */
  method ForceSundayDayOff(all: seq<ShiftAssignment>, history: ShiftHistory, last: LastShift,
                           staffId: string, sunday: Date, missingDayOffs: int)
    returns (all': seq<ShiftAssignment>, history': ShiftHistory, last': LastShift, rewritten: seq<nat>)
    requires staffId in history && DayOfWeek(sunday) == SUNDAY && missingDayOffs > 0
    ensures |all'| == |all| + 1 && all'[|all|] == ShiftAssignment(staffId, sunday, DAY_OFF)
    ensures history' == history[staffId := history[staffId] + [DAY_OFF]]
    ensures last' == last[staffId := DAY_OFF]
    ensures RewrittenAsDayOff(all, all'[..|all|], rewritten, staffId, sunday, missingDayOffs - 1)
    ensures |rewritten| < missingDayOffs - 1 ==> BackfillExhausted(all, rewritten, staffId, sunday)
    ensures OnlyTurnedIntoDayOff(all, all'[..|all|])
  {
    var withToday;
    withToday, history', last' := AssignAndRecordShift(all, staffId, sunday, DAY_OFF, history, last);
    var missing := missingDayOffs - 1;
    all', rewritten := BackfillDayOffs(withToday, staffId, sunday, missing);
    BackfillOnPrefix(all, withToday, all', rewritten, staffId, sunday, missing);
  }

  /** The backfill ran over the list that already ends with today's DAY_OFF;
      restricted to the earlier assignments it is the same rewrite. */
  lemma BackfillOnPrefix(all: seq<ShiftAssignment>, withToday: seq<ShiftAssignment>, backfilled: seq<ShiftAssignment>,
                         rewritten: seq<nat>, staffId: string, sunday: Date, missing: int)
    requires missing >= 0
    requires |withToday| == |all| + 1 && withToday[..|all|] == all && withToday[|all|].date == sunday
    requires RewrittenAsDayOff(withToday, backfilled, rewritten, staffId, sunday, if missing < 0 then 0 else missing)
    requires |rewritten| < missing ==> BackfillExhausted(withToday, rewritten, staffId, sunday)
    ensures forall k :: 0 <= k < |rewritten| ==> rewritten[k] < |all|
    ensures backfilled[|all|] == withToday[|all|]
    ensures RewrittenAsDayOff(all, backfilled[..|all|], rewritten, staffId, sunday, missing)
    ensures |rewritten| < missing ==> BackfillExhausted(all, rewritten, staffId, sunday)
    ensures OnlyTurnedIntoDayOff(all, backfilled[..|all|])
  {
    assert forall k :: 0 <= k < |rewritten| ==> rewritten[k] != |all|;
    if |rewritten| < missing {
      forall i | 0 <= i < |all| && all[i].staffId == staffId && sunday - 5 <= all[i].date <= sunday - 1
        ensures FindAssignment(all, staffId, all[i].date).Some?
        ensures FindAssignment(all, staffId, all[i].date).value in rewritten
      {
        assert withToday[i] == all[i];
        FindOnPrefix(all, withToday, staffId, all[i].date);
      }
    }
  }

  /** A match inside a prefix is found at the same place in the longer list. */
  lemma FindOnPrefix(prefix: seq<ShiftAssignment>, whole: seq<ShiftAssignment>, staffId: string, date: Date)
    requires |prefix| <= |whole| && whole[..|prefix|] == prefix
    requires FindAssignment(prefix, staffId, date).Some?
    ensures FindAssignment(whole, staffId, date) == FindAssignment(prefix, staffId, date)
  {
    var i := FindAssignment(prefix, staffId, date).value;
    assert whole[i] == prefix[i];
    forall j | 0 <= j < i
      ensures !(whole[j].staffId == staffId && whole[j].date == date)
    {
      assert whole[j] == prefix[j];
    }
  }

  /** `after` keeps every assignment's staff member and date; a shift type
      changes only into DAY_OFF. */
  ghost predicate OnlyTurnedIntoDayOff(before: seq<ShiftAssignment>, after: seq<ShiftAssignment>)
  {
    && |after| == |before|
    && forall i :: 0 <= i < |before| ==>
         after[i].staffId == before[i].staffId && after[i].date == before[i].date
         && (after[i] == before[i] || after[i].shiftType == DAY_OFF)
  }

  /** Every assignment falls on one of the `days` days starting at `start`. */
  ghost predicate DatesWithin(all: seq<ShiftAssignment>, start: Date, days: int)
  {
    forall i :: 0 <= i < |all| ==> start <= all[i].date < start + days
  }

  /** At most one assignment per (staff, date) pair. */
  ghost predicate OneShiftPerStaffAndDate(all: seq<ShiftAssignment>)
  {
    forall i, j :: 0 <= i < j < |all| ==> all[i].staffId != all[j].staffId || all[i].date != all[j].date
  }

  ghost predicate StaffFrom(all: seq<ShiftAssignment>, staffIds: seq<string>)
  {
    forall i :: 0 <= i < |all| ==> all[i].staffId in staffIds
  }

  /** Nobody works MORNING the day after an EVENING. */
  ghost predicate NoMorningAfterEvening(all: seq<ShiftAssignment>)
  {
    forall i, j ::
      (0 <= i < |all| && 0 <= j < |all| && all[i].staffId == all[j].staffId
       && all[j].date == all[i].date + 1 && all[i].shiftType == EVENING) ==> all[j].shiftType != MORNING
  }

  ghost predicate NoDayOff(all: seq<ShiftAssignment>)
  {
    forall i :: 0 <= i < |all| ==> all[i].shiftType != DAY_OFF
  }

  /** Every EVENING assignment dated `date` whose staff member is not in
      `skip` is still that staff member's last recorded shift. */
  ghost predicate EveningIsLast(all: seq<ShiftAssignment>, last: LastShift, date: Date, skip: seq<string>)
  {
    forall i :: 0 <= i < |all| && all[i].date == date && all[i].shiftType == EVENING && all[i].staffId !in skip ==>
      all[i].staffId in last && last[all[i].staffId] == EVENING
  }

  /** What a schedule built over `days` days from `start` satisfies whatever
      the random picks. */
  ghost predicate PartialSchedule(rules: Rules, start: Date, days: int, staffIds: seq<string>, all: seq<ShiftAssignment>)
  {
    && DatesWithin(all, start, days)
    && OneShiftPerStaffAndDate(all)
    && StaffFrom(all, staffIds)
    && (rules.avoidMorningAfterEvening ==> NoMorningAfterEvening(all))
    && (!rules.dayOffEnabled ==> NoDayOff(all))
  }

  /** Day `date` served its first `p` staff members and nobody else: each of
      them has an assignment that day. A day cut short (`p` below the staff
      count) is a Sunday with day-offs enabled whose last served member got
      DAY_OFF, after which the day loop moved on (`continue dayOffsetLoop`). */
  ghost predicate DayServed(rules: Rules, all: seq<ShiftAssignment>, staffIds: seq<string>, date: Date, p: int)
  {
    && 0 <= p <= |staffIds|
    && (p < |staffIds| ==> 0 < p && rules.dayOffEnabled && DayOfWeek(date) == SUNDAY)
    && (forall i :: 0 <= i < |all| && all[i].date == date ==> all[i].staffId in staffIds[..p])
    && (forall k {:trigger FindAssignment(all, staffIds[k], date)} :: 0 <= k < p ==> FindAssignment(all, staffIds[k], date).Some?)
    && (p < |staffIds| ==>
          forall i :: 0 <= i < |all| && all[i].date == date && all[i].staffId == staffIds[p - 1] ==>
            all[i].shiftType == DAY_OFF)
  }

  /** Day `d` of the period served `served[d]` staff members, for every day
      in `served`. */
  ghost predicate ServedDays(rules: Rules, start: Date, staffIds: seq<string>, all: seq<ShiftAssignment>,
                             served: seq<nat>)
  {
    forall d :: 0 <= d < |served| ==> DayServed(rules, all, staffIds, start + d, served[d])
  }

  /** `generateShiftAssignments` (lines 101-185). `staffIds` is the staff set
      in its iteration order; `weekOf` is `DateUtil.getWeekOfYear`. The ghost
      `served` counts, day by day, how many staff members that day reached. */
  method GenerateShiftAssignments(rules: Rules, weekOf: Date -> int, weekBeginDate: Date, staffIds: seq<string>)
    returns (all: seq<ShiftAssignment>, ghost served: seq<nat>)
    requires NoDuplicates(staffIds)
    ensures PartialSchedule(rules, weekBeginDate, DayCount(rules), staffIds, all)
    ensures !rules.dayOffEnabled ==> |all| == DayCount(rules) * |staffIds|
    ensures |served| == DayCount(rules) && ServedDays(rules, weekBeginDate, staffIds, all, served)
  {
    all := [];
    served := [];
    var staffShiftHistory: ShiftHistory := map s | s in staffIds :: [];
    var staffLastShift: LastShift := map[];
    var n := |staffIds|;

    for dayOffset := 0 to DayCount(rules)
      invariant forall s :: s in staffIds ==> s in staffShiftHistory
      invariant PartialSchedule(rules, weekBeginDate, dayOffset, staffIds, all)
      invariant EveningIsLast(all, staffLastShift, weekBeginDate + dayOffset - 1, [])
      invariant !rules.dayOffEnabled ==> |all| == dayOffset * n
      invariant |served| == dayOffset && ServedDays(rules, weekBeginDate, staffIds, all, served)
    {
      ghost var p;
      all, staffShiftHistory, staffLastShift, p :=
        PlanDay(rules, weekOf, weekBeginDate, dayOffset, staffIds, all, staffShiftHistory, staffLastShift, served);
      assert (dayOffset + 1) * n == dayOffset * n + n;
      served := served + [p];
    }
  }

  /** One pass of the day loop of `generateShiftAssignments` (lines 114-182):
      every staff member in turn gets a shift on the day `dayOffset` days
      after `weekBeginDate`, until a forced Sunday day off ends the day early
      (the `continue dayOffsetLoop` of line 159, here a `return`). The ghost
      `p` is how many staff members the day reached. */
  method PlanDay(rules: Rules, weekOf: Date -> int, weekBeginDate: Date, dayOffset: nat, staffIds: seq<string>,
                 all: seq<ShiftAssignment>, history: ShiftHistory, last: LastShift, ghost served: seq<nat>)
    returns (all': seq<ShiftAssignment>, history': ShiftHistory, last': LastShift, ghost p: nat)
    requires NoDuplicates(staffIds)
    requires forall s :: s in staffIds ==> s in history
    requires PartialSchedule(rules, weekBeginDate, dayOffset, staffIds, all)
    requires EveningIsLast(all, last, weekBeginDate + dayOffset - 1, [])
    requires |served| == dayOffset && ServedDays(rules, weekBeginDate, staffIds, all, served)
    ensures forall s :: s in staffIds ==> s in history'
    ensures PartialSchedule(rules, weekBeginDate, dayOffset + 1, staffIds, all')
    ensures EveningIsLast(all', last', weekBeginDate + dayOffset, [])
    ensures !rules.dayOffEnabled ==> |all'| == |all| + |staffIds|
    ensures ServedDays(rules, weekBeginDate, staffIds, all', served + [p])
  {
    all', history', last' := all, history, last;
    var currentDate := weekBeginDate + dayOffset;
    var currentWeek := weekOf(currentDate);
    var n := |staffIds|;

    for j := 0 to n
      invariant forall s :: s in staffIds ==> s in history'
      invariant PartialSchedule(rules, weekBeginDate, dayOffset + 1, staffIds, all')
      invariant forall i :: 0 <= i < |all'| && all'[i].date == currentDate ==> all'[i].staffId in staffIds[..j]
      invariant EveningIsLast(all', last', currentDate, [])
      invariant EveningIsLast(all', last', currentDate - 1, staffIds[..j])
      invariant !rules.dayOffEnabled ==> |all'| == |all| + j
      invariant ServedDays(rules, weekBeginDate, staffIds, all', served)
      invariant forall k :: 0 <= k < j ==> FindAssignment(all', staffIds[k], currentDate).Some?
    {
      var staffId := staffIds[j];
      ghost var before := all';
      ghost var lastBefore := last';
      var shift, forced, rewritten;
      all', history', last', shift, forced, rewritten :=
        PlanStaffDay(rules, weekOf, all', history', last', staffId, currentDate, currentWeek);
      StepKeepsInvariants(rules, staffIds, j, weekBeginDate, dayOffset, before, all', lastBefore, last', shift, forced);
      if forced {
        ForcedDayServed(rules, weekBeginDate, staffIds, served, j, before, all', currentDate);
        p := j + 1;
        return;
      }
      StepKeepsServed(rules, weekBeginDate, staffIds, served, j, before, all');
    }
    FullDayServed(rules, staffIds, all', currentDate);
    CloseDay(rules, weekBeginDate, staffIds, all', served, currentDate, n);
    p := n;
  }

  /** Closing the next day with `p` staff served extends the day counts. */
  lemma CloseDay(rules: Rules, start: Date, staffIds: seq<string>, all: seq<ShiftAssignment>,
                 served: seq<nat>, date: Date, p: nat)
    requires date == start + |served|
    requires ServedDays(rules, start, staffIds, all, served)
    requires DayServed(rules, all, staffIds, date, p)
    ensures ServedDays(rules, start, staffIds, all, served + [p])
  {
    var ext := served + [p];
    forall d | 0 <= d < |served|
      ensures ext[d] == served[d]
    {
    }
    assert ext[|served|] == p;
  }

  /** A day whose inner loop ran to the end served every staff member. */
  lemma FullDayServed(rules: Rules, staffIds: seq<string>, all: seq<ShiftAssignment>, date: Date)
    requires forall i :: 0 <= i < |all| && all[i].date == date ==> all[i].staffId in staffIds[..|staffIds|]
    requires forall k :: 0 <= k < |staffIds| ==> FindAssignment(all, staffIds[k], date).Some?
    ensures DayServed(rules, all, staffIds, date, |staffIds|)
  {
    assert staffIds[..|staffIds|] == staffIds;
  }

  /** An assignment found before a step that only appends and turns shifts
      into DAY_OFF is still found after it. */
  lemma FoundStaysFound(before: seq<ShiftAssignment>, after: seq<ShiftAssignment>, staffId: string, date: Date)
    requires |before| <= |after|
    requires forall i :: 0 <= i < |before| ==> SameSlot(before[i], after[i])
    requires FindAssignment(before, staffId, date).Some?
    ensures FindAssignment(after, staffId, date).Some?
  {
    var i := FindAssignment(before, staffId, date).value;
    assert SameSlot(before[i], after[i]);
  }

  /** The appended entries of a step keep the earlier entries' slots. */
  lemma SlotsKept(before: seq<ShiftAssignment>, after: seq<ShiftAssignment>)
    requires |before| <= |after|
    requires OnlyTurnedIntoDayOff(before, after[..|before|])
    ensures forall i :: 0 <= i < |before| ==> SameSlot(before[i], after[i])
  {
    forall i | 0 <= i < |before|
      ensures SameSlot(before[i], after[i])
    {
      assert after[i] == after[..|before|][i];
    }
  }

  /** A served day other than the one a step appends to stays served. */
  lemma DayStaysServed(rules: Rules, staffIds: seq<string>, before: seq<ShiftAssignment>,
                       after: seq<ShiftAssignment>, date: Date, p: int)
    requires |after| == |before| + 1 && after[|before|].date != date
    requires forall i :: 0 <= i < |before| ==> SameSlot(before[i], after[i])
    requires DayServed(rules, before, staffIds, date, p)
    ensures DayServed(rules, after, staffIds, date, p)
  {
    forall k | 0 <= k < p
      ensures FindAssignment(after, staffIds[k], date).Some?
    {
      FoundStaysFound(before, after, staffIds[k], date);
    }
    forall i | 0 <= i < |after| && after[i].date == date
      ensures after[i].staffId in staffIds[..p]
    {
      assert i < |before| && SameSlot(before[i], after[i]);
    }
  }

  /** One inner-loop step on the day after the served ones keeps every
      served day as it was, and serves one more staff member today. */
  lemma StepKeepsServed(rules: Rules, start: Date, staffIds: seq<string>, served: seq<nat>, j: nat,
                        before: seq<ShiftAssignment>, after: seq<ShiftAssignment>)
    requires j < |staffIds|
    requires |after| == |before| + 1
    requires after[|before|].date == start + |served| && after[|before|].staffId == staffIds[j]
    requires OnlyTurnedIntoDayOff(before, after[..|before|])
    requires ServedDays(rules, start, staffIds, before, served)
    requires forall k :: 0 <= k < j ==> FindAssignment(before, staffIds[k], start + |served|).Some?
    ensures ServedDays(rules, start, staffIds, after, served)
    ensures forall k :: 0 <= k < j + 1 ==> FindAssignment(after, staffIds[k], start + |served|).Some?
  {
    SlotsKept(before, after);
    forall d | 0 <= d < |served|
      ensures DayServed(rules, after, staffIds, start + d, served[d])
    {
      DayStaysServed(rules, staffIds, before, after, start + d, served[d]);
    }
    forall k | 0 <= k < j
      ensures FindAssignment(after, staffIds[k], start + |served|).Some?
    {
      FoundStaysFound(before, after, staffIds[k], start + |served|);
    }
  }

  /** A step that forced a Sunday day off for the `j`-th staff member closes
      the day with `j + 1` staff served. */
  lemma ForcedDayServed(rules: Rules, start: Date, staffIds: seq<string>, served: seq<nat>, j: nat,
                        before: seq<ShiftAssignment>, after: seq<ShiftAssignment>, date: Date)
    requires NoDuplicates(staffIds) && j < |staffIds| && date == start + |served|
    requires rules.dayOffEnabled && DayOfWeek(date) == SUNDAY
    requires |after| == |before| + 1 && after[|before|] == ShiftAssignment(staffIds[j], date, DAY_OFF)
    requires OnlyTurnedIntoDayOff(before, after[..|before|])
    requires ServedDays(rules, start, staffIds, before, served)
    requires forall i :: 0 <= i < |before| && before[i].date == date ==> before[i].staffId in staffIds[..j]
    requires forall k :: 0 <= k < j ==> FindAssignment(before, staffIds[k], date).Some?
    ensures ServedDays(rules, start, staffIds, after, served + [j + 1])
  {
    StepKeepsServed(rules, start, staffIds, served, j, before, after);
    ForcedDayEnds(rules, staffIds, j, before, after, date);
    CloseDay(rules, start, staffIds, after, served, date, j + 1);
  }

  /** The day of a forced Sunday day off served the staff up to the forced
      member, whose assignment that day is DAY_OFF. */
  lemma ForcedDayEnds(rules: Rules, staffIds: seq<string>, j: nat, before: seq<ShiftAssignment>,
                      after: seq<ShiftAssignment>, date: Date)
    requires NoDuplicates(staffIds) && j < |staffIds|
    requires rules.dayOffEnabled && DayOfWeek(date) == SUNDAY
    requires |after| == |before| + 1 && after[|before|] == ShiftAssignment(staffIds[j], date, DAY_OFF)
    requires OnlyTurnedIntoDayOff(before, after[..|before|])
    requires forall i :: 0 <= i < |before| && before[i].date == date ==> before[i].staffId in staffIds[..j]
    requires forall k :: 0 <= k < j + 1 ==> FindAssignment(after, staffIds[k], date).Some?
    ensures DayServed(rules, after, staffIds, date, j + 1)
  {
    SlotsKept(before, after);
    assert staffIds[j] !in staffIds[..j];
    assert staffIds[..j + 1] == staffIds[..j] + [staffIds[j]];
    forall i | 0 <= i < |after| && after[i].date == date
      ensures after[i].staffId in staffIds[..j + 1]
    {
      if i < |before| {
        assert SameSlot(before[i], after[i]);
      }
    }
  }

  /** One inner-loop step keeps the schedule invariants: the new assignment
      is for a staff member not yet scheduled today, and earlier assignments
      can only have turned into DAY_OFF. */
  lemma StepKeepsInvariants(rules: Rules, staffIds: seq<string>, j: nat, weekBeginDate: Date, dayOffset: int,
                            before: seq<ShiftAssignment>, after: seq<ShiftAssignment>,
                            lastBefore: LastShift, lastAfter: LastShift, shift: ShiftType, forced: bool)
    requires NoDuplicates(staffIds) && j < |staffIds| && 0 <= dayOffset
    requires |after| == |before| + 1
    requires after[|before|] == ShiftAssignment(staffIds[j], weekBeginDate + dayOffset, shift)
    requires OnlyTurnedIntoDayOff(before, after[..|before|])
    requires lastAfter == lastBefore[staffIds[j] := shift]
    requires forced ==> shift == DAY_OFF
    requires !forced && rules.avoidMorningAfterEvening && shift == MORNING ==> LastOf(lastBefore, staffIds[j]) != Some(EVENING)
    requires !rules.dayOffEnabled ==> shift != DAY_OFF && after[..|before|] == before
    requires PartialSchedule(rules, weekBeginDate, dayOffset + 1, staffIds, before)
    requires forall i :: 0 <= i < |before| && before[i].date == weekBeginDate + dayOffset ==> before[i].staffId in staffIds[..j]
    requires EveningIsLast(before, lastBefore, weekBeginDate + dayOffset, [])
    requires EveningIsLast(before, lastBefore, weekBeginDate + dayOffset - 1, staffIds[..j])
    ensures PartialSchedule(rules, weekBeginDate, dayOffset + 1, staffIds, after)
    ensures forall i :: 0 <= i < |after| && after[i].date == weekBeginDate + dayOffset ==> after[i].staffId in staffIds[..j + 1]
    ensures EveningIsLast(after, lastAfter, weekBeginDate + dayOffset, [])
    ensures EveningIsLast(after, lastAfter, weekBeginDate + dayOffset - 1, staffIds[..j + 1])
  {
    var staffId, n := staffIds[j], |before|;
    assert staffId !in staffIds[..j];
    assert staffIds[..j + 1] == staffIds[..j] + [staffId];
    forall i | 0 <= i < n
      ensures SameSlot(before[i], after[i])
    {
      assert after[i] == after[..n][i];
    }
    StepKeepsSlots(staffIds, j, weekBeginDate, dayOffset, before, after);
    if rules.avoidMorningAfterEvening {
      StepKeepsNoMorningAfterEvening(staffIds, j, weekBeginDate + dayOffset, before, after, lastBefore, shift,
                                     !forced);
    }
    if !rules.dayOffEnabled {
      assert NoDayOff(after) by {
        assert after == before + [after[n]];
      }
    }
    StepKeepsEveningIsLast(staffIds, j, weekBeginDate + dayOffset, before, after, lastBefore, lastAfter, shift);
  }

  /** The assignment at the same position keeps its staff member and date and
      at most turned into DAY_OFF. */
  ghost predicate SameSlot(a: ShiftAssignment, b: ShiftAssignment)
  {
    a.staffId == b.staffId && a.date == b.date && (b == a || b.shiftType == DAY_OFF)
  }

  lemma StepKeepsSlots(staffIds: seq<string>, j: nat, start: Date, dayOffset: int,
                       before: seq<ShiftAssignment>, after: seq<ShiftAssignment>)
    requires NoDuplicates(staffIds) && j < |staffIds| && 0 <= dayOffset
    requires |after| == |before| + 1 && after[|before|].staffId == staffIds[j] && after[|before|].date == start + dayOffset
    requires forall i :: 0 <= i < |before| ==> SameSlot(before[i], after[i])
    requires DatesWithin(before, start, dayOffset + 1) && OneShiftPerStaffAndDate(before) && StaffFrom(before, staffIds)
    requires forall i :: 0 <= i < |before| && before[i].date == start + dayOffset ==> before[i].staffId in staffIds[..j]
    ensures DatesWithin(after, start, dayOffset + 1) && OneShiftPerStaffAndDate(after) && StaffFrom(after, staffIds)
    ensures forall i :: 0 <= i < |after| && after[i].date == start + dayOffset ==> after[i].staffId in staffIds[..j + 1]
  {
    assert staffIds[j] !in staffIds[..j];
    assert staffIds[..j + 1] == staffIds[..j] + [staffIds[j]];
  }

  lemma StepKeepsNoMorningAfterEvening(staffIds: seq<string>, j: nat, today: Date,
                                       before: seq<ShiftAssignment>, after: seq<ShiftAssignment>,
                                       lastBefore: LastShift, shift: ShiftType, filtered: bool)
    requires NoDuplicates(staffIds) && j < |staffIds|
    requires |after| == |before| + 1 && after[|before|] == ShiftAssignment(staffIds[j], today, shift)
    requires forall i :: 0 <= i < |before| ==> SameSlot(before[i], after[i])
    requires forall i :: 0 <= i < |before| ==> before[i].date <= today
    requires filtered && shift == MORNING ==> LastOf(lastBefore, staffIds[j]) != Some(EVENING)
    requires !filtered ==> shift == DAY_OFF
    requires EveningIsLast(before, lastBefore, today - 1, staffIds[..j])
    requires NoMorningAfterEvening(before)
    ensures NoMorningAfterEvening(after)
  {
    assert staffIds[j] !in staffIds[..j];
  }

  lemma StepKeepsEveningIsLast(staffIds: seq<string>, j: nat, today: Date,
                               before: seq<ShiftAssignment>, after: seq<ShiftAssignment>,
                               lastBefore: LastShift, lastAfter: LastShift, shift: ShiftType)
    requires NoDuplicates(staffIds) && j < |staffIds|
    requires |after| == |before| + 1 && after[|before|] == ShiftAssignment(staffIds[j], today, shift)
    requires forall i :: 0 <= i < |before| ==> SameSlot(before[i], after[i])
    requires lastAfter == lastBefore[staffIds[j] := shift]
    requires forall i :: 0 <= i < |before| && before[i].date == today ==> before[i].staffId in staffIds[..j]
    requires EveningIsLast(before, lastBefore, today, [])
    requires EveningIsLast(before, lastBefore, today - 1, staffIds[..j])
    ensures EveningIsLast(after, lastAfter, today, [])
    ensures EveningIsLast(after, lastAfter, today - 1, staffIds[..j + 1])
  {
    assert staffIds[j] !in staffIds[..j];
    assert staffIds[..j + 1] == staffIds[..j] + [staffIds[j]];
  }

  /** The lock key of the job worker (line 54). */
  function JobLockKey(jobId: string): (k: string)
    ensures |k| == |"lock:job"| + |jobId| && k[..8] == "lock:job" && k[8..] == jobId
  {
    "lock:job" + jobId
  }

  function NoStaffMessage(staffGroupId: string): (m: string)
    ensures |m| == 33 + |staffGroupId| + |" or Data Service unavailable."|
    ensures m[..33] == "No staff members found for group " && m[33..33 + |staffGroupId|] == staffGroupId
  {
    "No staff members found for group " + staffGroupId + " or Data Service unavailable."
  }

  function InternalErrorMessage(cause: string): (m: string)
    ensures |m| == 43 + |cause|
    ensures m[..43] == "Internal error during schedule generation: " && m[43..] == cause
  {
    "Internal error during schedule generation: " + cause
  }

  /** What the worker does to a PENDING job, given the staff set the data
      service answered and the exception (if any) thrown while generating. */
  ghost predicate ProcessedJob(rules: Rules, job: ScheduleJob, staffIds: seq<string>, fault: Option<string>,
                               result: ScheduleJob)
  {
    if |staffIds| == 0 then
      result == job.(status := FAILED, errorMessage := Some(NoStaffMessage(job.staffGroupId)))
    else if fault.Some? then
      result == job.(status := FAILED, errorMessage := Some(InternalErrorMessage(fault.value)))
    else
      && result == job.(assignments := result.assignments)
      && PartialSchedule(rules, job.weekBeginDate, DayCount(rules), staffIds, result.assignments)
      && (!rules.dayOffEnabled ==> |result.assignments| == DayCount(rules) * |staffIds|)
      && ServedPrefixes(rules, job.weekBeginDate, staffIds, result.assignments)
  }

  /** Every day of the period served a prefix of the staff list, as
      `GenerateShiftAssignments` promises with its ghost day counts. */
  ghost predicate ServedPrefixes(rules: Rules, start: Date, staffIds: seq<string>, all: seq<ShiftAssignment>)
  {
    exists served: seq<nat> :: |served| == DayCount(rules) && ServedDays(rules, start, staffIds, all, served)
  }

  /** `ScheduleGeneratorService`: the worker over the job table and the lock. */
  class ScheduleGeneratorService {
    const scheduleJobRepository: ScheduleJobRepository
    const lockService: LockService
    const rules: Rules
    /** `DateUtil.getWeekOfYear`, whose numbering depends on the locale. */
    const weekOf: Date -> int

    constructor (rules: Rules, scheduleJobRepository: ScheduleJobRepository, lockService: LockService,
                 weekOf: Date -> int)
      ensures this.rules == rules && this.weekOf == weekOf
      ensures this.scheduleJobRepository == scheduleJobRepository && this.lockService == lockService
    {
      this.rules := rules;
      this.scheduleJobRepository := scheduleJobRepository;
      this.lockService := lockService;
      this.weekOf := weekOf;
    }

    /** `generateScheduleAsync` (lines 53-99). `lockValue` is the random UUID,
        `staffIds` the staff set `DataServiceClient` returned (in iteration
        order) and `fault` the message of an exception thrown while the
        assignments are generated. */
    method GenerateScheduleAsync(jobId: string, lockValue: string, staffIds: seq<string>, fault: Option<string>)
      requires scheduleJobRepository.Valid()
      requires NoDuplicates(staffIds)
      modifies scheduleJobRepository, lockService
      ensures scheduleJobRepository.Valid()
      // the lock is either never obtained or released again: the store is back
      ensures lockService.store == old(lockService.store)
      // lock held elsewhere, unknown job or job not PENDING: the table is as it was
      ensures !Acquire(old(lockService.store), JobLockKey(jobId), lockValue).ok
              || jobId !in old(scheduleJobRepository.jobs)
              || old(scheduleJobRepository.jobs)[jobId].status != PENDING
              ==> scheduleJobRepository.jobs == old(scheduleJobRepository.jobs)
      // otherwise the PENDING job alone is replaced by its processed version
      ensures Acquire(old(lockService.store), JobLockKey(jobId), lockValue).ok
              && jobId in old(scheduleJobRepository.jobs)
              && old(scheduleJobRepository.jobs)[jobId].status == PENDING
              ==> jobId in scheduleJobRepository.jobs
                  && scheduleJobRepository.jobs == old(scheduleJobRepository.jobs)[jobId := scheduleJobRepository.jobs[jobId]]
                  && ProcessedJob(rules, old(scheduleJobRepository.jobs)[jobId], staffIds, fault,
                                  scheduleJobRepository.jobs[jobId])
    {
      var lockKey := JobLockKey(jobId);
      var acquired := lockService.AcquireLock(lockKey, lockValue);
      if !acquired {
        return;
      }
      var found := scheduleJobRepository.FindById(jobId);
      if found.Some? {
        var job := found.value;
        if job.status == PENDING {
          scheduleJobRepository.Save(job);
          if |staffIds| == 0 {
            job := job.(status := FAILED, errorMessage := Some(NoStaffMessage(job.staffGroupId)));
            scheduleJobRepository.Save(job);
          } else if fault.Some? {
            job := job.(status := FAILED, errorMessage := Some(InternalErrorMessage(fault.value)));
          } else {
            var shiftAssignments;
            ghost var served;
            shiftAssignments, served := GenerateShiftAssignments(rules, weekOf, job.weekBeginDate, staffIds);
            assert ServedPrefixes(rules, job.weekBeginDate, staffIds, shiftAssignments);
            job := job.(assignments := shiftAssignments);
          }
        }
        // finally: the job found is saved back whatever happened
        scheduleJobRepository.Save(job);
      }
      ReleaseThenReacquire(old(lockService.store), lockKey, lockValue, lockValue);
      var _ := lockService.ReleaseLock(lockKey, lockValue);
    }
  }
}
