/**
 The untyped copy `hager-gui/src/utils/shift.jsx` of the shift rotation. It
 declares its own `SHIFT_CYCLE` and `SHIFT_PATTERNS`; the arithmetic and the
 branches are the ones `Shift` models, applied to these tables.
 */
module ShiftJsx {
  import opened Base
  import opened Shift

  /** Line 2: `SHIFT_CYCLE` of the copy. */
  const Cycle: seq<CycleRow> := [CycleRow([1, 4, 3, 2], [2, 1, 4, 3], [3, 2, 1, 4])]

  /** Lines 5-21: `SHIFT_PATTERNS` of the copy. */
  const LongJsx: Pattern := Pattern([Tu, We, Th, Fr, Sa], [Mo, Tu, We, Th], [Su, Mo, Tu])
  const NormalJsx: Pattern := Pattern([Tu, We, Th, Fr, Sa], [Mo, Tu, We, Th], [Mo, Tu])
  const ShortJsx: Pattern := Pattern([Tu, We, Th, Fr], [Mo, Tu, We, Th], [Mo, Tu])

  function PatternNamedJsx(shiftType: string): (p: Option<Pattern>)
    ensures p.Some? <==> shiftType in {"4x8 L", "4x8 N", "4x8 C"}
  {
    if shiftType == "4x8 L" then Some(LongJsx)
    else if shiftType == "4x8 N" then Some(NormalJsx)
    else if shiftType == "4x8 C" then Some(ShortJsx)
    else None
  }

  /** Lines 23-42: `generateShiftSchedule` of the copy. */
  function GenerateShiftScheduleJsx(ceId: int, currentWeek: int, shiftType: string): (r: Outcome<Schedule>)
    ensures r.Thrown? <==>
      PatternNamedJsx(shiftType).None? && 0 <= ShiftIndex(Cycle[0].morning, ceId, currentWeek) <= 2
  {
    ScheduleFor(ShiftIndex(Cycle[0].morning, ceId, currentWeek), PatternNamedJsx(shiftType))
  }

  /** The two copies have equal tables ... */
  lemma SameTables()
    ensures Cycle == ShiftCycle
    ensures forall t :: PatternNamedJsx(t) == PatternNamed(t)
  {
  }

  /** ... and so compute the same schedule on every input. */
  lemma Agrees(ceId: int, currentWeek: int, shiftType: string)
    ensures GenerateShiftScheduleJsx(ceId, currentWeek, shiftType)
         == GenerateShiftSchedule(ceId, currentWeek, shiftType)
  {
    SameTables();
  }

  /** For a known CE from week 1 on, the slot is 0..3 and follows the rotation. */
  lemma ShiftIndexRange(ceId: int, currentWeek: int)
    requires ceId in Cycle[0].morning && currentWeek >= 1
    ensures ShiftIndex(Cycle[0].morning, ceId, currentWeek)
         == (IndexOf([1, 4, 3, 2], ceId) + (currentWeek - 1) % 4) % 4
    ensures 0 <= ShiftIndex(Cycle[0].morning, ceId, currentWeek) <= 3
  {
    SameTables();
    ShiftIndexOfKnownCe(ceId, currentWeek);
  }

  /** The copy depends on the week only through `(week - 1) mod 4`. */
  lemma DependsOnCycleWeekJsx(ceId: int, w1: int, w2: int, shiftType: string)
    requires w1 >= 1 && w2 >= 1 && (w1 - 1) % 4 == (w2 - 1) % 4
    ensures GenerateShiftScheduleJsx(ceId, w1, shiftType) == GenerateShiftScheduleJsx(ceId, w2, shiftType)
  {
    Agrees(ceId, w1, shiftType);
    Agrees(ceId, w2, shiftType);
    DependsOnCycleWeek(ceId, w1, w2, shiftType);
  }

  /** Morning branch of the copy; under '4x8 C' it leaves out Saturday. */
  lemma MorningBranchJsx(ceId: int, currentWeek: int, shiftType: string)
    requires PatternNamedJsx(shiftType).Some? && ShiftIndex(Cycle[0].morning, ceId, currentWeek) == 0
    ensures GenerateShiftScheduleJsx(ceId, currentWeek, shiftType)
         == Done(Fill(PatternNamedJsx(shiftType).value.morning, M))
    ensures Keys(Fill(PatternNamedJsx(shiftType).value.morning, M))
         == set d | d in PatternNamedJsx(shiftType).value.morning
    ensures shiftType == "4x8 C" ==> Sa !in Keys(Fill(PatternNamedJsx(shiftType).value.morning, M))
  {
    SameTables();
    Agrees(ceId, currentWeek, shiftType);
    MorningBranch(ceId, currentWeek, shiftType);
  }

  lemma AfternoonBranchJsx(ceId: int, currentWeek: int, shiftType: string)
    requires PatternNamedJsx(shiftType).Some? && ShiftIndex(Cycle[0].morning, ceId, currentWeek) == 1
    ensures GenerateShiftScheduleJsx(ceId, currentWeek, shiftType)
         == Done(Fill(PatternNamedJsx(shiftType).value.afternoon, S))
    ensures Keys(Fill(PatternNamedJsx(shiftType).value.afternoon, S))
         == set d | d in PatternNamedJsx(shiftType).value.afternoon
  {
    SameTables();
    Agrees(ceId, currentWeek, shiftType);
    AfternoonBranch(ceId, currentWeek, shiftType);
  }

  lemma NightBranchJsx(ceId: int, currentWeek: int, shiftType: string)
    requires PatternNamedJsx(shiftType).Some? && ShiftIndex(Cycle[0].morning, ceId, currentWeek) == 2
    ensures GenerateShiftScheduleJsx(ceId, currentWeek, shiftType)
         == Done(Fill(PatternNamedJsx(shiftType).value.night, N) + [Entry(Fr, S)])
  {
    SameTables();
    Agrees(ceId, currentWeek, shiftType);
    NightBranch(ceId, currentWeek, shiftType);
  }

  lemma FallbackBranchJsx(ceId: int, currentWeek: int, shiftType: string)
    requires !(0 <= ShiftIndex(Cycle[0].morning, ceId, currentWeek) <= 2)
    ensures GenerateShiftScheduleJsx(ceId, currentWeek, shiftType) == Done([Entry(Mo, M)])
  {
  }
}
