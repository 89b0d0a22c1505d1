/**
 The four-week shift rotation of `hager-gui/src/utils/shift.tsx`.

 A CE (a rotating team) is located in the rotation `[1, 4, 3, 2]`, moves one
 slot per week, and the slot picks the shift: 0 morning (`M`), 1 afternoon
 (`S`), 2 night (`N`, with Friday turned into an afternoon), and any other
 slot the fixed record `{Mo: 'M'}`. A schedule is a JavaScript object built
 by spreading and `reduce`; it is modelled as an association list in
 insertion order, which is also the order `Object.entries` walks it in.
 */
module Shift {
  import opened Base

  datatype Day = Mo | Tu | We | Th | Fr | Sa | Su

  /** The shift codes written into a schedule. */
  datatype Code = M | S | N

  datatype Entry = Entry(day: Day, code: Code)

  /** A `Record<string, string>` from weekday to shift code, in insertion order. */
  type Schedule = seq<Entry>

  /** One row of `SHIFT_CYCLE`; only `morning` is ever read. */
  datatype CycleRow = CycleRow(morning: seq<int>, afternoon: seq<int>, night: seq<int>)

  /** The weekdays each shift spans in one named pattern. */
  datatype Pattern = Pattern(morning: seq<Day>, afternoon: seq<Day>, night: seq<Day>)

  /** `SHIFT_CYCLE[0].morning`: the order in which the CEs enter the rotation. */
  const Rotation: seq<int> := [1, 4, 3, 2]

  const ShiftCycle: seq<CycleRow> := [CycleRow(Rotation, [2, 1, 4, 3], [3, 2, 1, 4])]

  const Long: Pattern := Pattern([Tu, We, Th, Fr, Sa], [Mo, Tu, We, Th], [Su, Mo, Tu])
  const Normal: Pattern := Pattern([Tu, We, Th, Fr, Sa], [Mo, Tu, We, Th], [Mo, Tu])
  const Short: Pattern := Pattern([Tu, We, Th, Fr], [Mo, Tu, We, Th], [Mo, Tu])

  /** `SHIFT_PATTERNS[shiftType]`: undefined for any other name. */
  function PatternNamed(shiftType: string): (p: Option<Pattern>)
    ensures p.Some? <==> shiftType in {"4x8 L", "4x8 N", "4x8 C"}
  {
    if shiftType == "4x8 L" then Some(Long)
    else if shiftType == "4x8 N" then Some(Normal)
    else if shiftType == "4x8 C" then Some(Short)
    else None
  }

  // ---------------------------------------------------------------------
  // Schedules as JavaScript objects
  // ---------------------------------------------------------------------

  function Keys(s: Schedule): set<Day>
  {
    if s == [] then {} else {s[0].day} + Keys(s[1..])
  }

  predicate DistinctKeys(s: Schedule)
  {
    s == [] || (s[0].day !in Keys(s[1..]) && DistinctKeys(s[1..]))
  }

  /** Reading property `d` of the object. */
  function Lookup(s: Schedule, d: Day): (r: Option<Code>)
    ensures r.Some? <==> d in Keys(s)
  {
    if s == [] then None
    else if s[0].day == d then Some(s[0].code)
    else Lookup(s[1..], d)
  }

  /** `{ ...s, [d]: c }`: an existing key keeps its place and takes the new
      value, a new key goes last. */
  function Put(s: Schedule, d: Day, c: Code): (r: Schedule)
    ensures Keys(r) == Keys(s) + {d}
    ensures Lookup(r, d) == Some(c)
    ensures forall d' :: d' != d ==> Lookup(r, d') == Lookup(s, d')
    ensures DistinctKeys(s) ==> DistinctKeys(r)
    ensures d !in Keys(s) ==> r == s + [Entry(d, c)]
  {
    if s == [] then [Entry(d, c)]
    else if s[0].day == d then [Entry(d, c)] + s[1..]
    else
      var t := Put(s[1..], d, c);
      assert ([s[0]] + t)[1..] == t;
      assert d !in Keys(s) ==> s + [Entry(d, c)] == [s[0]] + (s[1..] + [Entry(d, c)]);
      [s[0]] + t
  }

  /** `days.reduce((acc, day) => ({ ...acc, [day]: c }), acc)`. */
  function AssignAll(acc: Schedule, days: seq<Day>, c: Code): Schedule
    decreases |days|
  {
    if days == [] then acc else AssignAll(Put(acc, days[0], c), days[1..], c)
  }

  /** The record that gives each of `days`, in order, the code `c`. */
  function Fill(days: seq<Day>, c: Code): (r: Schedule)
    ensures |r| == |days|
  {
    seq(|days|, i requires 0 <= i < |days| => Entry(days[i], c))
  }

  predicate Distinct<T(==)>(s: seq<T>)
  {
    forall i, j :: 0 <= i < j < |s| ==> s[i] != s[j]
  }

  lemma {:induction false} FillKeys(days: seq<Day>, c: Code)
    ensures Keys(Fill(days, c)) == set d | d in days
    ensures forall d :: d in days ==> Lookup(Fill(days, c), d) == Some(c)
    decreases |days|
  {
    if days != [] {
      FillKeys(days[1..], c);
      assert Fill(days, c)[1..] == Fill(days[1..], c);
      assert forall d :: d in days <==> d == days[0] || d in days[1..];
    }
  }

  lemma {:induction false} KeysAppend(a: Schedule, b: Schedule)
    ensures Keys(a + b) == Keys(a) + Keys(b)
    decreases |a|
  {
    if a == [] {
      assert a + b == b;
    } else {
      assert (a + b)[1..] == a[1..] + b;
      KeysAppend(a[1..], b);
    }
  }

  lemma FillFirst(days: seq<Day>, c: Code)
    requires days != []
    ensures Fill(days, c) == [Entry(days[0], c)] + Fill(days[1..], c)
  {
    assert Fill(days, c)[1..] == Fill(days[1..], c);
  }

  /** Reducing a list of distinct new days appends them, in order. */
  lemma {:induction false} AssignAllAppends(acc: Schedule, days: seq<Day>, c: Code)
    requires Distinct(days)
    requires forall i :: 0 <= i < |days| ==> days[i] !in Keys(acc)
    ensures AssignAll(acc, days, c) == acc + Fill(days, c)
    decreases |days|
  {
    if days != [] {
      var acc' := Put(acc, days[0], c);
      assert acc' == acc + [Entry(days[0], c)];
      DistinctRest(days);
      forall i | 0 <= i < |days[1..]| ensures days[1..][i] !in Keys(acc') {
        assert days[1..][i] == days[i + 1] != days[0];
      }
      AssignAllAppends(acc', days[1..], c);
      FillFirst(days, c);
      assert acc + Fill(days, c) == acc' + Fill(days[1..], c);
    }
  }

  /** The days after the first of a repeat-free list are repeat-free and
      differ from the first. */
  lemma DistinctRest(days: seq<Day>)
    requires Distinct(days) && days != []
    ensures Distinct(days[1..]) && days[0] !in days[1..]
  {
  }

  /** The object `reduce` builds from `{}` over distinct days. */
  lemma FillFromEmpty(days: seq<Day>, c: Code)
    requires Distinct(days)
    ensures AssignAll([], days, c) == Fill(days, c)
  {
    AssignAllAppends([], days, c);
  }

  // ---------------------------------------------------------------------
  // The scheduler
  // ---------------------------------------------------------------------

  /** Lines 38-40: the CE's slot in week `currentWeek`, with JavaScript `%`. */
  function ShiftIndex(rotation: seq<int>, ceId: int, currentWeek: int): (k: int)
    ensures -4 < k < 4
  {
    var weekInCycle := JsRem4(currentWeek - 1);
    var ceIndex := IndexOf(rotation, ceId);
    JsRem4(ceIndex + weekInCycle)
  }

  /** Lines 43-55 once the slot and the looked-up pattern are known. The
      pattern is only read in the three working branches, so an unknown name
      throws there and nowhere else. */
  function ScheduleFor(shiftIndex: int, shiftPattern: Option<Pattern>): Outcome<Schedule>
  {
    if shiftIndex == 0 then
      if shiftPattern.None? then Thrown
      else Done(AssignAll([], shiftPattern.value.morning, M))
    else if shiftIndex == 1 then
      if shiftPattern.None? then Thrown
      else Done(AssignAll([], shiftPattern.value.afternoon, S))
    else if shiftIndex == 2 then
      if shiftPattern.None? then Thrown
      else Done(Put(AssignAll([], shiftPattern.value.night, N), Fr, S))
    else
      Done([Entry(Mo, M)])
  }

  /** `generateShiftSchedule(ceId, currentWeek, shiftType)`. */
  function GenerateShiftSchedule(ceId: int, currentWeek: int, shiftType: string): (r: Outcome<Schedule>)
    ensures r.Thrown? <==>
      PatternNamed(shiftType).None? && 0 <= ShiftIndex(ShiftCycle[0].morning, ceId, currentWeek) <= 2
  {
    ScheduleFor(ShiftIndex(ShiftCycle[0].morning, ceId, currentWeek), PatternNamed(shiftType))
  }

  // ---------------------------------------------------------------------
  // Properties
  // ---------------------------------------------------------------------

  /** Every day list of every pattern is free of repeats, and no night list
      holds Friday. */
  predicate WellFormed(p: Pattern)
  {
    Distinct(p.morning) && Distinct(p.afternoon) && Distinct(p.night) && Fr !in p.night
  }

  lemma PatternsWellFormed(shiftType: string)
    requires PatternNamed(shiftType).Some?
    ensures WellFormed(PatternNamed(shiftType).value)
  {
  }

  /** For a known CE from week 1 on, the slot is the ordinary modular sum
      and lies in 0..3. */
  lemma ShiftIndexOfKnownCe(ceId: int, currentWeek: int)
    requires ceId in Rotation && currentWeek >= 1
    ensures ShiftIndex(Rotation, ceId, currentWeek)
         == (IndexOf(Rotation, ceId) + (currentWeek - 1) % 4) % 4
    ensures 0 <= ShiftIndex(Rotation, ceId, currentWeek) <= 3
  {
  }

  /** An unknown CE sits at index -1: in week 1 (mod 4) its slot is -1, so it
      gets the fallback record; in the other weeks it takes slot 0, 1 or 2. */
  lemma ShiftIndexOfUnknownCe(ceId: int, currentWeek: int)
    requires ceId !in Rotation && currentWeek >= 1
    ensures ShiftIndex(Rotation, ceId, currentWeek) == (currentWeek - 1) % 4 - 1
  {
  }

  /** The schedule depends on the week only through `(week - 1) mod 4`. */
  lemma {:induction false} DependsOnCycleWeek(ceId: int, w1: int, w2: int, shiftType: string)
    requires w1 >= 1 && w2 >= 1 && (w1 - 1) % 4 == (w2 - 1) % 4
    ensures GenerateShiftSchedule(ceId, w1, shiftType) == GenerateShiftSchedule(ceId, w2, shiftType)
  {
    assert JsRem4(w1 - 1) == JsRem4(w2 - 1);
    assert ShiftIndex(ShiftCycle[0].morning, ceId, w1) == ShiftIndex(ShiftCycle[0].morning, ceId, w2);
  }

  /** Periodicity: weeks `w` and `w + 4` get the same schedule. */
  lemma Periodic(ceId: int, w: int, shiftType: string)
    requires w >= 1
    ensures GenerateShiftSchedule(ceId, w + 4, shiftType) == GenerateShiftSchedule(ceId, w, shiftType)
  {
    DependsOnCycleWeek(ceId, w + 4, w, shiftType);
  }

  /** The position of each CE in the rotation. */
  lemma RotationPositions()
    ensures Rotation == [1, 4, 3, 2]
    ensures IndexOf(Rotation, 1) == 0 && IndexOf(Rotation, 4) == 1
    ensures IndexOf(Rotation, 3) == 2 && IndexOf(Rotation, 2) == 3
  {
    assert Rotation[0] == 1 && Rotation[1] == 4 && Rotation[2] == 3;
  }

  lemma RotateInjective(x: int, y: int, j: int)
    requires 0 <= x < 4 && 0 <= y < 4 && x != y && 0 <= j < 4
    ensures (x + j) % 4 != (y + j) % 4
  {
  }

  /** The CE that holds slot `k` in week `w`. */
  function SlotHolder(k: int, w: int): int
    requires 0 <= k <= 3
  {
    Rotation[(k - (w - 1) % 4 + 4) % 4]
  }

  /** In every week the four CEs occupy four different slots ... */
  lemma {:induction false} Coverage(w: int)
    requires w >= 1
    ensures forall a, b :: a in Rotation && b in Rotation && a != b ==>
      ShiftIndex(Rotation, a, w) != ShiftIndex(Rotation, b, w)
    ensures forall k :: 0 <= k <= 3 ==>
      SlotHolder(k, w) in Rotation && ShiftIndex(Rotation, SlotHolder(k, w), w) == k
  {
    forall a, b | a in Rotation && b in Rotation && a != b
      ensures ShiftIndex(Rotation, a, w) != ShiftIndex(Rotation, b, w)
    {
      DistinctSlots(a, b, w);
    }
    forall k | 0 <= k <= 3
      ensures SlotHolder(k, w) in Rotation && ShiftIndex(Rotation, SlotHolder(k, w), w) == k
    {
      HolderHoldsSlot(k, w);
    }
  }

  /** Two different CEs of the rotation never share a slot. */
  lemma DistinctSlots(a: int, b: int, w: int)
    requires a in Rotation && b in Rotation && a != b && w >= 1
    ensures ShiftIndex(Rotation, a, w) != ShiftIndex(Rotation, b, w)
  {
    var x, y := IndexOf(Rotation, a), IndexOf(Rotation, b);
    assert Rotation[x] == a && Rotation[y] == b;
    ShiftIndexOfKnownCe(a, w);
    ShiftIndexOfKnownCe(b, w);
    var j := (w - 1) % 4;
    RotateInjective(x, y, j);
    assert ShiftIndex(Rotation, a, w) == (x + j) % 4;
    assert ShiftIndex(Rotation, b, w) == (y + j) % 4;
  }

  /** ... and slot `k` goes to `SlotHolder(k, w)`. */
  lemma HolderHoldsSlot(k: int, w: int)
    requires 0 <= k <= 3 && w >= 1
    ensures SlotHolder(k, w) in Rotation && ShiftIndex(Rotation, SlotHolder(k, w), w) == k
  {
    var j := (w - 1) % 4;
    var i := (k - j + 4) % 4;
    assert SlotHolder(k, w) == Rotation[i];
    RotationIndex(i);
    ShiftIndexOfKnownCe(Rotation[i], w);
    ModBack(k, j);
  }

  lemma RotationIndex(i: int)
    requires 0 <= i < 4
    ensures IndexOf(Rotation, Rotation[i]) == i
  {
    RotationPositions();
  }

  lemma ModBack(k: int, j: int)
    requires 0 <= k < 4 && 0 <= j < 4
    ensures ((k - j + 4) % 4 + j) % 4 == k
  {
  }

  /** Slot 0: exactly the pattern's morning days, in order, each `M`. */
  lemma MorningBranch(ceId: int, currentWeek: int, shiftType: string)
    requires PatternNamed(shiftType).Some? && ShiftIndex(Rotation, ceId, currentWeek) == 0
    ensures GenerateShiftSchedule(ceId, currentWeek, shiftType)
         == Done(Fill(PatternNamed(shiftType).value.morning, M))
    ensures Keys(Fill(PatternNamed(shiftType).value.morning, M))
         == set d | d in PatternNamed(shiftType).value.morning
  {
    var days := PatternNamed(shiftType).value.morning;
    PatternsWellFormed(shiftType);
    FillFromEmpty(days, M);
    FillKeys(days, M);
  }

  /** Slot 1: exactly the pattern's afternoon days, in order, each `S`. */
  lemma AfternoonBranch(ceId: int, currentWeek: int, shiftType: string)
    requires PatternNamed(shiftType).Some? && ShiftIndex(Rotation, ceId, currentWeek) == 1
    ensures GenerateShiftSchedule(ceId, currentWeek, shiftType)
         == Done(Fill(PatternNamed(shiftType).value.afternoon, S))
    ensures Keys(Fill(PatternNamed(shiftType).value.afternoon, S))
         == set d | d in PatternNamed(shiftType).value.afternoon
  {
    var days := PatternNamed(shiftType).value.afternoon;
    PatternsWellFormed(shiftType);
    FillFromEmpty(days, S);
    FillKeys(days, S);
  }

  /** Slot 2: the night days, in order, each `N`, then Friday as `S`; so the
      key set is the night days plus Friday. */
  lemma NightBranch(ceId: int, currentWeek: int, shiftType: string)
    requires PatternNamed(shiftType).Some? && ShiftIndex(Rotation, ceId, currentWeek) == 2
    ensures GenerateShiftSchedule(ceId, currentWeek, shiftType)
         == Done(Fill(PatternNamed(shiftType).value.night, N) + [Entry(Fr, S)])
    ensures Keys(Fill(PatternNamed(shiftType).value.night, N) + [Entry(Fr, S)])
         == (set d | d in PatternNamed(shiftType).value.night) + {Fr}
  {
    var night := PatternNamed(shiftType).value.night;
    PatternsWellFormed(shiftType);
    FillFromEmpty(night, N);
    FillKeys(night, N);
    KeysAppend(Fill(night, N), [Entry(Fr, S)]);
    assert Keys([Entry(Fr, S)]) == {Fr};
  }

  /** Any other slot (3, or a negative one) gives exactly `{Mo: 'M'}`,
      whatever the pattern name. */
  lemma FallbackBranch(ceId: int, currentWeek: int, shiftType: string)
    requires !(0 <= ShiftIndex(Rotation, ceId, currentWeek) <= 2)
    ensures GenerateShiftSchedule(ceId, currentWeek, shiftType) == Done([Entry(Mo, M)])
  {
  }

  /** An unknown CE in week 1 falls into the fallback branch. */
  lemma UnknownCeWeekOne(ceId: int, shiftType: string)
    requires ceId !in Rotation
    ensures GenerateShiftSchedule(ceId, 1, shiftType) == Done([Entry(Mo, M)])
  {
    ShiftIndexOfUnknownCe(ceId, 1);
    FallbackBranch(ceId, 1, shiftType);
  }

  /** CE 1 under '4x8 L' in any week. */
  lemma CeOneLong(w: int)
    requires w >= 1
    ensures (w - 1) % 4 == 0 ==>
      GenerateShiftSchedule(1, w, "4x8 L")
        == Done([Entry(Tu, M), Entry(We, M), Entry(Th, M), Entry(Fr, M), Entry(Sa, M)])
    ensures (w - 1) % 4 == 1 ==>
      GenerateShiftSchedule(1, w, "4x8 L")
        == Done([Entry(Mo, S), Entry(Tu, S), Entry(We, S), Entry(Th, S)])
    ensures (w - 1) % 4 == 2 ==>
      GenerateShiftSchedule(1, w, "4x8 L")
        == Done([Entry(Su, N), Entry(Mo, N), Entry(Tu, N), Entry(Fr, S)])
    ensures (w - 1) % 4 == 3 ==> GenerateShiftSchedule(1, w, "4x8 L") == Done([Entry(Mo, M)])
  {
    CeOneSlot(w);
    var k := ShiftIndex(Rotation, 1, w);
    if k == 0 {
      CeOneMorning(w);
    } else if k == 1 {
      CeOneAfternoon(w);
    } else if k == 2 {
      CeOneNight(w);
    } else {
      FallbackBranch(1, w, "4x8 L");
    }
  }

  /** CE 1 opens the rotation, so its slot is the week within the cycle. */
  lemma CeOneSlot(w: int)
    requires w >= 1
    ensures ShiftIndex(Rotation, 1, w) == (w - 1) % 4
  {
    RotationIndex(0);
    ShiftIndexOfKnownCe(1, w);
  }

  /** The three day lists of '4x8 L', each filled with its code. */
  lemma LongFilled()
    ensures Fill(Long.morning, M) == [Entry(Tu, M), Entry(We, M), Entry(Th, M), Entry(Fr, M), Entry(Sa, M)]
    ensures Fill(Long.afternoon, S) == [Entry(Mo, S), Entry(Tu, S), Entry(We, S), Entry(Th, S)]
    ensures Fill(Long.night, N) == [Entry(Su, N), Entry(Mo, N), Entry(Tu, N)]
  {
  }

  lemma CeOneMorning(w: int)
    requires ShiftIndex(Rotation, 1, w) == 0
    ensures GenerateShiftSchedule(1, w, "4x8 L")
         == Done([Entry(Tu, M), Entry(We, M), Entry(Th, M), Entry(Fr, M), Entry(Sa, M)])
  {
    MorningBranch(1, w, "4x8 L");
    LongFilled();
  }

  lemma CeOneAfternoon(w: int)
    requires ShiftIndex(Rotation, 1, w) == 1
    ensures GenerateShiftSchedule(1, w, "4x8 L")
         == Done([Entry(Mo, S), Entry(Tu, S), Entry(We, S), Entry(Th, S)])
  {
    AfternoonBranch(1, w, "4x8 L");
    LongFilled();
  }

  lemma CeOneNight(w: int)
    requires ShiftIndex(Rotation, 1, w) == 2
    ensures GenerateShiftSchedule(1, w, "4x8 L")
         == Done([Entry(Su, N), Entry(Mo, N), Entry(Tu, N), Entry(Fr, S)])
  {
    NightBranch(1, w, "4x8 L");
    LongFilled();
    assert [Entry(Su, N), Entry(Mo, N), Entry(Tu, N)] + [Entry(Fr, S)]
        == [Entry(Su, N), Entry(Mo, N), Entry(Tu, N), Entry(Fr, S)];
  }

  /** The `afternoon` and `night` columns of `SHIFT_CYCLE` are the `morning`
      column rotated by one and two places, and they are never read. Read as
      weekly rosters they do not match the rotation the code computes: in
      week 1 the code puts CE 4 on the afternoon, where the column names CE 2. */
  lemma UnusedCycleColumns()
    ensures forall j :: 0 <= j < 4 ==>
      ShiftCycle[0].afternoon[j] == Rotation[(j + 3) % 4] &&
      ShiftCycle[0].night[j] == Rotation[(j + 2) % 4]
    ensures ShiftIndex(Rotation, 4, 1) == 1 && ShiftCycle[0].afternoon[0] == 2
  {
    assert IndexOf(Rotation, 4) == 1;
  }
}
