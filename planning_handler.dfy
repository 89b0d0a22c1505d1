/**
 The planning endpoints of `handlers/planning.go`: the start of a week,
 the `week` query parameter of `GetPlannings` read with `strconv.Atoi`, and
 `UpdatePlanning`'s rule that an empty or zero field leaves the stored value
 as it is. Dates are counted in days; day 0 is a Monday.
 */
module PlanningHandler {
  import opened Base

  // ---------------------------------------------------------------------
  // getWeekStartDate (lines 163-176)
  // ---------------------------------------------------------------------

  /** 0 for Monday, ..., 6 for Sunday. */
  function Weekday(day: int): (w: int)
    ensures 0 <= w < 7
  {
    day % 7
  }

  /** The first Monday on or after `day`. */
  function FirstMondayFrom(day: int): (m: int)
    ensures day <= m <= day + 6 && Weekday(m) == 0
    ensures forall d :: day <= d < m ==> Weekday(d) != 0
  {
    var q, r := day / 7, day % 7;
    var m := if r == 0 then day else day + 7 - r;
    assert Weekday(m) == 0 by {
      if r != 0 {
        SevenRemainder(m, q + 1, 0);
      }
    }
    assert forall d :: day <= d < m ==> Weekday(d) != 0 by {
      forall d | day <= d < m ensures Weekday(d) != 0 {
        SevenRemainder(d, q, r + (d - day));
      }
    }
    m
  }

  /** The remainder of `7 * q + x` by 7, for `x` in 0..6, is `x`. */
  lemma SevenRemainder(a: int, q: int, x: int)
    requires a == 7 * q + x && 0 <= x < 7
    ensures a % 7 == x
  {
  }

  /** The date the function returns: the first Monday on or after January 1
      of the year, plus `week - 1` whole weeks. */
  function WeekStart(jan1: int, week: int): int
  {
    FirstMondayFrom(jan1) + (week - 1) * 7
  }

  /** `getWeekStartDate(year, week)`, given the day number of January 1. */
  method GetWeekStartDate(jan1: int, week: int) returns (t: int)
    ensures t == WeekStart(jan1, week)
  {
    t := jan1;
    while Weekday(t) != 0
      invariant jan1 <= t <= FirstMondayFrom(jan1)
      decreases FirstMondayFrom(jan1) - t
    {
      t := t + 1;
    }
    t := t + (week - 1) * 7;
  }

  /** Every week starts on a Monday, at most 6 days into the first week's
      search. */
  lemma WeekStartIsMonday(jan1: int, week: int)
    ensures Weekday(WeekStart(jan1, week)) == 0
    ensures jan1 <= WeekStart(jan1, 1) <= jan1 + 6
  {
    var m := FirstMondayFrom(jan1);
    assert m + (week - 1) * 7 == m + 7 * (week - 1);
    assert (m + 7 * (week - 1)) % 7 == m % 7;
  }

  /** Consecutive week numbers start exactly 7 days apart. */
  lemma ConsecutiveWeeks(jan1: int, week: int)
    ensures WeekStart(jan1, week + 1) == WeekStart(jan1, week) + 7
  {
  }

  // ---------------------------------------------------------------------
  // strconv.Atoi, as GetPlannings applies it to `week` (lines 16-23)
  // ---------------------------------------------------------------------

  const MinInt: int := -0x8000_0000_0000_0000
  const MaxInt: int := 0x7fff_ffff_ffff_ffff

  predicate IsDigit(c: char)
  {
    '0' <= c <= '9'
  }

  predicate AllDigits(s: string)
  {
    forall i :: 0 <= i < |s| ==> IsDigit(s[i])
  }

  /** The value of a string of decimal digits. */
  function DigitsValue(s: string): (v: nat)
    requires AllDigits(s)
    decreases |s|
  {
    if s == [] then 0
    else DigitsValue(s[..|s| - 1]) * 10 + (s[|s| - 1] as int - '0' as int)
  }

  /** `strconv.Atoi` on a 64-bit platform: an optional sign, one or more
      decimal digits, and a value that fits `int`; anything else is an
      error. */
  function Atoi(s: string): (r: Option<int>)
    ensures r.Some? ==> MinInt <= r.value <= MaxInt
    ensures s == [] ==> r.None?
  {
    if s == [] then None
    else
      var neg := s[0] == '-';
      var digits := if s[0] == '-' || s[0] == '+' then s[1..] else s;
      if digits == [] || !AllDigits(digits) then None
      else
        var v: int := if neg then -(DigitsValue(digits) as int) else DigitsValue(digits);
        if MinInt <= v <= MaxInt then Some(v) else None
  }

  /** The decimal digits of `n`, without leading zeros. */
  function Digits(n: nat): (s: string)
    ensures s != [] && AllDigits(s)
    decreases n
  {
    if n < 10 then [('0' as int + n) as char]
    else Digits(n / 10) + [('0' as int + n % 10) as char]
  }

  /** `strconv.Itoa`, the inverse the round trip uses. */
  function Itoa(n: int): string
  {
    if n < 0 then "-" + Digits(-n) else Digits(n)
  }

  lemma {:induction false} DigitsValueOfDigits(n: nat)
    ensures DigitsValue(Digits(n)) == n
    decreases n
  {
    if n >= 10 {
      DigitsValueOfDigits(n / 10);
      var s := Digits(n);
      assert s[..|s| - 1] == Digits(n / 10);
    }
  }

  /** Every `int` read back from its decimal form is itself. */
  lemma AtoiItoa(n: int)
    requires MinInt <= n <= MaxInt
    ensures Atoi(Itoa(n)) == Some(n)
  {
    var s := Itoa(n);
    if n < 0 {
      DigitsValueOfDigits(-n);
      assert s[0] == '-' && s[1..] == Digits(-n);
      assert DigitsValue(s[1..]) == -n;
    } else {
      DigitsValueOfDigits(n);
      assert IsDigit(s[0]);
    }
  }

  /** A string with a character other than a digit after the sign, or
      nothing after the sign, is refused. */
  lemma AtoiRefusesNonDigits(s: string, i: int)
    requires 0 <= i < |s| && !IsDigit(s[i]) && !(i == 0 && (s[0] == '-' || s[0] == '+'))
    ensures Atoi(s).None?
  {
    if s[0] == '-' || s[0] == '+' {
      assert s[1..][i - 1] == s[i];
    }
  }

  // ---------------------------------------------------------------------
  // time.Parse("2006-01-02", ...) (lines 116-122)
  // ---------------------------------------------------------------------

  datatype Date = Date(year: int, month: int, day: int)

  predicate IsLeap(year: int)
  {
    year % 4 == 0 && (year % 100 != 0 || year % 400 == 0)
  }

  function DaysIn(month: int, year: int): int
  {
    if month == 2 then (if IsLeap(year) then 29 else 28)
    else if month == 4 || month == 6 || month == 9 || month == 11 then 30
    else 31
  }

  /** A date the layout can write: a four-digit year and a real day. */
  predicate ValidDate(d: Date)
  {
    0 <= d.year <= 9999 && 1 <= d.month <= 12 && 1 <= d.day <= DaysIn(d.month, d.year)
  }

  /** `time.Parse` with the layout `2006-01-02`: four digits, `-`, two
      digits for a month in 1-12, `-`, two digits for a day within that
      month, and nothing after. */
  function ParseDate(s: string): (r: Option<Date>)
    ensures r.Some? ==> ValidDate(r.value)
  {
    if |s| == 10 && AllDigits(s[0..4]) && s[4] == '-' && AllDigits(s[5..7]) && s[7] == '-' && AllDigits(s[8..10]) then
      var d := Date(DigitsValue(s[0..4]), DigitsValue(s[5..7]), DigitsValue(s[8..10]));
      if ValidDate(d) then Some(d) else None
    else None
  }

  /** `n` written with exactly `width` digits. */
  function Pad(n: nat, width: nat): (s: string)
    ensures |s| == width && AllDigits(s)
    decreases width
  {
    if width == 0 then []
    else Pad(n / 10, width - 1) + [('0' as int + n % 10) as char]
  }

  lemma {:induction false} PadValue(n: nat, width: nat)
    requires n < Power10(width)
    ensures DigitsValue(Pad(n, width)) == n
    decreases width
  {
    if width > 0 {
      assert n / 10 < Power10(width - 1);
      PadValue(n / 10, width - 1);
      var s := Pad(n, width);
      assert s[..|s| - 1] == Pad(n / 10, width - 1);
    }
  }

  function Power10(k: nat): (p: nat)
    ensures p >= 1
  {
    if k == 0 then 1 else 10 * Power10(k - 1)
  }

  function FormatDate(d: Date): string
    requires ValidDate(d)
  {
    Pad(d.year, 4) + "-" + Pad(d.month, 2) + "-" + Pad(d.day, 2)
  }

  /** Every valid date written with the layout parses back to itself ... */
  lemma ParseFormat(d: Date)
    requires ValidDate(d)
    ensures ParseDate(FormatDate(d)) == Some(d)
  {
    assert Power10(4) == 10000 && Power10(2) == 100;
    PadValue(d.year, 4);
    PadValue(d.month, 2);
    PadValue(d.day, 2);
    DatePieces(Pad(d.year, 4), Pad(d.month, 2), Pad(d.day, 2));
  }

  lemma DatePieces(y: string, m: string, d: string)
    requires |y| == 4 && |m| == 2 && |d| == 2
    ensures var s := y + "-" + m + "-" + d;
      |s| == 10 && s[0..4] == y && s[4] == '-' && s[5..7] == m && s[7] == '-' && s[8..10] == d
  {
  }

  /** ... and every string the layout accepts is the written form of what it
      parses to. */
  lemma FormatParse(s: string)
    requires ParseDate(s).Some?
    ensures FormatDate(ParseDate(s).value) == s
  {
    var y, m, dd := s[0..4], s[5..7], s[8..10];
    var d := ParseDate(s).value;
    assert d == Date(DigitsValue(y), DigitsValue(m), DigitsValue(dd));
    PadOfValue(y);
    PadOfValue(m);
    PadOfValue(dd);
    SplitDate(s);
  }

  /** A ten-character `YYYY-MM-DD` string is its three pieces joined by dashes. */
  lemma SplitDate(s: string)
    requires |s| == 10 && s[4] == '-' && s[7] == '-'
    ensures s == s[0..4] + "-" + s[5..7] + "-" + s[8..10]
  {
    DatePieces(s[0..4], s[5..7], s[8..10]);
  }

  lemma {:induction false} PadOfValue(s: string)
    requires AllDigits(s)
    ensures Pad(DigitsValue(s), |s|) == s
    decreases |s|
  {
    if s != [] {
      var front := s[..|s| - 1];
      PadOfValue(front);
      var v := DigitsValue(s);
      assert v / 10 == DigitsValue(front) && v % 10 == s[|s| - 1] as int - '0' as int;
      assert s == front + [s[|s| - 1]];
    }
  }

  // ---------------------------------------------------------------------
  // The planning table, UpdatePlanning and GetPlannings
  // ---------------------------------------------------------------------

  /** A stored planning entry; `ceId`, `sectorId`, `employeeId` and
      `substituteId` are `*uint`. The `gorm.Model` timestamps are left out. */
  datatype Planning = Planning(id: nat, date: Date, week: int, year: int, shift: string,
                               ceId: Option<nat>, sectorId: Option<nat>, employeeId: Option<nat>,
                               status: string, substituteId: Option<nat>)

  /** The decoded body of `UpdatePlanning`; an absent field decodes to "" or 0. */
  datatype PlanningInput = PlanningInput(date: string, shift: string, sectorId: nat, employeeId: nat, status: string)

  datatype UpdateResponse = PlanningNotFound | InvalidDate | Saved(planning: Planning)

  datatype ListResponse = InvalidWeek | Listed(plannings: seq<Planning>)

  predicate IdsIncreasing(rows: seq<Planning>)
  {
    forall i, j :: 0 <= i < j < |rows| ==> rows[i].id < rows[j].id
  }

  function RowOf(rows: seq<Planning>, id: nat): (k: Option<nat>)
    ensures k.Some? ==> k.value < |rows| && rows[k.value].id == id
    ensures k.Some? ==> forall j :: 0 <= j < k.value ==> rows[j].id != id
    ensures k.None? <==> forall i :: 0 <= i < |rows| ==> rows[i].id != id
    decreases |rows|
  {
    if rows == [] then None
    else if rows[0].id == id then Some(0)
    else
      match RowOf(rows[1..], id)
      case None => None
      case Some(k) => Some(k + 1)
  }

  /** Lines 116-140 once the date, if given, has parsed to `date`: each
      non-empty, non-zero field overwrites the stored one. The zero check
      guards `SectorID` and `EmployeeID`, which the table stores as
      optional ids, so a given id is stored as present. */
  function MergePlanning(p: Planning, input: PlanningInput, date: Date): Planning
  {
    p.(date := if input.date != "" then date else p.date,
       shift := if input.shift != "" then input.shift else p.shift,
       sectorId := if input.sectorId != 0 then Some(input.sectorId) else p.sectorId,
       employeeId := if input.employeeId != 0 then Some(input.employeeId) else p.employeeId,
       status := if input.status != "" then input.status else p.status)
  }

  /** The response and the table after `UpdatePlanning`. */
  function UpdatePlanningSpec(rows: seq<Planning>, id: nat, input: PlanningInput): (r: (UpdateResponse, seq<Planning>))
    ensures |r.1| == |rows|
  {
    match RowOf(rows, id)
    case None => (PlanningNotFound, rows)
    case Some(k) =>
      var parsed := if input.date != "" then ParseDate(input.date) else Some(rows[k].date);
      if parsed.None? then (InvalidDate, rows)
      else
        var p := MergePlanning(rows[k], input, parsed.value);
        (Saved(p), rows[k := p])
  }

  /** Saving an entry over the row with its id keeps the ids increasing. */
  lemma SaveKeepsIds(rows: seq<Planning>, k: nat, p: Planning)
    requires IdsIncreasing(rows) && k < |rows| && p.id == rows[k].id
    ensures IdsIncreasing(rows[k := p])
  {
  }

  /** The stored plannings. */
  class PlanningStore {
    var rows: seq<Planning>

    ghost predicate Valid()
      reads this
    {
      IdsIncreasing(rows)
    }

    constructor (rows: seq<Planning>)
      requires IdsIncreasing(rows)
      ensures Valid() && this.rows == rows
    {
      this.rows := rows;
    }

    /** `UpdatePlanning`: the fields are overwritten one by one, then saved. */
    method UpdatePlanning(id: nat, input: PlanningInput) returns (resp: UpdateResponse)
      requires Valid()
      modifies this
      ensures Valid()
      ensures (resp, rows) == UpdatePlanningSpec(old(rows), id, input)
    {
      var found := RowOf(rows, id);
      if found.None? {
        return PlanningNotFound;
      }
      var k := found.value;
      var planning := rows[k];
      ghost var start := planning;
      if input.date != "" {
        var date := ParseDate(input.date);
        if date.None? {
          return InvalidDate;
        }
        planning := planning.(date := date.value);
      }
      if input.shift != "" {
        planning := planning.(shift := input.shift);
      }
      if input.sectorId != 0 {
        planning := planning.(sectorId := Some(input.sectorId));
      }
      if input.employeeId != 0 {
        planning := planning.(employeeId := Some(input.employeeId));
      }
      if input.status != "" {
        planning := planning.(status := input.status);
      }
      assert planning == MergePlanning(start, input, planning.date);
      SaveKeepsIds(rows, k, planning);
      rows := rows[k := planning];
      return Saved(planning);
    }

    /** `GetPlannings`: 400 for a `week` that is not an integer, otherwise
        the entries of that week in table order. */
    function GetPlannings(weekStr: string): (r: ListResponse)
      reads this
      ensures r.InvalidWeek? <==> Atoi(weekStr).None?
      ensures r.Listed? ==> IsSubsequence(r.plannings, rows)
      ensures r.Listed? ==> forall p :: p in r.plannings <==> p in rows && p.week == Atoi(weekStr).value
    {
      match Atoi(weekStr)
      case None => InvalidWeek
      case Some(week) =>
        var keep := (p: Planning) => p.week == week;
        FilterIsSubsequence(rows, keep);
        assert forall p :: p in Filter(rows, keep) <==> p in rows && p.week == week by {
          forall p ensures p in Filter(rows, keep) <==> p in rows && p.week == week {
            FilterMembership(rows, keep, p);
          }
        }
        Listed(Filter(rows, keep))
    }
  }

  /** An unknown id gives 404 and nothing is saved. */
  lemma PlanningNotFoundIff(rows: seq<Planning>, id: nat, input: PlanningInput)
    ensures UpdatePlanningSpec(rows, id, input).0 == PlanningNotFound <==> forall i :: 0 <= i < |rows| ==> rows[i].id != id
    ensures UpdatePlanningSpec(rows, id, input).0 == PlanningNotFound ==> UpdatePlanningSpec(rows, id, input).1 == rows
  {
  }

  /** A given date that does not parse gives 400 before anything is saved. */
  lemma InvalidDateIff(rows: seq<Planning>, id: nat, input: PlanningInput)
    ensures UpdatePlanningSpec(rows, id, input).0 == InvalidDate <==>
      RowOf(rows, id).Some? && input.date != "" && ParseDate(input.date).None?
    ensures UpdatePlanningSpec(rows, id, input).0 == InvalidDate ==> UpdatePlanningSpec(rows, id, input).1 == rows
  {
  }

  /** A saved entry takes every non-empty, non-zero field of the input and
      keeps the stored value of the others; no other entry changes, and the
      stored week and year are left as they were even when the date moves. */
  lemma SavedFields(rows: seq<Planning>, id: nat, input: PlanningInput, k: nat)
    requires RowOf(rows, id) == Some(k) && UpdatePlanningSpec(rows, id, input).0.Saved?
    ensures var p := UpdatePlanningSpec(rows, id, input).0.planning;
      && UpdatePlanningSpec(rows, id, input).1 == rows[k := p]
      && p.id == id && p.week == rows[k].week && p.year == rows[k].year
      && p.ceId == rows[k].ceId && p.substituteId == rows[k].substituteId
      && (input.date == "" ==> p.date == rows[k].date)
      && (input.date != "" ==> Some(p.date) == ParseDate(input.date))
      && p.shift == (if input.shift == "" then rows[k].shift else input.shift)
      && p.sectorId == (if input.sectorId == 0 then rows[k].sectorId else Some(input.sectorId))
      && p.employeeId == (if input.employeeId == 0 then rows[k].employeeId else Some(input.employeeId))
      && p.status == (if input.status == "" then rows[k].status else input.status)
  {
  }

  lemma {:induction false} RowOfSameIds(a: seq<Planning>, b: seq<Planning>, id: nat)
    requires |a| == |b| && forall i :: 0 <= i < |a| ==> a[i].id == b[i].id
    ensures RowOf(a, id) == RowOf(b, id)
    decreases |a|
  {
    if a != [] {
      RowOfSameIds(a[1..], b[1..], id);
    }
  }

  /** Sending the same update twice leaves every modelled column of the table
      as sending it once (the `UpdatedAt` timestamp is not modelled). */
  lemma UpdateIdempotent(rows: seq<Planning>, id: nat, input: PlanningInput)
    ensures var once := UpdatePlanningSpec(rows, id, input);
      UpdatePlanningSpec(once.1, id, input) == (once.0, once.1)
  {
    var once := UpdatePlanningSpec(rows, id, input);
    match RowOf(rows, id)
    case None =>
    case Some(k) =>
      if once.0.Saved? {
        RowOfSameIds(rows, once.1, id);
        var p := once.0.planning;
        assert once.1[k] == p;
        var parsed := if input.date != "" then ParseDate(input.date) else Some(p.date);
        assert parsed.Some? && MergePlanning(p, input, parsed.value) == p;
        assert once.1[k := p] == once.1;
      }
  }
}
