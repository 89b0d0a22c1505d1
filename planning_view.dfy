/**
 The week view of `hager-gui/src/components/Planning.tsx`: who is competent
 for a sector, the sector-to-required-skills grouping, the fixed row layout of
 the week table and the merge of the week's planning entries into it, and the
 list of substitutes offered when an employee is marked absent.
 */
module PlanningView {
  import opened Base
  import opened Shift

  /** An `{ id, name }` reference (sector, employee, CE, substitute, skill). */
  datatype Ref = Ref(id: int, name: string)

  /** A planning entry of the week as the server returns it; the entry's date
      and week are not read by the logic modelled here. */
  datatype PlanningEntry = PlanningEntry(
    id: int, day: string, shift: string, status: string,
    sector: Option<Ref>, employee: Option<Ref>, ce: Option<Ref>, substitute: Option<Ref>)

  /** An employee; `Skills` may be missing. */
  datatype Employee = Employee(id: int, name: string, ceId: int, sectorId: int, skills: Option<seq<Ref>>)

  /** One `{ sector_id, skill_id }` row of `/sector_required_skills`. */
  datatype SkillRequirement = SkillRequirement(sectorId: int, skillId: int)

  /** A CE cell: the CE spread together with the entry's status. */
  datatype CeCell = CeCell(ce: Ref, status: string)

  /** A sector cell of a row: the bare `{ id }` when no entry is for the
      sector, otherwise the entry's employee, status, id and substitute. */
  datatype SectorCell =
    | Bare(id: int)
    | Filled(id: int, employee: Option<Ref>, status: string, planningId: int, substitute: Option<Ref>)

  /** A row of the week table. */
  datatype Row = Row(
    day: string, shift: string, key: string, className: string,
    ce: Option<CeCell>, planningId: Option<int>, sectors: seq<SectorCell>)

  const Days: seq<string> := ["Lu", "Ma", "Me", "Je", "Ve", "Sa", "Di"]
  const Shifts: seq<string> := ["M", "S", "N"]

  // ---------------------------------------------------------------------
  // Competence
  // ---------------------------------------------------------------------

  /** `employee.Skills?.map(skill => skill.id) || []`. */
  function SkillIds(e: Employee): (ids: seq<int>)
    ensures e.skills.None? ==> ids == []
    ensures e.skills.Some? ==> |ids| == |e.skills.value|
  {
    if e.skills.None? then [] else seq(|e.skills.value|, i requires 0 <= i < |e.skills.value| => e.skills.value[i].id)
  }

  /** `sectorRequiredSkills[sectorId] || []`. */
  function RequiredOf(required: map<int, seq<int>>, sectorId: int): seq<int>
  {
    if sectorId in required then required[sectorId] else []
  }

  /** Some skill id of `e` is among the sector's required skill ids. */
  predicate SharesSkill(required: map<int, seq<int>>, e: Employee, sectorId: int)
  {
    exists s :: s in SkillIds(e) && s in RequiredOf(required, sectorId)
  }

  /** `isEmployeeCompetent(employee, sectorId)`: an absent employee or a falsy
      sector id (missing or 0) is never competent; otherwise some skill id of
      the employee must be among the sector's required skill ids. */
  function IsEmployeeCompetent(required: map<int, seq<int>>, employee: Option<Employee>, sectorId: Option<int>): (b: bool)
    ensures b <==> employee.Some? && sectorId.Some? && sectorId.value != 0 &&
                   SharesSkill(required, employee.value, sectorId.value)
  {
    if employee.None? || sectorId.None? || sectorId.value == 0 then false
    else
      var ids := SkillIds(employee.value);
      var employeeSkills := set s | s in ids;
      var requiredSkills := set s | s in RequiredOf(required, sectorId.value);
      var b := |employeeSkills| > 0 && |requiredSkills| > 0 && Any(ids, s => s in requiredSkills);
      assert b <==> exists s :: s in ids && s in requiredSkills by {
        if exists s :: s in ids && s in requiredSkills {
          var s :| s in ids && s in requiredSkills;
          assert s in employeeSkills;
          var i :| 0 <= i < |ids| && ids[i] == s;
          assert (s => s in requiredSkills)(ids[i]);
        }
      }
      b
  }

  /** An employee without skills, or a sector that requires none, never
      qualifies. */
  lemma NoSkillsNoCompetence(required: map<int, seq<int>>, e: Employee, sectorId: int)
    requires e.skills.None? || e.skills == Some([]) || RequiredOf(required, sectorId) == []
    ensures !IsEmployeeCompetent(required, Some(e), Some(sectorId))
  {
  }

  // ---------------------------------------------------------------------
  // Skills by sector
  // ---------------------------------------------------------------------

  /** The skill ids the items list for sector `k`, in input order. */
  function SkillsOf(items: seq<SkillRequirement>, k: int): seq<int>
    decreases |items|
  {
    if items == [] then []
    else
      var last := items[|items| - 1];
      SkillsOf(items[..|items| - 1], k) + (if last.sectorId == k then [last.skillId] else [])
  }

  /** The sectors some item names. */
  function SectorsNamed(items: seq<SkillRequirement>): set<int>
  {
    set i | 0 <= i < |items| :: items[i].sectorId
  }

  /** The `reduce` at lines 134-140: each item's skill is pushed onto its
      sector's list, creating the list on its sector's first item. */
  method GroupSkillsBySector(items: seq<SkillRequirement>) returns (acc: map<int, seq<int>>)
    ensures acc.Keys == SectorsNamed(items)
    ensures forall k :: k in acc ==> acc[k] == SkillsOf(items, k)
  {
    acc := map[];
    var n := 0;
    while n < |items|
      invariant 0 <= n <= |items|
      invariant acc.Keys == SectorsNamed(items[..n])
      invariant forall k :: k in acc ==> acc[k] == SkillsOf(items[..n], k)
    {
      var item := items[n];
      if item.sectorId !in acc {
        acc := acc[item.sectorId := []];
      }
      acc := acc[item.sectorId := acc[item.sectorId] + [item.skillId]];
      assert items[..n + 1][..n] == items[..n];
      assert items[..n + 1][n] == item;
      if item.sectorId !in SectorsNamed(items[..n]) {
        SkillsOfUnnamed(items[..n], item.sectorId);
      }
      assert acc[item.sectorId] == SkillsOf(items[..n + 1], item.sectorId);
      assert SectorsNamed(items[..n + 1]) == SectorsNamed(items[..n]) + {item.sectorId} by {
        assert forall i :: 0 <= i < n + 1 ==> items[..n + 1][i] == items[i];
      }
      forall k | k !in acc ensures SkillsOf(items[..n + 1], k) == [] {
        assert k !in SectorsNamed(items[..n]);
        SkillsOfUnnamed(items[..n], k);
      }
      n := n + 1;
    }
    assert items[..n] == items;
  }

  /** A sector no item names gets no skills. */
  lemma {:induction false} SkillsOfUnnamed(items: seq<SkillRequirement>, k: int)
    requires k !in SectorsNamed(items)
    ensures SkillsOf(items, k) == []
    decreases |items|
  {
    if items != [] {
      var front := items[..|items| - 1];
      assert SectorsNamed(front) <= SectorsNamed(items) by {
        forall x | x in SectorsNamed(front) ensures x in SectorsNamed(items) {
          var i :| 0 <= i < |front| && front[i].sectorId == x;
          assert items[i] == front[i];
        }
      }
      SkillsOfUnnamed(front, k);
      assert items[|items| - 1].sectorId in SectorsNamed(items);
    }
  }

  /** A skill is listed for sector `k` exactly when some item pairs it with `k`. */
  lemma {:induction false} SkillsOfMembership(items: seq<SkillRequirement>, k: int, skill: int)
    ensures skill in SkillsOf(items, k) <==> SkillRequirement(k, skill) in items
    decreases |items|
  {
    if items != [] {
      var front := items[..|items| - 1];
      SkillsOfMembership(front, k, skill);
      assert items == front + [items[|items| - 1]];
    }
  }

  // ---------------------------------------------------------------------
  // Row layout
  // ---------------------------------------------------------------------

  function Blank(day: string, shift: string, key: string, className: string): Row
  {
    Row(day, shift, key, className, None, None, [])
  }

  /** The `even-day`/`odd-day` class of the day at `index` in `DAYS`. */
  function Parity(index: int): string
  {
    if index % 2 == 0 then "even-day" else "odd-day"
  }

  /** The rows one day contributes to the `flatMap` at lines 601-632. */
  function DayRows(day: string, index: int): seq<Row>
  {
    if day == "Sa" then
      [Blank("Sa", "M", "Sa-M", Parity(index) + " Sa-row"), Blank("VSD", "VSD", "VSD", "vsd-row")]
    else if day == "Di" then
      [Blank("Di", "N", "Di-N", Parity(index) + " Di-row")]
    else
      seq(|Shifts|, k requires 0 <= k < |Shifts| =>
        Blank(day, Shifts[k], day + "-" + Shifts[k], Parity(index) + " " + day + "-row"))
  }

  function FlatRows(days: seq<string>, from: int): seq<Row>
    decreases |days|
  {
    if days == [] then [] else DayRows(days[0], from) + FlatRows(days[1..], from + 1)
  }

  /** The blank week table before the entries are merged in. */
  function Layout(): seq<Row>
  {
    FlatRows(Days, 0)
  }

  /** Five weekdays of three shifts, then `Sa-M`, the `VSD` row and `Di-N`:
      eighteen rows, alternating even and odd by day. */
  lemma LayoutRows()
    ensures Layout() == [
      Blank("Lu", "M", "Lu-M", "even-day Lu-row"), Blank("Lu", "S", "Lu-S", "even-day Lu-row"),
      Blank("Lu", "N", "Lu-N", "even-day Lu-row"),
      Blank("Ma", "M", "Ma-M", "odd-day Ma-row"), Blank("Ma", "S", "Ma-S", "odd-day Ma-row"),
      Blank("Ma", "N", "Ma-N", "odd-day Ma-row"),
      Blank("Me", "M", "Me-M", "even-day Me-row"), Blank("Me", "S", "Me-S", "even-day Me-row"),
      Blank("Me", "N", "Me-N", "even-day Me-row"),
      Blank("Je", "M", "Je-M", "odd-day Je-row"), Blank("Je", "S", "Je-S", "odd-day Je-row"),
      Blank("Je", "N", "Je-N", "odd-day Je-row"),
      Blank("Ve", "M", "Ve-M", "even-day Ve-row"), Blank("Ve", "S", "Ve-S", "even-day Ve-row"),
      Blank("Ve", "N", "Ve-N", "even-day Ve-row"),
      Blank("Sa", "M", "Sa-M", "odd-day Sa-row"), Blank("VSD", "VSD", "VSD", "vsd-row"),
      Blank("Di", "N", "Di-N", "even-day Di-row")]
  {
    assert Layout() == DayRows("Lu", 0) + DayRows("Ma", 1) + DayRows("Me", 2) + DayRows("Je", 3)
      + DayRows("Ve", 4) + DayRows("Sa", 5) + DayRows("Di", 6);
    RowsLu();
    RowsMa();
    RowsMe();
    RowsJe();
    RowsVe();
    RowsSa();
    RowsDi();
  }

  lemma RowsLu()
    ensures DayRows("Lu", 0) == [Blank("Lu", "M", "Lu-M", "even-day Lu-row"),
      Blank("Lu", "S", "Lu-S", "even-day Lu-row"), Blank("Lu", "N", "Lu-N", "even-day Lu-row")]
  {
    WeekdayRows("Lu", 0);
    assert Parity(0) == "even-day";
    assert "Lu" + "-M" == "Lu-M" && "Lu" + "-S" == "Lu-S" && "Lu" + "-N" == "Lu-N";
    assert "even-day" + " " + "Lu" + "-row" == "even-day Lu-row";
  }

  lemma RowsMa()
    ensures DayRows("Ma", 1) == [Blank("Ma", "M", "Ma-M", "odd-day Ma-row"),
      Blank("Ma", "S", "Ma-S", "odd-day Ma-row"), Blank("Ma", "N", "Ma-N", "odd-day Ma-row")]
  {
    WeekdayRows("Ma", 1);
    assert Parity(1) == "odd-day";
    assert "Ma" + "-M" == "Ma-M" && "Ma" + "-S" == "Ma-S" && "Ma" + "-N" == "Ma-N";
    assert "odd-day" + " " + "Ma" + "-row" == "odd-day Ma-row";
  }

  lemma RowsMe()
    ensures DayRows("Me", 2) == [Blank("Me", "M", "Me-M", "even-day Me-row"),
      Blank("Me", "S", "Me-S", "even-day Me-row"), Blank("Me", "N", "Me-N", "even-day Me-row")]
  {
    WeekdayRows("Me", 2);
    assert Parity(2) == "even-day";
    assert "Me" + "-M" == "Me-M" && "Me" + "-S" == "Me-S" && "Me" + "-N" == "Me-N";
    assert "even-day" + " " + "Me" + "-row" == "even-day Me-row";
  }

  lemma RowsJe()
    ensures DayRows("Je", 3) == [Blank("Je", "M", "Je-M", "odd-day Je-row"),
      Blank("Je", "S", "Je-S", "odd-day Je-row"), Blank("Je", "N", "Je-N", "odd-day Je-row")]
  {
    WeekdayRows("Je", 3);
    assert Parity(3) == "odd-day";
    assert "Je" + "-M" == "Je-M" && "Je" + "-S" == "Je-S" && "Je" + "-N" == "Je-N";
    assert "odd-day" + " " + "Je" + "-row" == "odd-day Je-row";
  }

  lemma RowsVe()
    ensures DayRows("Ve", 4) == [Blank("Ve", "M", "Ve-M", "even-day Ve-row"),
      Blank("Ve", "S", "Ve-S", "even-day Ve-row"), Blank("Ve", "N", "Ve-N", "even-day Ve-row")]
  {
    WeekdayRows("Ve", 4);
    assert Parity(4) == "even-day";
    assert "Ve" + "-M" == "Ve-M" && "Ve" + "-S" == "Ve-S" && "Ve" + "-N" == "Ve-N";
    assert "even-day" + " " + "Ve" + "-row" == "even-day Ve-row";
  }

  lemma RowsSa()
    ensures DayRows("Sa", 5) == [Blank("Sa", "M", "Sa-M", "odd-day Sa-row"), Blank("VSD", "VSD", "VSD", "vsd-row")]
  {
    assert Parity(5) == "odd-day";
    assert "odd-day" + " Sa-row" == "odd-day Sa-row";
  }

  lemma RowsDi()
    ensures DayRows("Di", 6) == [Blank("Di", "N", "Di-N", "even-day Di-row")]
  {
    assert Parity(6) == "even-day";
    assert "even-day" + " Di-row" == "even-day Di-row";
  }

  /** A weekday contributes its three shifts in the order `M`, `S`, `N`. */
  lemma WeekdayRows(day: string, index: int)
    requires day != "Sa" && day != "Di"
    ensures DayRows(day, index) == [
      Blank(day, "M", day + "-M", Parity(index) + " " + day + "-row"),
      Blank(day, "S", day + "-S", Parity(index) + " " + day + "-row"),
      Blank(day, "N", day + "-N", Parity(index) + " " + day + "-row")]
  {
    assert Shifts[0] == "M" && Shifts[1] == "S" && Shifts[2] == "N";
    assert day + "-" + "M" == day + "-M";
    assert day + "-" + "S" == day + "-S";
    assert day + "-" + "N" == day + "-N";
  }

  /** The row keys, in table order. */
  const LayoutKeys: seq<string> := ["Lu-M", "Lu-S", "Lu-N", "Ma-M", "Ma-S", "Ma-N", "Me-M", "Me-S", "Me-N",
    "Je-M", "Je-S", "Je-N", "Ve-M", "Ve-S", "Ve-N", "Sa-M", "VSD", "Di-N"]

  /** The row keys are distinct, as the table requires. */
  lemma LayoutKeysDistinct()
    ensures |Layout()| == 18
    ensures forall i :: 0 <= i < 18 ==> Layout()[i].key == LayoutKeys[i]
    ensures forall i, j :: 0 <= i < j < |Layout()| ==> Layout()[i].key != Layout()[j].key
  {
    LayoutRows();
    KeyCodesDistinct();
  }

  lemma KeyCodesDistinct()
    ensures forall i, j :: 0 <= i < j < |LayoutKeys| ==> KeyCode(LayoutKeys[i]) != KeyCode(LayoutKeys[j])
  {
  }

  /** The first two letters and the shift letter of a key, as one number. */
  function KeyCode(k: string): int
  {
    if |k| >= 4 then (k[0] as int * 256 + k[1] as int) * 256 + k[3] as int
    else if |k| >= 2 then (k[0] as int * 256 + k[1] as int) * 256
    else 0
  }

  // ---------------------------------------------------------------------
  // Merging the week's entries into the rows
  // ---------------------------------------------------------------------

  /** `entry => entry.day === row.day && entry.shift === row.shift`. */
  function SameSlot(row: Row): PlanningEntry -> bool
  {
    (e: PlanningEntry) => e.day == row.day && e.shift == row.shift
  }

  /** `entry => entry.ce`. */
  function HasCe(): PlanningEntry -> bool
  {
    (e: PlanningEntry) => e.ce.Some?
  }

  /** `entry => entry.sector && entry.sector.id === sectorId`. */
  function ForSector(sectorId: int): PlanningEntry -> bool
  {
    (e: PlanningEntry) => e.sector.Some? && e.sector.value.id == sectorId
  }

  /** `dayShiftData`: the entries for the row's day and shift. */
  function Matching(planningData: seq<PlanningEntry>, row: Row): seq<PlanningEntry>
  {
    Filter(planningData, SameSlot(row))
  }

  function FilledFrom(sectorId: int, e: PlanningEntry): SectorCell
  {
    Filled(sectorId, e.employee, e.status, e.id, e.substitute)
  }

  /** The sector cell of one row: filled from the first entry for the sector,
      bare when there is none. */
  function CellFor(sector: Ref, dayShiftData: seq<PlanningEntry>): (c: SectorCell)
    ensures c.id == sector.id
    ensures c.Filled? <==> exists i :: 0 <= i < |dayShiftData| && ForSector(sector.id)(dayShiftData[i])
    ensures c.Filled? ==>
      exists i :: FirstPassing(dayShiftData, ForSector(sector.id), i) && c == FilledFrom(sector.id, dayShiftData[i])
  {
    match Find(dayShiftData, ForSector(sector.id))
    case None => Bare(sector.id)
    case Some(e) => FilledFrom(sector.id, e)
  }

  /** What the `map` at lines 633-660 makes of one row. */
  predicate Merged(row: Row, out: Row, planningData: seq<PlanningEntry>, sectors: seq<Ref>)
  {
    var m := Matching(planningData, row);
    var ceEntry := Find(m, HasCe());
    && out.day == row.day && out.shift == row.shift && out.key == row.key && out.className == row.className
    && (m == [] ==> out == row)
    && (m != [] && ceEntry.None? ==> out.ce == row.ce && out.planningId == row.planningId)
    && (m != [] && ceEntry.Some? ==>
         out.ce == Some(CeCell(ceEntry.value.ce.value, ceEntry.value.status)) &&
         out.planningId == Some(ceEntry.value.id))
    && (m != [] ==>
         |out.sectors| == |sectors| &&
         forall j :: 0 <= j < |sectors| ==> out.sectors[j] == CellFor(sectors[j], m))
  }

  /** The `.map(row => ...)` at lines 633-660, which fills each new row in place. */
  method MergeRows(rows: seq<Row>, planningData: seq<PlanningEntry>, sectors: seq<Ref>) returns (data: seq<Row>)
    ensures |data| == |rows|
    ensures forall k :: 0 <= k < |rows| ==> Merged(rows[k], data[k], planningData, sectors)
  {
    data := [];
    var n := 0;
    while n < |rows|
      invariant 0 <= n <= |rows| && |data| == n
      invariant forall k :: 0 <= k < n ==> Merged(rows[k], data[k], planningData, sectors)
    {
      var row := rows[n];
      var dayShiftData := Matching(planningData, row);
      if |dayShiftData| > 0 {
        var ceEntry := Find(dayShiftData, HasCe());
        if ceEntry.Some? {
          row := row.(ce := Some(CeCell(ceEntry.value.ce.value, ceEntry.value.status)),
                      planningId := Some(ceEntry.value.id));
        }
        row := row.(sectors := seq(|sectors|, j requires 0 <= j < |sectors| => CellFor(sectors[j], dayShiftData)));
      }
      data := data + [row];
      n := n + 1;
    }
  }

  /** The row's CE comes from the first entry of the week, in server order,
      that is for the row's day and shift and has a CE. */
  lemma CeFromFirstEntry(row: Row, out: Row, planningData: seq<PlanningEntry>, sectors: seq<Ref>, i: int)
    requires Merged(row, out, planningData, sectors)
    requires 0 <= i < |planningData| && SameSlot(row)(planningData[i]) && HasCe()(planningData[i])
    requires forall j :: 0 <= j < i ==> !(SameSlot(row)(planningData[j]) && HasCe()(planningData[j]))
    ensures out.ce == Some(CeCell(planningData[i].ce.value, planningData[i].status))
    ensures out.planningId == Some(planningData[i].id)
  {
    FindInFilter(planningData, SameSlot(row), HasCe(), i);
    FilterMembership(planningData, SameSlot(row), planningData[i]);
  }

  /** A row none of whose entries has a CE keeps the CE it had. */
  lemma CeUnsetWithoutCeEntry(row: Row, out: Row, planningData: seq<PlanningEntry>, sectors: seq<Ref>)
    requires Merged(row, out, planningData, sectors)
    requires forall j :: 0 <= j < |planningData| ==> !(SameSlot(row)(planningData[j]) && HasCe()(planningData[j]))
    ensures out.ce == row.ce && out.planningId == row.planningId
  {
    FindInFilterNone(planningData, SameSlot(row), HasCe());
  }

  /** A sector cell carries an entry exactly when some entry of the week is
      for the row's day and shift and this sector. */
  lemma CellFilledIff(row: Row, out: Row, planningData: seq<PlanningEntry>, sectors: seq<Ref>, j: int)
    requires Merged(row, out, planningData, sectors) && Matching(planningData, row) != []
    requires 0 <= j < |sectors|
    ensures out.sectors[j].id == sectors[j].id
    ensures out.sectors[j].Filled? <==>
      exists e :: e in planningData && SameSlot(row)(e) && ForSector(sectors[j].id)(e)
  {
    var m := Matching(planningData, row);
    forall e ensures e in m <==> e in planningData && SameSlot(row)(e) {
      FilterMembership(planningData, SameSlot(row), e);
    }
  }

  /** Rows of the blank layout that no entry matches stay blank: no CE and
      no sector cells. */
  lemma UnmatchedRowStaysBlank(row: Row, out: Row, planningData: seq<PlanningEntry>, sectors: seq<Ref>)
    requires row in Layout() && Merged(row, out, planningData, sectors)
    requires forall e :: e in planningData ==> !SameSlot(row)(e)
    ensures out.sectors == [] && out.ce.None? && out.planningId.None?
  {
    FlatRowsBlank(Days, 0);
    FilterKeepsNone(planningData, SameSlot(row));
  }

  /** Every row of the layout starts with no CE, no planning id and no cells. */
  lemma {:induction false} FlatRowsBlank(days: seq<string>, from: int)
    ensures forall r :: r in FlatRows(days, from) ==> r.sectors == [] && r.ce.None? && r.planningId.None?
    decreases |days|
  {
    if days != [] {
      FlatRowsBlank(days[1..], from + 1);
    }
  }

  // ---------------------------------------------------------------------
  // Substitutes
  // ---------------------------------------------------------------------

  /** What `handleStatusChange` does: a direct status update, nothing (no
      entry with that id), or a choice among substitute candidates. */
  datatype StatusAction =
    | DirectUpdate(planningId: int, status: string)
    | NoEntry
    | ChooseSubstitute(candidates: seq<Employee>)

  /** The statuses that ask for a substitute. */
  predicate NeedsSubstitute(status: string)
  {
    status == "Absent (Planned)" || status == "Absent (Unplanned)" || status == "Training"
  }

  /** `emp` may stand in for the employee `ownId` on sector `sectorId`. */
  predicate IsCandidate(required: map<int, seq<int>>, emp: Employee, sectorId: int, ownId: int)
  {
    IsEmployeeCompetent(required, Some(emp), Some(sectorId)) && emp.id != ownId
  }

  predicate SomeCompetent(required: map<int, seq<int>>, employees: seq<Employee>, sectorId: int)
  {
    exists i :: 0 <= i < |employees| && IsEmployeeCompetent(required, Some(employees[i]), Some(sectorId))
  }

  /** `entry => entry.id === planningId`. */
  function IdIs(planningId: int): PlanningEntry -> bool
  {
    (e: PlanningEntry) => e.id == planningId
  }

  /** Each of `candidates` is an employee competent for the entry's sector
      other than the entry's own employee. */
  predicate OnlyCandidates(required: map<int, seq<int>>, candidates: seq<Employee>, employees: seq<Employee>,
                           entry: PlanningEntry)
  {
    forall c :: c in candidates ==>
      c in employees && entry.sector.Some? && entry.employee.Some? &&
      IsCandidate(required, c, entry.sector.value.id, entry.employee.value.id)
  }

  /** The `filter` at lines 257-259. Reading `id` of a missing sector throws
      for the first employee looked at; reading `id` of a missing employee
      throws for the first competent one. */
  function SubstituteCandidates(required: map<int, seq<int>>, employees: seq<Employee>,
                                sector: Option<Ref>, own: Option<Ref>): (r: Outcome<seq<Employee>>)
    ensures r.Thrown? <==>
      (employees != [] && sector.None?) ||
      (sector.Some? && own.None? && SomeCompetent(required, employees, sector.value.id))
    ensures r.Done? && (sector.None? || own.None?) ==> r.value == []
    ensures r.Done? && sector.Some? && own.Some? ==>
      forall e :: e in r.value <==> e in employees && IsCandidate(required, e, sector.value.id, own.value.id)
    ensures r.Done? ==> IsSubsequence(r.value, employees)
    decreases |employees|
  {
    if employees == [] then Done([])
    else if sector.None? then Thrown
    else
      var emp := employees[0];
      var competent := IsEmployeeCompetent(required, Some(emp), Some(sector.value.id));
      if competent && own.None? then Thrown
      else
        var rest := SubstituteCandidates(required, employees[1..], sector, own);
        assert forall e :: e in employees <==> e == emp || e in employees[1..];
        if rest.Thrown? then
          assert own.None? ==> SomeCompetent(required, employees, sector.value.id) by {
            if own.None? {
              var i :| 0 <= i < |employees[1..]| &&
                IsEmployeeCompetent(required, Some(employees[1..][i]), Some(sector.value.id));
              assert employees[i + 1] == employees[1..][i];
              assert IsEmployeeCompetent(required, Some(employees[i + 1]), Some(sector.value.id));
            }
          }
          Thrown
        else if competent && emp.id != own.value.id then
          assert ([emp] + rest.value)[1..] == rest.value;
          Done([emp] + rest.value)
        else
          assert own.None? ==> forall i :: 0 <= i < |employees| ==>
            !IsEmployeeCompetent(required, Some(employees[i]), Some(sector.value.id)) by {
            if own.None? {
              forall i | 0 <= i < |employees|
                ensures !IsEmployeeCompetent(required, Some(employees[i]), Some(sector.value.id)) {
                if i > 0 { assert employees[i] == employees[1..][i - 1]; }
              }
            }
          }
          rest
  }

  /** `handleStatusChange(planningId, newStatus)` up to the confirmation
      dialog or the update request. */
  function HandleStatusChange(required: map<int, seq<int>>, planningData: seq<PlanningEntry>,
                              employees: seq<Employee>, planningId: int, newStatus: string): (r: Outcome<StatusAction>)
    ensures !NeedsSubstitute(newStatus) <==> r == Done(DirectUpdate(planningId, newStatus))
    ensures r == Done(NoEntry) <==>
      NeedsSubstitute(newStatus) && forall i :: 0 <= i < |planningData| ==> planningData[i].id != planningId
  {
    if !NeedsSubstitute(newStatus) then Done(DirectUpdate(planningId, newStatus))
    else
      match Find(planningData, IdIs(planningId))
      case None => Done(NoEntry)
      case Some(entry) =>
        match SubstituteCandidates(required, employees, entry.sector, entry.employee)
        case Thrown => Thrown
        case Done(candidates) => Done(ChooseSubstitute(candidates))
  }

  /** Every offered substitute is competent for the entry's sector and is
      not the entry's own employee. */
  lemma CandidatesCompetentAndOthers(required: map<int, seq<int>>, planningData: seq<PlanningEntry>,
                                     employees: seq<Employee>, planningId: int, newStatus: string)
    requires HandleStatusChange(required, planningData, employees, planningId, newStatus).Done?
    requires HandleStatusChange(required, planningData, employees, planningId, newStatus).value.ChooseSubstitute?
    ensures var cands := HandleStatusChange(required, planningData, employees, planningId, newStatus).value.candidates;
            exists i :: FirstPassing(planningData, IdIs(planningId), i) &&
                        OnlyCandidates(required, cands, employees, planningData[i])
  {
    var entry := Find(planningData, IdIs(planningId)).value;
    var i :| FirstPassing(planningData, IdIs(planningId), i) && planningData[i] == entry;
    var r := SubstituteCandidates(required, employees, entry.sector, entry.employee);
    if entry.sector.None? || entry.employee.None? {
      assert r.value == [];
    }
  }

  // ---------------------------------------------------------------------
  // Day names in `handleAddCE`
  // ---------------------------------------------------------------------

  /** The English key a schedule uses for a weekday. */
  function EnglishName(d: Day): string
  {
    match d
    case Mo => "Mo" case Tu => "Tu" case We => "We" case Th => "Th"
    case Fr => "Fr" case Sa => "Sa" case Su => "Su"
  }

  /** `frenchToEnglishDay[f]`. */
  function FrenchToEnglish(f: string): Option<string>
  {
    if f == "Lu" then Some("Mo")
    else if f == "Ma" then Some("Tu")
    else if f == "Me" then Some("We")
    else if f == "Je" then Some("Th")
    else if f == "Ve" then Some("Fr")
    else if f == "Sa" then Some("Sa")
    else if f == "Di" then Some("Su")
    else None
  }

  /** The French name `DAYS` uses for a weekday: the inverse of
      `frenchToEnglishDay`. */
  function FrenchName(d: Day): string
  {
    match d
    case Mo => "Lu" case Tu => "Ma" case We => "Me" case Th => "Je"
    case Fr => "Ve" case Sa => "Sa" case Su => "Di"
  }

  /** `frenchToEnglishDay` takes each French name back to the English one. */
  lemma FrenchNameTranslates(d: Day)
    ensures FrenchToEnglish(FrenchName(d)) == Some(EnglishName(d))
  {
  }

  /** As written: `DAYS.indexOf(scheduleDay)` with the schedule's English key
      (lines 196-197 and 332). */
  function DayOffsetAsWritten(d: Day): int
  {
    IndexOf(Days, EnglishName(d))
  }

  /** Only Saturday, spelt the same in both languages, is found; every other
      day gives -1, one day before the start of the week. */
  lemma DayOffsetAsWrittenMisses(d: Day)
    ensures DayOffsetAsWritten(d) == (if d == Sa then 5 else -1)
  {
    var n := EnglishName(d);
    if d == Sa {
      forall j | 0 <= j < 5 ensures Days[j] != "Sa" {
        assert Days[j][0] != 'S';
      }
      IndexOfIs(Days, n, 5);
    } else {
      forall j | 0 <= j < |Days| ensures Days[j] != n {
        assert Days[j][0] != n[0] || Days[j][1] != n[1];
      }
    }
  }

  /** Corrected: the schedule's day translated to the French name first. */
  function DayOffset(d: Day): (i: int)
    ensures 0 <= i < 7 && Days[i] == FrenchName(d)
  {
    IndexOf(Days, FrenchName(d))
  }

  /** Monday 0 through Sunday 6. */
  function DayNumber(d: Day): int
  {
    match d
    case Mo => 0 case Tu => 1 case We => 2 case Th => 3 case Fr => 4 case Sa => 5 case Su => 6
  }

  /** The corrected offsets are Monday 0 through Sunday 6, one per day. */
  lemma DayOffsetsInOrder(d: Day)
    ensures DayOffset(d) == DayNumber(d)
  {
    var k := DayNumber(d);
    forall j | 0 <= j < k ensures Days[j] != FrenchName(d) {
      assert Days[j][0] != FrenchName(d)[0] || Days[j][1] != FrenchName(d)[1];
    }
    IndexOfIs(Days, FrenchName(d), k);
  }

  lemma DayOffsetInjective(d1: Day, d2: Day)
    ensures DayOffset(d1) == DayOffset(d2) ==> d1 == d2
  {
    DayOffsetsInOrder(d1);
    DayOffsetsInOrder(d2);
  }

  /** The day offsets `handleAddCE` posts, one per schedule entry in
      `Object.entries` order, as written ... */
  function AddCeOffsetsAsWritten(schedule: Schedule): (r: seq<int>)
    ensures |r| == |schedule|
  {
    seq(|schedule|, i requires 0 <= i < |schedule| => DayOffsetAsWritten(schedule[i].day))
  }

  /** ... and corrected. */
  function AddCeOffsets(schedule: Schedule): (r: seq<int>)
    ensures |r| == |schedule|
    ensures forall i :: 0 <= i < |r| ==> 0 <= r[i] < 7 && Days[r[i]] == FrenchName(schedule[i].day)
  {
    seq(|schedule|, i requires 0 <= i < |schedule| => DayOffset(schedule[i].day))
  }

  /** Entry by entry: as written, every day but Saturday posts offset -1;
      corrected, each day posts its own number. */
  lemma OffsetsOfSchedule(schedule: Schedule, i: int)
    requires 0 <= i < |schedule|
    ensures AddCeOffsetsAsWritten(schedule)[i] == if schedule[i].day == Sa then 5 else -1
    ensures AddCeOffsets(schedule)[i] == DayNumber(schedule[i].day)
  {
    DayOffsetsInOrder(schedule[i].day);
    DayOffsetAsWrittenMisses(schedule[i].day);
  }

  /** Any morning schedule (slot 0, any pattern) starts with Tuesday and
      Wednesday. As written both post offset -1, the day before the week
      starts, so two different days land on one date; corrected, they post
      1 and 2. */
  lemma AddCeMorningCollides(ceId: int, currentWeek: int, shiftType: string)
    requires PatternNamed(shiftType).Some? && ShiftIndex(Rotation, ceId, currentWeek) == 0
    ensures GenerateShiftSchedule(ceId, currentWeek, shiftType).Done?
    ensures var schedule := GenerateShiftSchedule(ceId, currentWeek, shiftType).value;
      && |schedule| >= 4 && schedule[0].day == Tu && schedule[1].day == We
      && AddCeOffsetsAsWritten(schedule)[0] == -1 && AddCeOffsetsAsWritten(schedule)[1] == -1
      && AddCeOffsets(schedule)[0] == 1 && AddCeOffsets(schedule)[1] == 2
  {
    MorningBranch(ceId, currentWeek, shiftType);
    var schedule := GenerateShiftSchedule(ceId, currentWeek, shiftType).value;
    OffsetsOfSchedule(schedule, 0);
    OffsetsOfSchedule(schedule, 1);
  }
}
