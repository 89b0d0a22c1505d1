/**
 The untyped week view `hager-gui/src/components/Planning.jsx`: competence
 from the sector's own required skills, the employees offered for a sector,
 and the 7 by 3 week grid with one cell per sector in every row.
 */
module PlanningViewJsx {
  import opened Base

  /** An `{ id, name }` reference. */
  datatype Ref = Ref(id: int, name: string)

  /** An employee; here `Skills` is always read, so it is a plain list. */
  datatype Employee = Employee(id: int, name: string, sectorId: int, skills: seq<Ref>)

  /** A sector with its required skills. */
  datatype Sector = Sector(id: int, name: string, requiredSkills: seq<Ref>)

  /** A planning entry; this view always reads `entry.sector.id`. */
  datatype Entry = Entry(day: string, shift: string, sector: Ref, employee: Option<Ref>, ce: Option<Ref>)

  /** A sector cell: `{ id }`, or `{ id, employee }` taken from an entry. */
  datatype Cell = BareCell(id: int) | EmployeeCell(id: int, employee: Option<Ref>)

  /** A row of the grid; `ce` is unset (`None`) when no entry matches. */
  datatype GridRow = GridRow(day: string, shift: string, key: string, ce: Option<Ref>, sectors: seq<Cell>)

  const Days: seq<string> := ["Lu", "Ma", "Me", "Je", "Ve", "Sa", "Di"]
  const Shifts: seq<string> := ["M", "S", "N"]

  function Ids(skills: seq<Ref>): (ids: seq<int>)
    ensures |ids| == |skills| && forall i :: 0 <= i < |skills| ==> ids[i] == skills[i].id
  {
    seq(|skills|, i requires 0 <= i < |skills| => skills[i].id)
  }

  /** The employee and the sector have a skill id in common. */
  predicate ShareSkill(employee: Employee, sector: Sector)
  {
    exists s :: s in Ids(employee.skills) && s in Ids(sector.requiredSkills)
  }

  /** `isEmployeeCompetent(employee, sector)` at lines 82-87. */
  function IsEmployeeCompetent(employee: Employee, sector: Sector): (b: bool)
    ensures b <==> ShareSkill(employee, sector)
    ensures b ==> employee.skills != [] && sector.requiredSkills != []
  {
    var employeeSkills := set s | s in Ids(employee.skills);
    var requiredSkills := set s | s in Ids(sector.requiredSkills);
    var ids := Ids(employee.skills);
    var b := |employeeSkills| > 0 && |requiredSkills| > 0 && Any(ids, s => s in requiredSkills);
    assert b <==> exists s :: s in ids && s in requiredSkills by {
      if exists s :: s in ids && s in requiredSkills {
        var s :| s in ids && s in requiredSkills;
        assert s in employeeSkills;
        var i :| 0 <= i < |ids| && ids[i] == s;
        assert (s => s in requiredSkills)(ids[i]);
      }
    }
    b
  }

  /** `emp => emp.SectorID === sector.id && isEmployeeCompetent(emp, sector)`. */
  function OfferedFor(sector: Sector): Employee -> bool
  {
    (emp: Employee) => emp.sectorId == sector.id && IsEmployeeCompetent(emp, sector)
  }

  /** The employees the menu of a sector cell offers (lines 115-117). */
  function CompetentEmployees(employees: seq<Employee>, sector: Sector): seq<Employee>
  {
    Filter(employees, OfferedFor(sector))
  }

  /** The menu offers exactly the employees of the sector who share a skill
      with it, in their original order. */
  lemma CompetentEmployeesExactly(employees: seq<Employee>, sector: Sector)
    ensures forall e :: e in CompetentEmployees(employees, sector) <==>
      e in employees && e.sectorId == sector.id && ShareSkill(e, sector)
    ensures IsSubsequence(CompetentEmployees(employees, sector), employees)
  {
    forall e ensures e in CompetentEmployees(employees, sector) <==>
      e in employees && e.sectorId == sector.id && ShareSkill(e, sector) {
      FilterMembership(employees, OfferedFor(sector), e);
    }
    FilterIsSubsequence(employees, OfferedFor(sector));
  }

  // ---------------------------------------------------------------------
  // The grid
  // ---------------------------------------------------------------------

  /** `entry => entry.day === day && entry.shift === shift`. */
  function InSlot(day: string, shift: string): Entry -> bool
  {
    (e: Entry) => e.day == day && e.shift == shift
  }

  /** `entry => entry.sector.id === sectorId`. */
  function InSector(sectorId: int): Entry -> bool
  {
    (e: Entry) => e.sector.id == sectorId
  }

  function Matching(planningData: seq<Entry>, day: string, shift: string): seq<Entry>
  {
    Filter(planningData, InSlot(day, shift))
  }

  /** The cell of one sector in a row with entries (lines 155-161). */
  function CellFor(sector: Sector, dayShiftData: seq<Entry>): (c: Cell)
    ensures c.id == sector.id
    ensures c.EmployeeCell? <==> exists i :: 0 <= i < |dayShiftData| && dayShiftData[i].sector.id == sector.id
    ensures c.EmployeeCell? ==>
      exists i :: FirstPassing(dayShiftData, InSector(sector.id), i) && c.employee == dayShiftData[i].employee
  {
    match Find(dayShiftData, InSector(sector.id))
    case None => BareCell(sector.id)
    case Some(e) => EmployeeCell(sector.id, e.employee)
  }

  /** What lines 148-164 make of the row for `day` and `shift`. */
  predicate BuiltRow(row: GridRow, day: string, shift: string, planningData: seq<Entry>, sectors: seq<Sector>)
  {
    var m := Matching(planningData, day, shift);
    && row.day == day && row.shift == shift && row.key == day + "-" + shift
    && row.ce == (if m == [] then None else m[0].ce)
    && |row.sectors| == |sectors|
    && forall j :: 0 <= j < |sectors| ==>
         row.sectors[j] == if m == [] then BareCell(sectors[j].id) else CellFor(sectors[j], m)
  }

  /** Lines 148-164: the row for one day and shift. */
  method NewGridRow(day: string, shift: string, planningData: seq<Entry>, sectors: seq<Sector>) returns (rowData: GridRow)
    ensures BuiltRow(rowData, day, shift, planningData, sectors)
  {
    rowData := GridRow(day, shift, day + "-" + shift, None, []);
    var dayShiftData := Matching(planningData, day, shift);
    if |dayShiftData| > 0 {
      rowData := rowData.(ce := dayShiftData[0].ce);
      rowData := rowData.(sectors := seq(|sectors|, j requires 0 <= j < |sectors| => CellFor(sectors[j], dayShiftData)));
    } else {
      rowData := rowData.(sectors := seq(|sectors|, j requires 0 <= j < |sectors| => BareCell(sectors[j].id)));
    }
  }

  /** The `data` builder at lines 146-168: for each day and each shift a new
      row, filled according to the entries of that slot; the row of day `d`
      and shift `s` is row `d * 3 + s`. */
  method BuildGrid(planningData: seq<Entry>, sectors: seq<Sector>) returns (data: seq<GridRow>)
    ensures |data| == |Days| * |Shifts|
    ensures forall d, s :: 0 <= d < |Days| && 0 <= s < |Shifts| ==>
      BuiltRow(data[d * 3 + s], Days[d], Shifts[s], planningData, sectors)
  {
    data := [];
    for d := 0 to |Days|
      invariant |data| == d * |Shifts|
      invariant forall d', s' :: 0 <= d' < d && 0 <= s' < |Shifts| ==>
        BuiltRow(data[d' * 3 + s'], Days[d'], Shifts[s'], planningData, sectors)
    {
      for s := 0 to |Shifts|
        invariant |data| == d * |Shifts| + s
        invariant forall d', s' :: 0 <= d' < |Days| && 0 <= s' < |Shifts| && d' * 3 + s' < |data| ==>
          BuiltRow(data[d' * 3 + s'], Days[d'], Shifts[s'], planningData, sectors)
      {
        var rowData := NewGridRow(Days[d], Shifts[s], planningData, sectors);
        ghost var before := data;
        data := data + [rowData];
        assert forall i :: 0 <= i < |before| ==> data[i] == before[i];
      }
    }
  }

  /** A row's CE is the CE of the first entry of the week, in server order,
      for its day and shift; it is unset when there is none. */
  lemma CeOfFirstEntry(row: GridRow, day: string, shift: string, planningData: seq<Entry>, sectors: seq<Sector>)
    requires BuiltRow(row, day, shift, planningData, sectors)
    ensures (forall i :: 0 <= i < |planningData| ==> !InSlot(day, shift)(planningData[i])) ==> row.ce.None?
    ensures forall i :: FirstPassing(planningData, InSlot(day, shift), i) ==> row.ce == planningData[i].ce
  {
    if forall i :: 0 <= i < |planningData| ==> !InSlot(day, shift)(planningData[i]) {
      FilterKeepsNone(planningData, InSlot(day, shift));
    }
    forall i | FirstPassing(planningData, InSlot(day, shift), i) ensures row.ce == planningData[i].ce {
      FindInFilter(planningData, InSlot(day, shift), (e: Entry) => true, i);
    }
  }

  /** A sector cell carries an employee exactly when some entry of the week
      is for this day, shift and sector. */
  lemma CellHasEmployeeIff(row: GridRow, day: string, shift: string, planningData: seq<Entry>,
                           sectors: seq<Sector>, j: int)
    requires BuiltRow(row, day, shift, planningData, sectors) && 0 <= j < |sectors|
    ensures row.sectors[j].id == sectors[j].id
    ensures row.sectors[j].EmployeeCell? <==>
      exists e :: e in planningData && InSlot(day, shift)(e) && e.sector.id == sectors[j].id
  {
    var m := Matching(planningData, day, shift);
    forall e ensures e in m <==> e in planningData && InSlot(day, shift)(e) {
      FilterMembership(planningData, InSlot(day, shift), e);
    }
  }

  /** The 21 row keys `${day}-${shift}` are pairwise distinct. */
  lemma GridKeysDistinct(i: int, j: int)
    requires 0 <= i < j < |Days| * |Shifts|
    ensures Days[i / 3] + "-" + Shifts[i % 3] != Days[j / 3] + "-" + Shifts[j % 3]
  {
    var ki, kj := Days[i / 3] + "-" + Shifts[i % 3], Days[j / 3] + "-" + Shifts[j % 3];
    NamesDistinct();
    if i / 3 != j / 3 {
      assert ki[0] != kj[0] || ki[1] != kj[1];
    } else {
      assert ki[3] != kj[3];
    }
  }

  lemma NamesDistinct()
    ensures forall a :: 0 <= a < |Days| ==> |Days[a]| == 2
    ensures forall a, b :: 0 <= a < b < |Days| ==> Days[a][0] != Days[b][0] || Days[a][1] != Days[b][1]
    ensures forall a :: 0 <= a < |Shifts| ==> |Shifts[a]| == 1
    ensures forall a, b :: 0 <= a < b < |Shifts| ==> Shifts[a][0] != Shifts[b][0]
  {
  }
}
