/**
 The staff screen `hager-gui/src/components/EmployeeGrid.tsx`: the table with
 one row per CE and one cell per sector listing the employees placed there,
 the search over employees and reservists, and the local list update after a
 CE or sector is deleted.
 */
module EmployeeGrid {
  import opened Base

  /** An `{ id, name }` object: a CE, a sector or a skill. */
  datatype Ref = Ref(id: int, name: string)

  datatype Employee = Employee(id: int, name: string, ceId: int, ce: Ref, sectorId: int, sector: Ref, skills: seq<Ref>)

  datatype Reservist = Reservist(id: int, name: string, skills: seq<Ref>)

  /** What a cell shows of an employee: `{ id, name, skills }` with the skill names. */
  datatype CellEmployee = CellEmployee(id: int, name: string, skills: seq<string>)

  /** One table row: `key`, `ceName`, and one property per sector name. */
  datatype GridRow = GridRow(key: int, ceName: string, cells: map<string, seq<CellEmployee>>)

  // ---------------------------------------------------------------------
  // The CE by sector table (lines 405-417)
  // ---------------------------------------------------------------------

  function RefName(r: Ref): string
  {
    r.name
  }

  function View(e: Employee): CellEmployee
  {
    CellEmployee(e.id, e.name, MapSeq(e.skills, RefName))
  }

  function ViewAll(employees: seq<Employee>): (r: seq<CellEmployee>)
    ensures |r| == |employees| && forall i :: 0 <= i < |employees| ==> r[i] == View(employees[i])
  {
    seq(|employees|, i requires 0 <= i < |employees| => View(employees[i]))
  }

  /** `emp => emp.CEID === ce.id && emp.SectorID === sector.id`. */
  function At(ceId: int, sectorId: int): Employee -> bool
  {
    (e: Employee) => e.ceId == ceId && e.sectorId == sectorId
  }

  /** The cell for a CE and a sector. */
  function Cell(employees: seq<Employee>, ce: Ref, sector: Ref): seq<CellEmployee>
  {
    ViewAll(Filter(employees, At(ce.id, sector.id)))
  }

  /** No later sector (before `upto`) has the name of sector `i`, so its cell
      is the one the row keeps. */
  predicate LastNamed(sectors: seq<Ref>, i: int, upto: int)
    requires 0 <= i < |sectors| && upto <= |sectors|
  {
    forall j :: i < j < upto ==> sectors[j].name != sectors[i].name
  }

  /** What the `ces.map` callback returns for `ce`. */
  ghost predicate IsRowFor(row: GridRow, ce: Ref, sectors: seq<Ref>, employees: seq<Employee>)
  {
    && row.key == ce.id && row.ceName == ce.name
    && (forall n :: n in row.cells <==> exists i :: 0 <= i < |sectors| && sectors[i].name == n)
    && forall i :: 0 <= i < |sectors| && LastNamed(sectors, i, |sectors|) ==>
         sectors[i].name in row.cells && row.cells[sectors[i].name] == Cell(employees, ce, sectors[i])
  }

  /** Lines 406-415: the row object for one CE, a property set per sector in
      order, so of two sectors with one name the later one's cell stays. */
  method BuildRow(ce: Ref, sectors: seq<Ref>, filteredEmployees: seq<Employee>) returns (row: GridRow)
    ensures IsRowFor(row, ce, sectors, filteredEmployees)
  {
    var cells: map<string, seq<CellEmployee>> := map[];
    for c := 0 to |sectors|
      invariant forall n :: n in cells <==> exists i :: 0 <= i < c && sectors[i].name == n
      invariant forall i :: 0 <= i < c && LastNamed(sectors, i, c) ==>
        sectors[i].name in cells && cells[sectors[i].name] == Cell(filteredEmployees, ce, sectors[i])
    {
      var sector := sectors[c];
      cells := cells[sector.name := Cell(filteredEmployees, ce, sector)];
    }
    row := GridRow(ce.id, ce.name, cells);
  }

  /** Line 405: `data = ces.map(...)`, one row per CE in CE order. */
  method BuildData(ces: seq<Ref>, sectors: seq<Ref>, filteredEmployees: seq<Employee>) returns (data: seq<GridRow>)
    ensures |data| == |ces|
    ensures forall i :: 0 <= i < |ces| ==> IsRowFor(data[i], ces[i], sectors, filteredEmployees)
  {
    data := [];
    for k := 0 to |ces|
      invariant |data| == k
      invariant forall i :: 0 <= i < k ==> IsRowFor(data[i], ces[i], sectors, filteredEmployees)
    {
      var row := BuildRow(ces[k], sectors, filteredEmployees);
      data := data + [row];
    }
  }

  /** A cell shows exactly the employees with that CE and that sector, in
      their order in the list. */
  lemma CellListsExactly(employees: seq<Employee>, ce: Ref, sector: Ref)
    ensures forall c :: c in Cell(employees, ce, sector) <==>
      exists e :: e in employees && e.ceId == ce.id && e.sectorId == sector.id && View(e) == c
    ensures IsSubsequence(Cell(employees, ce, sector), ViewAll(employees))
  {
    var kept := Filter(employees, At(ce.id, sector.id));
    forall e ensures e in kept <==> e in employees && e.ceId == ce.id && e.sectorId == sector.id {
      FilterMembership(employees, At(ce.id, sector.id), e);
    }
    forall c ensures c in Cell(employees, ce, sector) <==>
      exists e :: e in employees && e.ceId == ce.id && e.sectorId == sector.id && View(e) == c {
      if c in Cell(employees, ce, sector) {
        var i :| 0 <= i < |kept| && ViewAll(kept)[i] == c;
        assert kept[i] in kept;
      }
      if exists e :: e in employees && e.ceId == ce.id && e.sectorId == sector.id && View(e) == c {
        var e :| e in employees && e.ceId == ce.id && e.sectorId == sector.id && View(e) == c;
        var i :| 0 <= i < |kept| && kept[i] == e;
        assert ViewAll(kept)[i] == c;
      }
    }
    FilterIsSubsequence(employees, At(ce.id, sector.id));
    ViewAllSubsequence(kept, employees);
  }

  /** Showing each employee keeps a subsequence a subsequence. */
  lemma {:induction false} ViewAllSubsequence(sub: seq<Employee>, s: seq<Employee>)
    requires IsSubsequence(sub, s)
    ensures IsSubsequence(ViewAll(sub), ViewAll(s))
    decreases |s|
  {
    if s != [] {
      assert ViewAll(s)[1..] == ViewAll(s[1..]);
      if sub != [] && sub[0] == s[0] && IsSubsequence(sub[1..], s[1..]) {
        ViewAllSubsequence(sub[1..], s[1..]);
        assert ViewAll(sub)[1..] == ViewAll(sub[1..]);
      } else {
        ViewAllSubsequence(sub, s[1..]);
      }
    }
  }

  /** An employee is listed in the cells of one CE id and one sector id only. */
  lemma InOneCellOnly(employees: seq<Employee>, e: Employee, ce1: Ref, sector1: Ref, ce2: Ref, sector2: Ref)
    requires e in Filter(employees, At(ce1.id, sector1.id))
    requires e in Filter(employees, At(ce2.id, sector2.id))
    ensures ce1.id == ce2.id && sector1.id == sector2.id
  {
    FilterMembership(employees, At(ce1.id, sector1.id), e);
    FilterMembership(employees, At(ce2.id, sector2.id), e);
  }

  // ---------------------------------------------------------------------
  // Search (lines 155-177)
  // ---------------------------------------------------------------------

  /** `x.name.toLowerCase().includes(value.toLowerCase())`. */
  predicate NameMatches(name: string, value: string)
  {
    Includes(Lower(name), Lower(value))
  }

  function SkillMatches(value: string): Ref -> bool
  {
    (s: Ref) => NameMatches(s.name, value)
  }

  /** The `handleSearch` test for an employee. */
  predicate EmployeeMatches(e: Employee, value: string)
  {
    || NameMatches(e.name, value)
    || NameMatches(e.ce.name, value)
    || NameMatches(e.sector.name, value)
    || Any(e.skills, SkillMatches(value))
  }

  /** The test for a reservist, in `handleSearch` and in the reservist effect. */
  predicate ReservistMatches(r: Reservist, value: string)
  {
    NameMatches(r.name, value) || Any(r.skills, SkillMatches(value))
  }

  function SearchEmployees(employees: seq<Employee>, value: string): seq<Employee>
  {
    Filter(employees, (e: Employee) => EmployeeMatches(e, value))
  }

  function SearchReservists(reservists: seq<Reservist>, value: string): seq<Reservist>
  {
    Filter(reservists, (r: Reservist) => ReservistMatches(r, value))
  }

  /** The search keeps, in order, exactly the employees whose name, CE name,
      sector name or some skill name contains the query, ignoring case. */
  lemma SearchEmployeesExactly(employees: seq<Employee>, value: string)
    ensures IsSubsequence(SearchEmployees(employees, value), employees)
    ensures forall e :: e in SearchEmployees(employees, value) <==>
      e in employees && (|| NameMatches(e.name, value) || NameMatches(e.ce.name, value)
                         || NameMatches(e.sector.name, value)
                         || exists i :: 0 <= i < |e.skills| && NameMatches(e.skills[i].name, value))
  {
    FilterIsSubsequence(employees, (e: Employee) => EmployeeMatches(e, value));
    forall e ensures e in SearchEmployees(employees, value) <==> e in employees && EmployeeMatches(e, value) {
      FilterMembership(employees, (e: Employee) => EmployeeMatches(e, value), e);
    }
  }

  /** ... and exactly the reservists whose name or some skill name does. */
  lemma SearchReservistsExactly(reservists: seq<Reservist>, value: string)
    ensures IsSubsequence(SearchReservists(reservists, value), reservists)
    ensures forall r :: r in SearchReservists(reservists, value) <==>
      r in reservists && (NameMatches(r.name, value) || exists i :: 0 <= i < |r.skills| && NameMatches(r.skills[i].name, value))
  {
    FilterIsSubsequence(reservists, (r: Reservist) => ReservistMatches(r, value));
    forall r ensures r in SearchReservists(reservists, value) <==> r in reservists && ReservistMatches(r, value) {
      FilterMembership(reservists, (r: Reservist) => ReservistMatches(r, value), r);
    }
  }

  /** An empty query keeps every employee and every reservist. */
  lemma EmptyQueryKeepsAll(employees: seq<Employee>, reservists: seq<Reservist>)
    ensures SearchEmployees(employees, "") == employees
    ensures SearchReservists(reservists, "") == reservists
  {
    assert Lower("") == "";
    forall i | 0 <= i < |employees| ensures EmployeeMatches(employees[i], "") {
      IncludesEmpty(Lower(employees[i].name));
    }
    FilterKeepsAll(employees, (e: Employee) => EmployeeMatches(e, ""));
    forall i | 0 <= i < |reservists| ensures ReservistMatches(reservists[i], "") {
      IncludesEmpty(Lower(reservists[i].name));
    }
    FilterKeepsAll(reservists, (r: Reservist) => ReservistMatches(r, ""));
  }

  // ---------------------------------------------------------------------
  // Deletion (lines 340-356)
  // ---------------------------------------------------------------------

  /** `list.filter(x => x.id !== id)`. */
  function WithoutId(list: seq<Ref>, id: int): seq<Ref>
  {
    Filter(list, (x: Ref) => x.id != id)
  }

  /** The local list loses exactly the entries with that id; the others keep
      their order. */
  lemma WithoutIdExactly(list: seq<Ref>, id: int)
    ensures IsSubsequence(WithoutId(list, id), list)
    ensures forall x :: x in WithoutId(list, id) <==> x in list && x.id != id
    ensures (forall i :: 0 <= i < |list| ==> list[i].id != id) ==> WithoutId(list, id) == list
  {
    FilterIsSubsequence(list, (x: Ref) => x.id != id);
    forall x ensures x in WithoutId(list, id) <==> x in list && x.id != id {
      FilterMembership(list, (x: Ref) => x.id != id, x);
    }
    if forall i :: 0 <= i < |list| ==> list[i].id != id {
      FilterKeepsAll(list, (x: Ref) => x.id != id);
    }
  }

  /** The component's state that these handlers read and set. */
  class GridState {
    var employees: seq<Employee>
    var filteredEmployees: seq<Employee>
    var reservists: seq<Reservist>
    var filteredReservists: seq<Reservist>
    var ces: seq<Ref>
    var sectors: seq<Ref>
    var searchText: string
    var reservistSearchText: string

    /** The state after the initial fetch. */
    constructor (employees: seq<Employee>, reservists: seq<Reservist>, ces: seq<Ref>, sectors: seq<Ref>)
      ensures this.employees == employees && filteredEmployees == employees
      ensures this.reservists == reservists && filteredReservists == reservists
      ensures this.ces == ces && this.sectors == sectors
      ensures searchText == "" && reservistSearchText == ""
    {
      this.employees := employees;
      filteredEmployees := employees;
      this.reservists := reservists;
      filteredReservists := reservists;
      this.ces := ces;
      this.sectors := sectors;
      searchText := "";
      reservistSearchText := "";
    }

    /** `handleSearch(value)`. */
    method HandleSearch(value: string)
      modifies this
      ensures searchText == value
      ensures filteredEmployees == SearchEmployees(employees, value)
      ensures filteredReservists == SearchReservists(reservists, value)
      ensures employees == old(employees) && reservists == old(reservists)
      ensures ces == old(ces) && sectors == old(sectors) && reservistSearchText == old(reservistSearchText)
    {
      searchText := value;
      filteredEmployees := SearchEmployees(employees, value);
      filteredReservists := SearchReservists(reservists, value);
    }

    /** The effect that re-filters reservists when they or their search text change. */
    method FilterReservists()
      modifies this
      ensures filteredReservists == SearchReservists(reservists, reservistSearchText)
      ensures employees == old(employees) && filteredEmployees == old(filteredEmployees)
      ensures reservists == old(reservists) && ces == old(ces) && sectors == old(sectors)
      ensures searchText == old(searchText) && reservistSearchText == old(reservistSearchText)
    {
      filteredReservists := SearchReservists(reservists, reservistSearchText);
    }

    /** `handleDelete(type, id)`. `deleted` is whether the server accepted the
        delete; `refreshed` is what the following `fetchEmployees` got, if
        anything (it sets both lists and so drops the current search). */
    method HandleDelete(kind: string, id: int, deleted: bool, refreshed: Option<seq<Employee>>)
      modifies this
      ensures ces == if deleted && kind == "ce" then WithoutId(old(ces), id) else old(ces)
      ensures sectors == if deleted && kind == "sector" then WithoutId(old(sectors), id) else old(sectors)
      ensures employees == if deleted && refreshed.Some? then refreshed.value else old(employees)
      ensures filteredEmployees == if deleted && refreshed.Some? then refreshed.value else old(filteredEmployees)
      ensures reservists == old(reservists) && filteredReservists == old(filteredReservists)
      ensures searchText == old(searchText) && reservistSearchText == old(reservistSearchText)
    {
      if !deleted {
        return;
      }
      if kind == "ce" {
        ces := WithoutId(ces, id);
      } else if kind == "sector" {
        sectors := WithoutId(sectors, id);
      }
      if refreshed.Some? {
        employees := refreshed.value;
        filteredEmployees := refreshed.value;
      }
    }
  }
}
