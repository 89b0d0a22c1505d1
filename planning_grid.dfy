/**
 `generateTableData` of `hager-gui/src/components/PlanningGrid.jsx`: a table
 of 21 rows, one per day and shift, every cell starting at `null`, then each
 planning item written, in order, into the row its day and shift index.
 */
module PlanningGrid {
  import opened Base

  const Shifts: seq<string> := ["4 AM - 12 PM", "12 PM - 8 PM", "8 PM - 4 AM"]
  const Days: seq<string> := ["Monday", "Tuesday", "Wednesday", "Thursday", "Friday", "Saturday", "Sunday"]

  datatype Sector = Sector(id: int, name: string)

  /** One `{ name, employee }` of an item's `sectors`. */
  datatype SectorEntry = SectorEntry(name: string, employee: Option<string>)

  /** A planning item; `ce` and `employee` are `null` or a value. */
  datatype Item = Item(day: string, shift: string, ce: Option<string>, sectors: seq<SectorEntry>)

  /** A row: its `shift` label, its `ce`, and one property per sector name. */
  datatype Row = Row(shift: string, ce: Option<string>, cells: map<string, Option<string>>)

  function SectorName(sector: Sector): string
  {
    sector.name
  }

  /** The sector names, in sector order. */
  function Names(sectors: seq<Sector>): seq<string>
  {
    MapSeq(sectors, SectorName)
  }

  /** `sector => row[sector.name] = null` for every sector: a `null` cell
      for each sector name and no other. */
  function NullCells(sectors: seq<Sector>): (cells: map<string, Option<string>>)
  {
    map n | n in Names(sectors) :: None
  }

  /** The row for day `d` and shift `s` before any item is written. */
  function FreshRow(d: int, s: int, sectors: seq<Sector>): Row
    requires 0 <= d < |Days| && 0 <= s < |Shifts|
  {
    Row(Days[d] + " " + Shifts[s], None, NullCells(sectors))
  }

  /** The table lines 182-190 build: row `i` is day `i / 3`, shift `i % 3`. */
  function InitialTable(sectors: seq<Sector>): (t: seq<Row>)
    ensures |t| == 21
  {
    seq(21, i requires 0 <= i < 21 => FreshRow(i / 3, i % 3, sectors))
  }

  /** Line 195: `findIndex` of the day times 3 plus `findIndex` of the shift. */
  function RowIndex(item: Item): (k: int)
    ensures -4 <= k <= 20
  {
    IndexOf(Days, item.day) * 3 + IndexOf(Shifts, item.shift)
  }

  /** The employee the last entry named `n` gives. */
  function LastEmployee(entries: seq<SectorEntry>, n: string): Option<string>
    decreases |entries|
  {
    if entries == [] then None
    else if entries[|entries| - 1].name == n then entries[|entries| - 1].employee
    else LastEmployee(entries[..|entries| - 1], n)
  }

  predicate Lists(entries: seq<SectorEntry>, n: string)
  {
    exists i :: 0 <= i < |entries| && entries[i].name == n
  }

  /** Lines 198-200: `row[sector.name] = sector.employee` in order, so the
      last entry with a name wins and names not listed keep their value. */
  function SetCells(cells: map<string, Option<string>>, entries: seq<SectorEntry>): (r: map<string, Option<string>>)
    ensures forall n :: n in r <==> n in cells || Lists(entries, n)
    ensures forall n :: n in r ==> r[n] == if Lists(entries, n) then LastEmployee(entries, n) else cells[n]
    decreases |entries|
  {
    if entries == [] then cells
    else
      var front := entries[..|entries| - 1];
      var last := entries[|entries| - 1];
      assert forall n :: Lists(entries, n) <==> Lists(front, n) || last.name == n by {
        forall n ensures Lists(entries, n) <==> Lists(front, n) || last.name == n {
          if Lists(front, n) {
            var i :| 0 <= i < |front| && front[i].name == n;
            assert entries[i] == front[i];
          }
          if Lists(entries, n) && last.name != n {
            var i :| 0 <= i < |entries| && entries[i].name == n;
            assert front[i] == entries[i];
          }
        }
      }
      SetCells(cells, front)[last.name := last.employee]
  }

  /** Lines 196-200 for one item whose row exists. */
  function Write(row: Row, item: Item): Row
  {
    row.(ce := item.ce, cells := SetCells(row.cells, item.sectors))
  }

  /** One item written into the table; only its own row changes. */
  function ApplyItem(data: seq<Row>, item: Item): (r: seq<Row>)
    requires 0 <= RowIndex(item) < |data|
    ensures |r| == |data|
    ensures r[RowIndex(item)] == Write(data[RowIndex(item)], item)
    ensures forall k :: 0 <= k < |data| && k != RowIndex(item) ==> r[k] == data[k]
  {
    data[RowIndex(item) := Write(data[RowIndex(item)], item)]
  }

  predicate AllIndexed(items: seq<Item>, n: int)
  {
    forall j :: 0 <= j < |items| ==> 0 <= RowIndex(items[j]) < n
  }

  /** The items written one after the other. */
  function ApplyAll(data: seq<Row>, items: seq<Item>): (r: seq<Row>)
    requires AllIndexed(items, |data|)
    ensures |r| == |data|
    decreases |items|
  {
    if items == [] then data
    else ApplyItem(ApplyAll(data, items[..|items| - 1]), items[|items| - 1])
  }

  /** Lines 184-187: one row object, `null` under every sector name. */
  method NewRow(day: string, shift: string, sectors: seq<Sector>) returns (row: Row)
    ensures row == Row(day + " " + shift, None, NullCells(sectors))
  {
    var cells: map<string, Option<string>> := map[];
    for c := 0 to |sectors|
      invariant cells == NullCells(sectors[..c])
    {
      assert Names(sectors[..c + 1]) == Names(sectors[..c]) + [sectors[c].name];
      cells := cells[sectors[c].name := None];
    }
    assert sectors[..|sectors|] == sectors;
    row := Row(day + " " + shift, None, cells);
  }

  /** Writing one more item is writing the others, then that one. */
  lemma ApplySnoc(data: seq<Row>, items: seq<Item>, item: Item)
    requires AllIndexed(items, |data|) && 0 <= RowIndex(item) < |data|
    ensures AllIndexed(items + [item], |data|)
    ensures ApplyAll(data, items + [item]) == ApplyItem(ApplyAll(data, items), item)
  {
    var all := items + [item];
    forall j | 0 <= j < |all| ensures 0 <= RowIndex(all[j]) < |data| {
      if j < |items| {
        assert all[j] == items[j];
      }
    }
    assert all[..|all| - 1] == items;
  }

  /** Lines 182-190: `days.forEach(day => shifts.forEach(shift => data.push(...)))`. */
  method NewTable(sectors: seq<Sector>) returns (data: seq<Row>)
    ensures data == InitialTable(sectors)
  {
    data := [];
    for d := 0 to |Days|
      invariant |data| == d * 3
      invariant forall i :: 0 <= i < |data| ==> data[i] == FreshRow(i / 3, i % 3, sectors)
    {
      for s := 0 to |Shifts|
        invariant |data| == d * 3 + s
        invariant forall i :: 0 <= i < |data| ==> data[i] == FreshRow(i / 3, i % 3, sectors)
      {
        var row := NewRow(Days[d], Shifts[s], sectors);
        RowOfDayShift(d, s);
        assert row == FreshRow((d * 3 + s) / 3, (d * 3 + s) % 3, sectors);
        data := data + [row];
      }
    }
  }

  /** `generateTableData(planning, sectors)`. `data[rowIndex]` is `undefined`
      for a negative index, and setting `ce` on it throws. */
  method GenerateTableData(planning: seq<Item>, sectors: seq<Sector>) returns (r: Outcome<seq<Row>>)
    ensures r.Thrown? <==> exists j :: 0 <= j < |planning| && RowIndex(planning[j]) < 0
    ensures r.Done? ==> AllIndexed(planning, 21) && r.value == ApplyAll(InitialTable(sectors), planning)
  {
    var data := NewTable(sectors);
    ghost var initial := data;
    for n := 0 to |planning|
      invariant AllIndexed(planning[..n], 21)
      invariant data == ApplyAll(initial, planning[..n])
    {
      var item := planning[n];
      var rowIndex := RowIndex(item);
      if rowIndex < 0 {
        return Thrown;
      }
      var row := data[rowIndex];
      row := row.(ce := item.ce);
      row := row.(cells := SetCells(row.cells, item.sectors));
      ApplySnoc(initial, planning[..n], item);
      assert planning[..n + 1] == planning[..n] + [item];
      data := data[rowIndex := row];
    }
    assert planning[..|planning|] == planning;
    return Done(data);
  }

  /** Row `i` is labelled with day `i / 3` and shift `i % 3`, has no CE and a
      `null` cell for every sector name and no other. */
  lemma InitialRows(sectors: seq<Sector>, i: int)
    requires 0 <= i < 21
    ensures InitialTable(sectors)[i].shift == Days[i / 3] + " " + Shifts[i % 3]
    ensures InitialTable(sectors)[i].ce.None?
    ensures forall n :: n in InitialTable(sectors)[i].cells <==> n in Names(sectors)
    ensures forall n :: n in InitialTable(sectors)[i].cells ==> InitialTable(sectors)[i].cells[n].None?
  {
  }

  /** A row no item targets is left as it was. */
  lemma {:induction false} UntouchedRow(data: seq<Row>, items: seq<Item>, k: int)
    requires AllIndexed(items, |data|) && 0 <= k < |data|
    requires forall j :: 0 <= j < |items| ==> RowIndex(items[j]) != k
    ensures ApplyAll(data, items)[k] == data[k]
    decreases |items|
  {
    if items != [] {
      UntouchedRow(data, items[..|items| - 1], k);
    }
  }

  /** A row's CE is the CE of the last item that targets it. */
  lemma {:induction false} CeOfLastItem(data: seq<Row>, items: seq<Item>, k: int, last: int)
    requires AllIndexed(items, |data|) && 0 <= k < |data|
    requires 0 <= last < |items| && RowIndex(items[last]) == k
    requires forall j :: last < j < |items| ==> RowIndex(items[j]) != k
    ensures ApplyAll(data, items)[k].ce == items[last].ce
    decreases |items|
  {
    if last < |items| - 1 {
      CeOfLastItem(data, items[..|items| - 1], k, last);
    }
  }

  /** A sector cell holds the employee of the last item that targets the row
      and lists that sector ... */
  lemma {:induction false} CellOfLastItem(data: seq<Row>, items: seq<Item>, k: int, n: string, last: int)
    requires AllIndexed(items, |data|) && 0 <= k < |data|
    requires 0 <= last < |items| && RowIndex(items[last]) == k && Lists(items[last].sectors, n)
    requires forall j :: last < j < |items| ==> !(RowIndex(items[j]) == k && Lists(items[j].sectors, n))
    ensures n in ApplyAll(data, items)[k].cells
    ensures ApplyAll(data, items)[k].cells[n] == LastEmployee(items[last].sectors, n)
    decreases |items|
  {
    if last < |items| - 1 {
      CellOfLastItem(data, items[..|items| - 1], k, n, last);
    }
  }

  /** ... and a cell no targeting item lists keeps its value. */
  lemma {:induction false} CellUnwritten(data: seq<Row>, items: seq<Item>, k: int, n: string)
    requires AllIndexed(items, |data|) && 0 <= k < |data|
    requires forall j :: 0 <= j < |items| ==> !(RowIndex(items[j]) == k && Lists(items[j].sectors, n))
    ensures n in ApplyAll(data, items)[k].cells <==> n in data[k].cells
    ensures n in data[k].cells ==> ApplyAll(data, items)[k].cells[n] == data[k].cells[n]
    decreases |items|
  {
    if items != [] {
      CellUnwritten(data, items[..|items| - 1], k, n);
    }
  }

  /** An item whose day is unknown, or whose day is Monday and shift unknown,
      makes the fill throw; an unknown shift on a later day writes the night
      row of the day before. */
  lemma RowIndexOutOfTable(item: Item)
    ensures item.day !in Days ==> RowIndex(item) < 0
    ensures item.day == Days[0] && item.shift !in Shifts ==> RowIndex(item) == -1
    ensures item.day in Days && item.day != Days[0] && item.shift !in Shifts ==>
      RowIndex(item) == (IndexOf(Days, item.day) - 1) * 3 + 2
  {
  }
}
