/**
 `UpdateEmployee` of `handlers/employee.go`: the partial update of one
 employee record and the exchange of positions with the employee already at
 the requested CE and sector. The database is a table of live employee rows
 in primary-key order, and the skill catalogue likewise.
 */
module EmployeeHandler {
  import opened Base

  datatype Skill = Skill(id: nat, name: string)

  /** An employee row; a position is a (CE, sector) pair. The `gorm.Model`
      timestamps are left out. */
  datatype Record = Record(id: nat, name: string, ceId: nat, sectorId: nat, skills: seq<Skill>)

  /** The decoded request body; `ceId` and `sectorId` are `*uint`, so may be absent. */
  datatype UpdateInput = UpdateInput(name: string, ceId: Option<nat>, sectorId: Option<nat>, skillIds: seq<nat>, swap: bool)

  /** 404; the 200 answer with `requiresSwap: true` and the employee in the
      way; or 200 with the updated employee. */
  datatype Response = NotFound | RequiresSwap(existing: Record) | Updated(employee: Record)

  /** Primary keys strictly increase along the table. */
  predicate IdsIncreasing(rows: seq<Record>)
  {
    forall i, j :: 0 <= i < j < |rows| ==> rows[i].id < rows[j].id
  }

  function Ids(rows: seq<Record>): (ids: seq<nat>)
    ensures |ids| == |rows| && forall i :: 0 <= i < |rows| ==> ids[i] == rows[i].id
  {
    seq(|rows|, i requires 0 <= i < |rows| => rows[i].id)
  }

  /** `tx.First(&employee, id)`: the row with primary key `id`. */
  function RowOf(rows: seq<Record>, id: nat): (k: Option<nat>)
    ensures k.Some? ==> k.value < |rows| && rows[k.value].id == id
    ensures k.None? <==> forall i :: 0 <= i < |rows| ==> rows[i].id != id
  {
    var i := IndexOf(Ids(rows), id);
    if i < 0 then None else Some(i)
  }

  predicate Occupies(r: Record, ceId: nat, sectorId: nat, id: nat)
  {
    r.ceId == ceId && r.sectorId == sectorId && r.id != id
  }

  /** `tx.Where("ce_id = ? AND sector_id = ? AND id != ?", ...).First(...)`:
      the first row, by primary key, at that position other than `id`. */
  function Occupant(rows: seq<Record>, ceId: nat, sectorId: nat, id: nat): (o: Option<nat>)
    ensures o.Some? ==> o.value < |rows| && Occupies(rows[o.value], ceId, sectorId, id)
    ensures o.Some? ==> forall j :: 0 <= j < o.value ==> !Occupies(rows[j], ceId, sectorId, id)
    ensures o.None? <==> forall j :: 0 <= j < |rows| ==> !Occupies(rows[j], ceId, sectorId, id)
    decreases |rows|
  {
    if rows == [] then None
    else if Occupies(rows[0], ceId, sectorId, id) then Some(0)
    else
      match Occupant(rows[1..], ceId, sectorId, id)
      case None => None
      case Some(o) => Some(o + 1)
  }

  /** The occupant is the row at that position with the lowest primary key. */
  lemma OccupantLowestId(rows: seq<Record>, ceId: nat, sectorId: nat, id: nat, j: int)
    requires IdsIncreasing(rows) && Occupant(rows, ceId, sectorId, id).Some?
    requires 0 <= j < |rows| && Occupies(rows[j], ceId, sectorId, id)
    ensures rows[Occupant(rows, ceId, sectorId, id).value].id <= rows[j].id
  {
  }

  /** The conflict lines 113-114 look for: only when both `CEID` and
      `SectorID` are given. */
  function Conflict(rows: seq<Record>, id: nat, input: UpdateInput): (o: Option<nat>)
    ensures o.Some? ==> input.ceId.Some? && input.sectorId.Some? && o.value < |rows|
    ensures o.Some? ==> Occupies(rows[o.value], input.ceId.value, input.sectorId.value, id)
  {
    if input.ceId.Some? && input.sectorId.Some? then Occupant(rows, input.ceId.value, input.sectorId.value, id)
    else None
  }

  /** `tx.Where("id IN ?", SkillIDs).Find(&skills)`: the known skills with a
      requested id, in catalogue order. */
  function SkillsWithIds(catalogue: seq<Skill>, skillIds: seq<nat>): seq<Skill>
  {
    Filter(catalogue, (s: Skill) => s.id in skillIds)
  }

  /** Lines 151-159 and 168-190 on the edited record (after any swap). */
  function Merge(e: Record, input: UpdateInput, catalogue: seq<Skill>): Record
  {
    e.(name := if input.name != "" then input.name else e.name,
       ceId := if input.ceId.Some? then input.ceId.value else e.ceId,
       sectorId := if input.sectorId.Some? then input.sectorId.value else e.sectorId,
       skills := if |input.skillIds| > 0 then SkillsWithIds(catalogue, input.skillIds) else e.skills)
  }

  /** The response and the table after the committed (or rolled back)
      transaction of lines 95-210. */
  function Update(rows: seq<Record>, catalogue: seq<Skill>, id: nat, input: UpdateInput): (r: (Response, seq<Record>))
    requires IdsIncreasing(rows)
    ensures |r.1| == |rows| && Ids(r.1) == Ids(rows)
  {
    match RowOf(rows, id)
    case None => (NotFound, rows)
    case Some(k) =>
      match Conflict(rows, id, input)
      case Some(o) =>
        if !input.swap then (RequiresSwap(rows[o]), rows)
        else
          var moved := rows[o].(ceId := rows[k].ceId, sectorId := rows[k].sectorId);
          var e := Merge(rows[k].(ceId := rows[o].ceId, sectorId := rows[o].sectorId), input, catalogue);
          var r := rows[o := moved][k := e];
          assert Ids(r) == Ids(rows) by {
            assert forall i :: 0 <= i < |rows| ==> r[i].id == rows[i].id;
          }
          (Updated(e), r)
      case None =>
        var e := Merge(rows[k], input, catalogue);
        var r := rows[k := e];
        assert Ids(r) == Ids(rows) by {
          assert forall i :: 0 <= i < |rows| ==> r[i].id == rows[i].id;
        }
        (Updated(e), r)
  }

  /** The employee store the handler works on. */
  class Store {
    var rows: seq<Record>
    var catalogue: seq<Skill>

    ghost predicate Valid()
      reads this
    {
      IdsIncreasing(rows)
    }

    constructor (rows: seq<Record>, catalogue: seq<Skill>)
      requires IdsIncreasing(rows)
      ensures Valid() && this.rows == rows && this.catalogue == catalogue
    {
      this.rows := rows;
      this.catalogue := catalogue;
    }

    /** `UpdateEmployee`: the edited and the existing employee are changed
        field by field, then saved; a rollback leaves the table as it was. */
    method UpdateEmployee(id: nat, input: UpdateInput) returns (resp: Response)
      requires Valid()
      modifies this
      ensures Valid() && catalogue == old(catalogue)
      ensures (resp, rows) == Update(old(rows), old(catalogue), id, input)
    {
      var found := RowOf(rows, id);
      if found.None? {
        return NotFound;
      }
      var k := found.value;
      var employee := rows[k];
      ghost var start := employee;
      var conflict := Conflict(rows, id, input);
      if conflict.Some? {
        var o := conflict.value;
        var existing := rows[o];
        if !input.swap {
          return RequiresSwap(existing);
        }
        var tempCeId, tempSectorId := existing.ceId, existing.sectorId;
        existing := existing.(ceId := employee.ceId);
        existing := existing.(sectorId := employee.sectorId);
        rows := rows[o := existing];
        employee := employee.(ceId := tempCeId);
        employee := employee.(sectorId := tempSectorId);
        start := employee;
      }
      if input.name != "" {
        employee := employee.(name := input.name);
      }
      if input.ceId.Some? {
        employee := employee.(ceId := input.ceId.value);
      }
      if input.sectorId.Some? {
        employee := employee.(sectorId := input.sectorId.value);
      }
      if |input.skillIds| > 0 {
        employee := employee.(skills := []);
        employee := employee.(skills := employee.skills + SkillsWithIds(catalogue, input.skillIds));
        assert employee.skills == SkillsWithIds(catalogue, input.skillIds);
      }
      assert employee == Merge(start, input, catalogue);
      rows := rows[k := employee];
      IdsKeepIncreasing(old(rows), rows);
      return Updated(employee);
    }
  }

  lemma IdsKeepIncreasing(before: seq<Record>, after: seq<Record>)
    requires IdsIncreasing(before) && |after| == |before|
    requires forall i :: 0 <= i < |before| ==> after[i].id == before[i].id
    ensures IdsIncreasing(after)
  {
  }

  // ---------------------------------------------------------------------
  // What the handler promises
  // ---------------------------------------------------------------------

  /** 404 exactly for an unknown id, and then nothing changes. */
  lemma NotFoundIff(rows: seq<Record>, catalogue: seq<Skill>, id: nat, input: UpdateInput)
    requires IdsIncreasing(rows)
    ensures Update(rows, catalogue, id, input).0 == NotFound <==> id !in Ids(rows)
    ensures Update(rows, catalogue, id, input).0 == NotFound ==> Update(rows, catalogue, id, input).1 == rows
  {
  }

  /** The answer asks for a swap exactly when the employee exists, both the
      CE and the sector are given, another employee holds that position and
      `swap` is false; it names that employee, and nothing changes. */
  lemma RequiresSwapIff(rows: seq<Record>, catalogue: seq<Skill>, id: nat, input: UpdateInput)
    requires IdsIncreasing(rows)
    ensures Update(rows, catalogue, id, input).0.RequiresSwap? <==>
      && id in Ids(rows) && input.ceId.Some? && input.sectorId.Some? && !input.swap
      && exists j :: 0 <= j < |rows| && Occupies(rows[j], input.ceId.value, input.sectorId.value, id)
    ensures Update(rows, catalogue, id, input).0.RequiresSwap? ==>
      && Update(rows, catalogue, id, input).1 == rows
      && var x := Update(rows, catalogue, id, input).0.existing;
         x in rows && Occupies(x, input.ceId.value, input.sectorId.value, id)
  {
  }

  /** With `swap`, the two employees exchange their positions and nothing
      else changes for the one that was in the way. */
  lemma SwapExchangesPositions(rows: seq<Record>, catalogue: seq<Skill>, id: nat, input: UpdateInput, k: nat, o: nat)
    requires IdsIncreasing(rows)
    requires input.swap && RowOf(rows, id) == Some(k) && Conflict(rows, id, input) == Some(o)
    ensures o != k
    ensures var after := Update(rows, catalogue, id, input).1;
      && after[k].ceId == rows[o].ceId && after[k].sectorId == rows[o].sectorId
      && after[o] == rows[o].(ceId := rows[k].ceId, sectorId := rows[k].sectorId)
      && forall i :: 0 <= i < |rows| && i != k && i != o ==> after[i] == rows[i]
  {
  }

  /** An update that succeeds without anyone in the way changes the edited
      row only: an empty name, an absent CE or sector, or an empty skill
      list keeps that field; skills given are replaced by the known skills
      with those ids. */
  lemma PartialUpdate(rows: seq<Record>, catalogue: seq<Skill>, id: nat, input: UpdateInput, k: nat)
    requires IdsIncreasing(rows) && RowOf(rows, id) == Some(k)
    requires Update(rows, catalogue, id, input).0.Updated?
    ensures var after := Update(rows, catalogue, id, input).1;
      && Update(rows, catalogue, id, input).0.employee == after[k]
      && after[k].id == id
      && after[k].name == (if input.name == "" then rows[k].name else input.name)
      && after[k].ceId == (if input.ceId.None? then rows[k].ceId else input.ceId.value)
      && after[k].sectorId == (if input.sectorId.None? then rows[k].sectorId else input.sectorId.value)
      && (|input.skillIds| == 0 ==> after[k].skills == rows[k].skills)
      && (forall s :: s in after[k].skills <==> if |input.skillIds| == 0 then s in rows[k].skills
                                                    else s in catalogue && s.id in input.skillIds)
      && (Conflict(rows, id, input).None? ==> forall i :: 0 <= i < |rows| && i != k ==> after[i] == rows[i])
  {
    var after := Update(rows, catalogue, id, input).1;
    if |input.skillIds| > 0 {
      forall s ensures s in after[k].skills <==> s in catalogue && s.id in input.skillIds {
        FilterMembership(catalogue, (s: Skill) => s.id in input.skillIds, s);
      }
    }
  }

  /** No two employees share a position. */
  predicate UniquePositions(rows: seq<Record>)
  {
    forall i, j :: 0 <= i < j < |rows| ==> rows[i].ceId != rows[j].ceId || rows[i].sectorId != rows[j].sectorId
  }

  /** An update naming both the CE and the sector keeps positions unique. */
  lemma UniquePositionsKept(rows: seq<Record>, catalogue: seq<Skill>, id: nat, input: UpdateInput)
    requires IdsIncreasing(rows) && UniquePositions(rows)
    requires input.ceId.Some? && input.sectorId.Some?
    ensures UniquePositions(Update(rows, catalogue, id, input).1)
  {
    var after := Update(rows, catalogue, id, input).1;
    match RowOf(rows, id)
    case None =>
    case Some(k) =>
      match Conflict(rows, id, input)
      case None =>
        forall i, j | 0 <= i < j < |after|
          ensures after[i].ceId != after[j].ceId || after[i].sectorId != after[j].sectorId
        {
          if i == k {
            assert !Occupies(rows[j], input.ceId.value, input.sectorId.value, id);
          } else if j == k {
            assert !Occupies(rows[i], input.ceId.value, input.sectorId.value, id);
          }
        }
      case Some(o) =>
        if input.swap {
          assert o != k;
          forall i, j | 0 <= i < j < |after|
            ensures after[i].ceId != after[j].ceId || after[i].sectorId != after[j].sectorId
          {
            if i == k || j == k || i == o || j == o {
              PositionsOfSwap(rows, after, k, o, i, j);
            }
          }
        }
  }

  /** After the exchange, the two rows hold each other's old positions. */
  lemma PositionsOfSwap(rows: seq<Record>, after: seq<Record>, k: nat, o: nat, i: nat, j: nat)
    requires UniquePositions(rows) && |after| == |rows| && k < |rows| && o < |rows| && k != o
    requires after[k].ceId == rows[o].ceId && after[k].sectorId == rows[o].sectorId
    requires after[o].ceId == rows[k].ceId && after[o].sectorId == rows[k].sectorId
    requires forall x :: 0 <= x < |rows| && x != k && x != o ==> after[x] == rows[x]
    requires i < j < |rows|
    ensures after[i].ceId != after[j].ceId || after[i].sectorId != after[j].sectorId
  {
    var pi := if i == k then o else if i == o then k else i;
    var pj := if j == k then o else if j == o then k else j;
    assert after[i].ceId == rows[pi].ceId && after[i].sectorId == rows[pi].sectorId;
    assert after[j].ceId == rows[pj].ceId && after[j].sectorId == rows[pj].sectorId;
    assert pi != pj;
    if pi < pj {
      assert rows[pi].ceId != rows[pj].ceId || rows[pi].sectorId != rows[pj].sectorId;
    } else {
      assert rows[pj].ceId != rows[pi].ceId || rows[pj].sectorId != rows[pi].sectorId;
    }
  }

  /** Giving only the sector skips the conflict check, so two employees can
      end up in one position. */
  lemma SectorOnlyUpdateCanCollide()
    ensures var rows := [Record(1, "A", 1, 1, []), Record(2, "B", 1, 2, [])];
      && IdsIncreasing(rows) && UniquePositions(rows)
      && var after := Update(rows, [], 1, UpdateInput("", None, Some(2), [], false)).1;
         !UniquePositions(after)
  {
    var rows := [Record(1, "A", 1, 1, []), Record(2, "B", 1, 2, [])];
    assert RowOf(rows, 1) == Some(0) by {
      assert Ids(rows)[0] == 1;
    }
    var after := Update(rows, [], 1, UpdateInput("", None, Some(2), [], false)).1;
    assert after[0].ceId == 1 && after[0].sectorId == 2;
    assert after[1] == rows[1];
  }
}
