# Planning Hager in Dafny

This project models the scheduling core of Planning Hager, a staff-planning application for a workshop that runs in CE teams (`CE` is the application's name for a team) across sectors and three shifts a day. It has two parts:

- a React front end:
  - the 4-week team rotation `generateShiftSchedule`;
  - the week views and their grids;
  - the staff table with its search;
- a Go/gorm back end:
  - the employee update with its position swap;
  - the planning update and listing;
  - the week start date.

The modules, one per source file plus a shared base:

- `Base`: shared pieces of JavaScript semantics: `Option`, `Outcome` (a value or a thrown TypeError), `indexOf`, `filter`, `find`, `some`, truncating `%`, ASCII `toLowerCase`, `includes`
- `Shift`: `hager-gui/src/utils/shift.tsx`
- `ShiftJsx`: `hager-gui/src/utils/shift.jsx`, with its own tables and a proof that it agrees with `Shift` everywhere
- `PlanningView`: `hager-gui/src/components/Planning.tsx`
- `PlanningViewJsx`: `hager-gui/src/components/Planning.jsx`
- `PlanningGrid`: `generateTableData` in `hager-gui/src/components/PlanningGrid.jsx`
- `EmployeeGrid`: `hager-gui/src/components/EmployeeGrid.tsx`
- `EmployeeHandler`: `UpdateEmployee` in `handlers/employee.go`
- `PlanningHandler`: `getWeekStartDate`, `UpdatePlanning` and `GetPlannings` in `handlers/planning.go`

How the source's values are represented:

- **Schedules.** A JavaScript object built with spread is an insertion-ordered list of `(day, code)` entries. A repeated key keeps its place and takes the new value.
- **Throws.** A property read on `undefined` is an `Outcome.Thrown`, for example an unknown pattern name, or a row index before the first row.
- **Go `*uint` fields.** These are `Option<nat>`.
- **Database tables.** A table is a sequence of live rows in increasing primary-key order, so gorm's `First` is the first match in the sequence.
- **Imperative code.** Code that mutates state step by step becomes methods with loops, or a class with `modifies` clauses:
  - `generateTableData`;
  - the skills `reduce`;
  - the row merge;
  - the grid builders;
  - `UpdateEmployee`;
  - `UpdatePlanning`;
  - `getWeekStartDate`.

  Each such method is tied by its postcondition to a specification function, and the lemmas are proved about that function.

Behaviour of the code that the model keeps, where a reader might expect otherwise:

- **No error results.** The scheduler has no error result for an unknown team or pattern:
  - An unknown team gets `{Mo: 'M'}` in slot -1 or 3.
  - An unknown pattern throws, but only in slots 0-2.
- **Unused columns.** The `afternoon` and `night` columns of `SHIFT_CYCLE` are never read (`Shift.UnusedCycleColumns`). Read as rosters, they disagree with the rotation the code computes.
- **`*uint` assignment.** `UpdatePlanning` assigns a `uint` to the `*uint` fields `SectorID` and `EmployeeID` (handlers/planning.go:131,135). That does not compile. The model follows the evident intent and stores the given id as present.
- **Stale week.** `UpdatePlanning` stores a new `Date` without recomputing `Week` or `Year` (`PlanningHandler.SavedFields`). A moved entry therefore stays listed under its old week.
- **No conflict check with one field.** The position-conflict check of `UpdateEmployee` runs only when both `CEID` and `SectorID` are given. Giving only one of them can put two employees in one position (`EmployeeHandler.SectorOnlyUpdateCanCollide`).

## Model

| member | source | states |
|---|---|---|
| Base.IndexOf | hager-gui/src/utils/shift.tsx:39 | `indexOf` is -1 exactly when the value is absent; otherwise it is the first position holding it |
| Base.IndexOfIs | hager-gui/src/utils/shift.tsx:39 | `indexOf` gives the first position holding the value |
| Base.JsRem4 | hager-gui/src/utils/shift.tsx:38-40 | JavaScript `% 4` equals Euclidean `% 4` on non-negative operands; on negative ones it is 0 or negative, never below -3 |
| Base.Find | hager-gui/src/components/Planning.tsx:639 | `find` gives nothing exactly when no element passes; otherwise it gives the first element that passes |
| Base.Any | hager-gui/src/components/Planning.tsx:352 | `some` holds exactly when some element passes |
| Base.FilterIsSubsequence | hager-gui/src/components/Planning.tsx:257 | `filter` keeps a subsequence of its input, in order |
| Base.FilterMembership | hager-gui/src/components/Planning.tsx:257 | `filter` keeps an element exactly when it is in the input and passes |
| Base.FilterKeepsAll | hager-gui/src/components/EmployeeGrid.tsx:166-171 | a filter every element passes keeps the whole list |
| Base.FilterKeepsNone | hager-gui/src/components/Planning.tsx:634-636 | a filter no element passes gives the empty list |
| Base.FindInFilter | hager-gui/src/components/Planning.tsx:636-651 | finding in a filtered list gives the first element that passes both tests |
| Base.FindInFilterNone | hager-gui/src/components/Planning.tsx:634-648 | finding in a filtered list gives nothing when no element passes both tests |
| Base.Lower | hager-gui/src/components/EmployeeGrid.tsx:166-171 | `toLowerCase` maps each ASCII capital to its small letter and keeps the length |
| Base.LowerIdempotent | hager-gui/src/components/EmployeeGrid.tsx:166-171 | lowercasing twice is lowercasing once |
| Base.IncludesEmpty | hager-gui/src/components/EmployeeGrid.tsx:166-171 | every string includes the empty string |
| Shift.PatternNamed | hager-gui/src/utils/shift.tsx:17-33 | a pattern exists exactly for '4x8 L', '4x8 N' and '4x8 C' |
| Shift.Put | hager-gui/src/utils/shift.tsx:46 | object spread with `[day]: c`: the key set gains `day`, `day` reads `c`, other keys are unchanged, distinct keys stay distinct, and a new key is appended |
| Shift.Lookup | hager-gui/src/utils/shift.tsx:46-52 | reading a property of the object finds a value exactly when the key is present |
| Shift.FillKeys | hager-gui/src/utils/shift.tsx:46-50 | the object built over a day list has exactly those days as keys, each with the one code |
| Shift.AssignAllAppends | hager-gui/src/utils/shift.tsx:46-50 | reducing over distinct new days appends them in order |
| Shift.KeysAppend | hager-gui/src/utils/shift.tsx:50 | the keys of two objects written one after the other are the keys of each, in order |
| Shift.FillFromEmpty | hager-gui/src/utils/shift.tsx:46-50 | reducing distinct days from `{}` gives exactly those days in order, each with the one code |
| Shift.ShiftIndex | hager-gui/src/utils/shift.tsx:38-40 | the slot, computed with truncating `%`, lies strictly between -4 and 4 |
| Shift.GenerateShiftSchedule | hager-gui/src/utils/shift.tsx:37-56 | the call throws exactly when the pattern is unknown and the slot is 0, 1 or 2 |
| Shift.PatternsWellFormed | hager-gui/src/utils/shift.tsx:17-33 | every day list of every pattern has no repeats, and no night list holds Friday |
| Shift.ShiftIndexOfKnownCe | hager-gui/src/utils/shift.tsx:13-40 | for a known CE from week 1 on, the slot is `(indexOf + (week-1) mod 4) mod 4`, in 0..3 |
| Shift.ShiftIndexOfUnknownCe | hager-gui/src/utils/shift.tsx:38-40 | for an unknown CE, the slot is `(week-1) mod 4 - 1`, which is -1 in the first week of the cycle |
| Shift.DependsOnCycleWeek | hager-gui/src/utils/shift.tsx:38 | from week 1 on, two weeks with the same `(week-1) mod 4` give the same result |
| Shift.Periodic | hager-gui/src/utils/shift.tsx:38 | from week 1 on, weeks `w` and `w+4` give the same result |
| Shift.RotationPositions | hager-gui/src/utils/shift.tsx:13-15 | CEs 1, 4, 3, 2 sit at rotation positions 0, 1, 2, 3 |
| Shift.RotateInjective | hager-gui/src/utils/shift.tsx:40 | two different rotation positions moved by the same week are still different slots |
| Shift.Coverage | hager-gui/src/utils/shift.tsx:13-40 | in every week the four CEs hold four different slots, and each slot 0-3 is held by one of them |
| Shift.HolderHoldsSlot | hager-gui/src/utils/shift.tsx:13-40 | the CE named by `SlotHolder(k, w)` holds slot `k` in week `w` |
| Shift.MorningBranch | hager-gui/src/utils/shift.tsx:45-46 | slot 0 gives the morning days, in order, each `M`, and no other key |
| Shift.AfternoonBranch | hager-gui/src/utils/shift.tsx:47-48 | slot 1 gives the afternoon days, in order, each `S`, and no other key |
| Shift.NightBranch | hager-gui/src/utils/shift.tsx:49-50 | slot 2 gives the night days as `N` followed by Friday as `S`; the key set is the night days plus Friday |
| Shift.FallbackBranch | hager-gui/src/utils/shift.tsx:51-52 | any other slot gives exactly `{Mo: 'M'}`, whatever the pattern |
| Shift.UnknownCeWeekOne | hager-gui/src/utils/shift.tsx:38-53 | an unknown CE in week 1 gets `{Mo: 'M'}` |
| Shift.CeOneLong | hager-gui/src/utils/shift.tsx:13-53 | CE 1 under '4x8 L' gets Tu-Sa `M` in cycle week 1, Mo-Th `S` in week 2, Su, Mo, Tu `N` plus Fr `S` in week 3, and `{Mo: 'M'}` in week 4 |
| Shift.CeOneSlot | hager-gui/src/utils/shift.tsx:13-40 | CE 1's slot is the week's position in the cycle |
| Shift.CeOneMorning | hager-gui/src/utils/shift.tsx:18-46 | CE 1 in a morning week under '4x8 L' gets Tu to Sa as `M` |
| Shift.CeOneAfternoon | hager-gui/src/utils/shift.tsx:18-48 | CE 1 in an afternoon week under '4x8 L' gets Mo to Th as `S` |
| Shift.CeOneNight | hager-gui/src/utils/shift.tsx:18-50 | CE 1 in a night week under '4x8 L' gets Su, Mo, Tu as `N` and then Fr as `S` |
| Shift.UnusedCycleColumns | hager-gui/src/utils/shift.tsx:13-15 | the afternoon and night columns are the morning column rotated; in week 1 the code puts CE 4 on the afternoon where the column names CE 2 |
| ShiftJsx.PatternNamedJsx | hager-gui/src/utils/shift.jsx:5-21 | a pattern of the copy exists exactly for the three names |
| ShiftJsx.GenerateShiftScheduleJsx | hager-gui/src/utils/shift.jsx:23-42 | the copy throws exactly when the pattern is unknown and the slot is 0-2 |
| ShiftJsx.SameTables | hager-gui/src/utils/shift.jsx:1-21 | both of the copy's tables equal those of shift.tsx |
| ShiftJsx.Agrees | hager-gui/src/utils/shift.jsx:23-42 | the copy returns what shift.tsx returns on every input |
| ShiftJsx.ShiftIndexRange | hager-gui/src/utils/shift.jsx:1-26 | for a known CE from week 1 on, the slot follows the rotation and lies in 0..3 |
| ShiftJsx.DependsOnCycleWeekJsx | hager-gui/src/utils/shift.jsx:24 | the copy depends on the week only through `(week-1) mod 4` |
| ShiftJsx.MorningBranchJsx | hager-gui/src/utils/shift.jsx:16-32 | slot 0 gives the morning days, each `M`; under '4x8 C' Saturday is not among them |
| ShiftJsx.AfternoonBranchJsx | hager-gui/src/utils/shift.jsx:33-34 | slot 1 gives the afternoon days, each `S`, and no other key |
| ShiftJsx.NightBranchJsx | hager-gui/src/utils/shift.jsx:35-36 | slot 2 gives the night days as `N` plus Friday as `S` |
| ShiftJsx.FallbackBranchJsx | hager-gui/src/utils/shift.jsx:37-38 | any other slot gives exactly `{Mo: 'M'}` |
| PlanningView.IsEmployeeCompetent | hager-gui/src/components/Planning.tsx:342-355 | false for an absent employee, an absent sector id or sector id 0; otherwise true exactly when the employee's skill ids and the sector's required skill ids share one |
| PlanningView.NoSkillsNoCompetence | hager-gui/src/components/Planning.tsx:348-352 | an employee without skills, or a sector without required skills, is never competent |
| PlanningView.GroupSkillsBySector | hager-gui/src/components/Planning.tsx:134-140 | the grouping has a key exactly for each sector some item names, and each sector's list is its items' skill ids in input order |
| PlanningView.SkillsOfUnnamed | hager-gui/src/components/Planning.tsx:134-140 | a sector no item names has an empty list |
| PlanningView.SkillsOfMembership | hager-gui/src/components/Planning.tsx:134-140 | a skill is in a sector's list exactly when some item pairs them |
| PlanningView.LayoutRows | hager-gui/src/components/Planning.tsx:601-632 | the layout is the 18 listed rows: M, S, N for Lu to Ve, then Sa-M, VSD and Di-N, with their class names |
| PlanningView.WeekdayRows | hager-gui/src/components/Planning.tsx:624-630 | a weekday other than Sa and Di yields its M, S and N rows, keyed `${day}-${shift}` |
| PlanningView.RowsLu | hager-gui/src/components/Planning.tsx:626-632 | Lu yields rows Lu-M, Lu-S, Lu-N with class `even-day Lu-row` |
| PlanningView.RowsMa | hager-gui/src/components/Planning.tsx:626-632 | Ma yields rows Ma-M, Ma-S, Ma-N with class `odd-day Ma-row` |
| PlanningView.RowsMe | hager-gui/src/components/Planning.tsx:626-632 | Me yields rows Me-M, Me-S, Me-N with class `even-day Me-row` |
| PlanningView.RowsJe | hager-gui/src/components/Planning.tsx:626-632 | Je yields rows Je-M, Je-S, Je-N with class `odd-day Je-row` |
| PlanningView.RowsVe | hager-gui/src/components/Planning.tsx:626-632 | Ve yields rows Ve-M, Ve-S, Ve-N with class `even-day Ve-row` |
| PlanningView.RowsSa | hager-gui/src/components/Planning.tsx:603-614 | Sa yields the Sa-M row and the VSD row |
| PlanningView.RowsDi | hager-gui/src/components/Planning.tsx:615-625 | Di yields only the Di-N row |
| PlanningView.LayoutKeysDistinct | hager-gui/src/components/Planning.tsx:601-632 | the layout has 18 rows with pairwise distinct keys |
| PlanningView.KeyCodesDistinct | hager-gui/src/components/Planning.tsx:601-632 | the 18 row keys have pairwise distinct codes, which is how their distinctness is proved |
| PlanningView.CellFor | hager-gui/src/components/Planning.tsx:647-656 | a sector cell keeps the sector's id; it is filled exactly when some entry of the slot is for that sector, and then from the first such entry |
| PlanningView.MergeRows | hager-gui/src/components/Planning.tsx:633-660 | each row is merged with the entries of its day and shift, and the row count is kept |
| PlanningView.CeFromFirstEntry | hager-gui/src/components/Planning.tsx:639-645 | a row's CE and planning id come from the first entry of its slot that has a CE |
| PlanningView.CeUnsetWithoutCeEntry | hager-gui/src/components/Planning.tsx:639-645 | when no entry of the slot has a CE, the row's CE and planning id stay unset |
| PlanningView.CellFilledIff | hager-gui/src/components/Planning.tsx:637-656 | in a row with entries, cell `j` is for sector `j` and is filled exactly when an entry of the slot is for that sector |
| PlanningView.UnmatchedRowStaysBlank | hager-gui/src/components/Planning.tsx:601-659 | a layout row with no entry of its slot keeps no sectors, no CE and no planning id |
| PlanningView.SubstituteCandidates | hager-gui/src/components/Planning.tsx:257-259 | the candidates are exactly the competent employees other than the entry's own, in order. A missing sector throws when the list is non-empty. A missing employee throws when someone is competent |
| PlanningView.HandleStatusChange | hager-gui/src/components/Planning.tsx:252-288 | a status other than the three absences updates directly; an absence with no entry of that id does nothing |
| PlanningView.CandidatesCompetentAndOthers | hager-gui/src/components/Planning.tsx:252-259 | every offered substitute is competent for the entry's sector and is not its own employee |
| PlanningView.FrenchNameTranslates | hager-gui/src/components/Planning.tsx:31-39 | `frenchToEnglishDay` maps each French day name to the English key of the same day |
| PlanningView.DayOffsetAsWrittenMisses | hager-gui/src/components/Planning.tsx:329-333 | as written, the English schedule key is found in the French `DAYS` only for Saturday; every other day gives -1 |
| PlanningView.DayOffset | hager-gui/src/components/Planning.tsx:15-39 | with the key translated first, the offset is a valid index holding that day's French name |
| PlanningView.DayOffsetsInOrder | hager-gui/src/components/Planning.tsx:15-39 | the corrected offsets run Monday 0 to Sunday 6 |
| PlanningView.DayOffsetInjective | hager-gui/src/components/Planning.tsx:15-39 | different days get different corrected offsets |
| PlanningView.AddCeOffsets | hager-gui/src/components/Planning.tsx:192-333 | the corrected offsets posted per schedule entry are valid indexes naming each entry's day |
| PlanningView.AddCeOffsetsAsWritten | hager-gui/src/components/Planning.tsx:192-333 | as written, one offset is posted per schedule entry |
| PlanningView.OffsetsOfSchedule | hager-gui/src/components/Planning.tsx:192-333 | per schedule entry: as written, the offset is 5 for Saturday and -1 otherwise; corrected, it is the day's number |
| PlanningView.AddCeMorningCollides | hager-gui/src/components/Planning.tsx:192-333 | a morning schedule starts with Tuesday and Wednesday, which as written both post offset -1, and corrected post 1 and 2 |
| PlanningViewJsx.IsEmployeeCompetent | hager-gui/src/components/Planning.jsx:82-87 | competent exactly when the employee's and the sector's skill ids share one, which needs both lists to be non-empty |
| PlanningViewJsx.CompetentEmployeesExactly | hager-gui/src/components/Planning.jsx:115-117 | the menu offers exactly the sector's own employees who share a skill with it, in order |
| PlanningViewJsx.CellFor | hager-gui/src/components/Planning.jsx:155-161 | a cell keeps the sector's id and carries an employee exactly when an entry of the slot is for that sector, taken from the first one |
| PlanningViewJsx.BuildGrid | hager-gui/src/components/Planning.jsx:146-168 | 21 rows, day-major over Lu..Di and M, S, N, keyed `${day}-${shift}`, each with one cell per sector in sector order |
| PlanningViewJsx.CeOfFirstEntry | hager-gui/src/components/Planning.jsx:150-154 | a row's CE is the CE of the first entry of its slot, and unset when there is none |
| PlanningViewJsx.CellHasEmployeeIff | hager-gui/src/components/Planning.jsx:155-160 | cell `j` is for sector `j` and has an employee exactly when an entry of the slot is for that sector |
| PlanningViewJsx.GridKeysDistinct | hager-gui/src/components/Planning.jsx:146-148 | the 21 row keys are pairwise distinct |
| PlanningViewJsx.NamesDistinct | hager-gui/src/components/Planning.jsx:146-148 | the day names are two letters each and pairwise different, and the shift names one letter each and pairwise different |
| PlanningGrid.InitialTable | hager-gui/src/components/PlanningGrid.jsx:180-190 | the initial table has 21 rows |
| PlanningGrid.RowIndex | hager-gui/src/components/PlanningGrid.jsx:193-195 | the target index lies between -4 and 20 |
| PlanningGrid.SetCells | hager-gui/src/components/PlanningGrid.jsx:198-200 | a name is a cell after the writes exactly when it was one before or the item lists it; a listed name holds the last listed employee, others keep their value |
| PlanningGrid.ApplyItem | hager-gui/src/components/PlanningGrid.jsx:196-200 | one item rewrites its target row and leaves every other row as it was |
| PlanningGrid.ApplyAll | hager-gui/src/components/PlanningGrid.jsx:192-201 | writing the items one after the other keeps the table's 21 rows |
| PlanningGrid.NewRow | hager-gui/src/components/PlanningGrid.jsx:184-187 | a new row carries the label, a null CE and a null cell for every sector name |
| PlanningGrid.NewTable | hager-gui/src/components/PlanningGrid.jsx:182-190 | the nested loops build the initial table |
| PlanningGrid.GenerateTableData | hager-gui/src/components/PlanningGrid.jsx:176-204 | throws exactly when some item's index is negative; otherwise the result is the initial table with all items written in order |
| PlanningGrid.InitialRows | hager-gui/src/components/PlanningGrid.jsx:182-190 | row `i` is labelled `${days[i/3]} ${shifts[i%3]}`, has a null CE, and has a null cell for every sector name and no other |
| PlanningGrid.UntouchedRow | hager-gui/src/components/PlanningGrid.jsx:192-201 | a row no item targets is unchanged |
| PlanningGrid.CeOfLastItem | hager-gui/src/components/PlanningGrid.jsx:192-197 | a row's final CE is the CE of the last item targeting it |
| PlanningGrid.CellOfLastItem | hager-gui/src/components/PlanningGrid.jsx:198-200 | a cell's final value is the employee of the last item that targets the row and lists that sector |
| PlanningGrid.CellUnwritten | hager-gui/src/components/PlanningGrid.jsx:198-200 | a cell that no targeting item lists keeps its value and its presence |
| PlanningGrid.RowIndexOutOfTable | hager-gui/src/components/PlanningGrid.jsx:193-196 | an unknown day, or Monday with an unknown shift, gives a negative index; an unknown shift on a later day targets the previous day's night row |
| EmployeeGrid.BuildRow | hager-gui/src/components/EmployeeGrid.tsx:406-415 | a row is keyed by the CE's id and name, with a cell exactly for each sector name; each name holds the cell of the last sector with that name |
| EmployeeGrid.BuildData | hager-gui/src/components/EmployeeGrid.tsx:405-417 | one row per CE, in CE order |
| EmployeeGrid.CellListsExactly | hager-gui/src/components/EmployeeGrid.tsx:407-414 | a cell shows exactly the employees with that CE id and sector id, in list order |
| EmployeeGrid.ViewAllSubsequence | hager-gui/src/components/EmployeeGrid.tsx:408-414 | mapping a subsequence of employees to cell entries gives a subsequence of the mapped whole list |
| EmployeeGrid.InOneCellOnly | hager-gui/src/components/EmployeeGrid.tsx:408-409 | an employee is listed under one CE id and one sector id only |
| EmployeeGrid.SearchEmployeesExactly | hager-gui/src/components/EmployeeGrid.tsx:166-171 | search keeps, in order, exactly the employees whose name, CE name, sector name or some skill name contains the query, ignoring case |
| EmployeeGrid.SearchReservistsExactly | hager-gui/src/components/EmployeeGrid.tsx:155-177 | the reservist filter keeps, in order, exactly the reservists whose name or some skill name contains the query |
| EmployeeGrid.EmptyQueryKeepsAll | hager-gui/src/components/EmployeeGrid.tsx:166-177 | an empty query keeps every employee and every reservist |
| EmployeeGrid.WithoutIdExactly | hager-gui/src/components/EmployeeGrid.tsx:346-350 | the local list loses exactly the entries with the deleted id, and the others keep their order |
| EmployeeGrid.GridState.HandleSearch | hager-gui/src/components/EmployeeGrid.tsx:164-178 | sets the search text and both filtered lists from the query, and nothing else |
| EmployeeGrid.GridState.FilterReservists | hager-gui/src/components/EmployeeGrid.tsx:155-161 | re-filters the reservists with the reservist search text, and nothing else |
| EmployeeGrid.GridState.HandleDelete | hager-gui/src/components/EmployeeGrid.tsx:340-356 | after an accepted delete, the CE or sector list drops that id and the refreshed employees replace both lists; a refused delete changes nothing |
| EmployeeHandler.RowOf | handlers/employee.go:104-109 | the employee found has the requested id; none is found exactly when no row has it |
| EmployeeHandler.Occupant | handlers/employee.go:114 | the occupant is the first row at the position other than the edited one; there is none exactly when no row is |
| EmployeeHandler.OccupantLowestId | handlers/employee.go:114 | the occupant has the lowest primary key among the rows at that position |
| EmployeeHandler.Conflict | handlers/employee.go:113-114 | a conflict is only looked for when both CE and sector are given, and names a row at that position other than the edited one |
| EmployeeHandler.Update | handlers/employee.go:87-211 | the table keeps its length and its primary keys |
| EmployeeHandler.Store.UpdateEmployee | handlers/employee.go:87-211 | the step-by-step field updates give the response and the table that `Update` specifies, and primary keys stay increasing |
| EmployeeHandler.IdsKeepIncreasing | handlers/employee.go:131-161 | saving rows in place keeps primary keys in increasing order |
| EmployeeHandler.NotFoundIff | handlers/employee.go:105-109 | 404 exactly for an unknown id, and then the table is unchanged |
| EmployeeHandler.RequiresSwapIff | handlers/employee.go:113-123 | a swap is requested exactly when the employee exists, both fields are given, another row holds the position and `swap` is false; it names that row, and the table is unchanged |
| EmployeeHandler.SwapExchangesPositions | handlers/employee.go:124-159 | with `swap`, the edited employee ends at the occupant's position, the occupant takes the edited employee's old one, and no other row changes |
| EmployeeHandler.PartialUpdate | handlers/employee.go:151-190 | an empty name, or an absent CE or sector, keeps that field, and a given one overwrites it. Skills are replaced by the known skills with the given ids only when ids are given. Without a conflict, no other row changes |
| EmployeeHandler.UniquePositionsKept | handlers/employee.go:113-159 | an update naming both CE and sector keeps at most one employee per position |
| EmployeeHandler.PositionsOfSwap | handlers/employee.go:124-146 | exchanging two rows' positions keeps every position held by at most one employee |
| EmployeeHandler.SectorOnlyUpdateCanCollide | handlers/employee.go:113-159 | giving only the sector skips the check, and two employees can end up in one position |
| PlanningHandler.FirstMondayFrom | handlers/planning.go:167-170 | the search stops at a Monday at most 6 days on, and passes no Monday before it |
| PlanningHandler.Weekday | handlers/planning.go:168 | the weekday of a day number is in 0..6, with 0 for Monday |
| PlanningHandler.GetWeekStartDate | handlers/planning.go:163-176 | the loop's result is the first Monday on or after January 1 plus `week-1` weeks |
| PlanningHandler.WeekStartIsMonday | handlers/planning.go:168-173 | every week start is a Monday, and week 1 starts within 6 days of January 1 |
| PlanningHandler.ConsecutiveWeeks | handlers/planning.go:173 | consecutive weeks start exactly 7 days apart |
| PlanningHandler.Atoi | handlers/planning.go:18 | a value `Atoi` accepts fits in 64 bits, and the empty string is refused |
| PlanningHandler.AtoiItoa | handlers/planning.go:18 | every 64-bit integer written in decimal reads back as itself |
| PlanningHandler.DigitsValueOfDigits | handlers/planning.go:18 | the decimal digits of a number read back as that number |
| PlanningHandler.AtoiRefusesNonDigits | handlers/planning.go:18-23 | a string with a non-digit after the optional sign is refused |
| PlanningHandler.ParseDate | handlers/planning.go:117 | a date the layout accepts has a four-digit year, a month in 1-12 and a day within that month |
| PlanningHandler.ParseFormat | handlers/planning.go:117 | every valid date written as `YYYY-MM-DD` parses back to itself |
| PlanningHandler.FormatParse | handlers/planning.go:117 | every accepted string is the `YYYY-MM-DD` form of its date |
| PlanningHandler.PadValue | handlers/planning.go:117 | a number below 10^width, zero-padded to width digits, reads back as itself |
| PlanningHandler.PadOfValue | handlers/planning.go:117 | a fixed-width digit string is the zero-padded form of its value |
| PlanningHandler.DatePieces | handlers/planning.go:117 | a date glued as `YYYY-MM-DD` has ten characters, with the year at 0-3, the month at 5-6, the day at 8-9 and dashes between |
| PlanningHandler.UpdatePlanningSpec | handlers/planning.go:88-149 | the table keeps its length |
| PlanningHandler.RowOf | handlers/planning.go:105-114 | the entry found is the first with that id; none is found exactly when no row has it |
| PlanningHandler.RowOfSameIds | handlers/planning.go:105-142 | two tables with the same ids find the same row for an id |
| PlanningHandler.PlanningStore.UpdatePlanning | handlers/planning.go:88-149 | the field-by-field overwrite gives the response and the table that `UpdatePlanningSpec` specifies |
| PlanningHandler.PlanningStore.GetPlannings | handlers/planning.go:16-36 | 400 exactly when `week` is not an integer; otherwise exactly that week's entries, in table order |
| PlanningHandler.PlanningNotFoundIff | handlers/planning.go:105-114 | 404 exactly for an unknown id, and nothing is saved |
| PlanningHandler.InvalidDateIff | handlers/planning.go:116-122 | 400 exactly when the entry exists and a given date does not parse, and nothing is saved |
| PlanningHandler.SavedFields | handlers/planning.go:116-148 | each non-empty or non-zero field overwrites the stored one and the others are kept; week and year are not recomputed; no other entry changes |
| PlanningHandler.UpdateIdempotent | handlers/planning.go:116-142 | sending the same update twice leaves every modelled field of the table as sending it once |

## Left out

- Network and I/O: every `api` request, `message` toast, log line, modal and rendered element. Where a result matters it is a parameter: `GridState.HandleDelete` takes whether the delete was accepted and what the refresh returned.
- The database: queries, transactions and 500 errors (save, commit, skill fetch, `updateEmployeePlanning` failures). Also the 400 for a body that does not decode. Tables are sequences of live rows, and soft-deleted rows are not in them.
- `updateEmployeePlanning` (handlers/employee.go:213-267): it reads the clock and runs query-driven bulk updates.
- Date library arithmetic:
  - `getDateFromDayAndWeek` (dayjs), whose day offset alone is modelled;
  - `ISOWeek`;
  - `Format("Mon")` in `formatPlanningResponse`. `GetPlannings` returns the selected rows, not the formatted response.
  - `getWeekStartDate` counts days, and is given January 1 as a day number rather than a year.
- `toLowerCase` and `includes` cover ASCII letters only: no Unicode case mapping.
- PlanningViewJsx.CellFor: an entry without a sector would throw at `entry.sector.id`. The model always gives entries a sector.
- PlanningViewJsx.IsEmployeeCompetent: an employee without `Skills`, or a sector without `RequiredSkills`, would throw. The model always gives both lists.
- EmployeeGrid.BuildRow: `key` and `ceName` are held apart from the sector cells. A sector named `key` or `ceName` overwrites that property in the source, and the model does not capture that collision.
- PlanningGrid.GenerateTableData: row objects are values. `shift` and `ce` are held apart from the sector cells, so how a sector named `shift` or `ce` collides with them is not captured.
- PlanningGrid.GenerateTableData: the thrown result drops the writes made before the throw. The source mutates `data` in place, but the throw discards it anyway.
- EmployeeHandler.Store.UpdateEmployee: `id` is a number. The source passes the path text to gorm, and what gorm does with a non-numeric id is not modelled.
- PlanningHandler.PlanningStore.UpdatePlanning: `id` is a number. The source passes the path text of `c.Param("id")` to gorm's `First`, and what gorm does with a non-numeric id is not modelled.
- PlanningHandler.Planning and EmployeeHandler.Record: the `CreatedAt`, `UpdatedAt` and `DeletedAt` columns that `gorm.Model` embeds are not modelled. Every `Save` re-stamps `UpdatedAt`, so `UpdateIdempotent` holds of the modelled columns only.
- PlanningGrid.GenerateTableData: an item with a known day and shift but without `sectors` would throw at `item.sectors.forEach`. The model always gives items the list, so it throws only for a negative row index.
- EmployeeHandler.Store.UpdateEmployee: the CE and sector of the reloaded response are not modelled.
- PlanningHandler.Atoi: assumes a 64-bit `int`.
- Authentication, routing, and the CRUD handlers for CEs, sectors, skills and reservists are not part of this model.

## Findings

| source | as written | input that shows it | evidently intended | confidence | as-written member | corrected member |
|---|---|---|---|---|---|---|
| hager-gui/src/components/Planning.tsx:329-333 | `handleAddCE` (line 197) passes the schedule's English day keys (`Tu`, `We`, ...) to `getDateFromDayAndWeek`, which looks them up in the French `DAYS` list. Every day but `Sa` gives -1, so all those entries are posted for the day before the week starts | CE 1, week 1, pattern '4x8 L': `Tu`, `We`, `Th` and `Fr` all post offset -1 | translate the key with the inverse of `frenchToEnglishDay` first, so Monday to Sunday post offsets 0 to 6 | high, not executed | PlanningView.AddCeMorningCollides | PlanningView.DayOffsetsInOrder |
