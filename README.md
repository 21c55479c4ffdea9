# Operator scheduling: a verified model of the schedule mutations

The application plans the week for a team of field operators (four
"Operatrice" and three "Jolly" floaters) and for the work sites they serve.
Each operator has a week of seven days, and each day holds a list of work
items. An item has an id, a time label such as `"6:50 - 8:30"`, an activity
and an hours figure.

Relocating an item works like this:

1. The item is dragged onto another day of any operator.
2. A dialog opens, seeded with the item's two times, and lets the user adjust them.
3. Save stays disabled until the window is valid.
4. Confirming removes the item from its source day and appends a retimed copy
   to the target day, which is then re-sorted by start time.

Operators can be renamed. Blank names are ignored and names are trimmed.

Work sites are a separate list. Each site has a name and, for every day of
the week, a list of shifts (start, end, operator count). Shifts can be added,
edited one field at a time and deleted. Sites can be added and deleted.

The model is written in Dafny. Its modules follow the structure of the
component:

- `Text`: JavaScript's `trim`.
- `TimeWindow`: times, the `"S - E"` label, the `isTimeValid` gate and the derived hours.
- `StableSort`: the engine's stable comparator sort.
- `Schedule`: items, `splice`, the retimed copy, and push-then-sort by start.
- `Folds`: the `reduce` sums.
- `Roster`: operators, and the pure effect of a move and of a rename.
- `Hours`: daily and weekly totals.
- `InitialData`: the seed week.
- `Relocation`: the `AppState` class. It holds the component's drag, dialog and name-edit state, and its methods are the event handlers.
- `Sites`: the work-site handlers.
- `SharedDays`: the roster as it is actually laid out in memory (see Findings).

Modelling choices:

- **Times** stay strings, so that labels split and rebuild exactly. A time
  means its minute of the day.
- **Hours** are natural numbers in hundredths of an hour.
- **Fresh ids** for new sites are a parameter, constrained to be unused.

## Model

| member | source | states |
|---|---|---|
| Text.Trim | src/App.tsx:198-200 | `trim` result is a contiguous window of the input with only whitespace cut on either side, and it neither starts nor ends with whitespace |
| Text.TrimEmptyIffBlank | src/App.tsx:198 | the trimmed text is empty exactly when the input is all whitespace (the truthiness test of `value.trim()`) |
| Text.TrimIdempotent | src/App.tsx:200 | trimming a trimmed name changes nothing |
| TimeWindow.Clock | src/App.tsx:188-189 | an hour and minute give a time of day exactly when h < 24 and m < 60, and that time decodes back to h and m |
| TimeWindow.ParseTime | src/App.tsx:188-189 | a time that parses is a minute of the day below 1440, written as H:MM or HH:MM with only digits and a colon |
| TimeWindow.ParsedHasNoSpace | src/App.tsx:151 | a parseable time is non-empty and contains no space, so it cannot contain the label separator |
| TimeWindow.FormatTime | src/App.tsx:641 | the HH:MM text a time field holds has five characters with a colon in the middle |
| TimeWindow.ParseShortTime | src/App.tsx:188-189 | an H:MM time such as a seed label's "6:50" denotes the same minute as its zero-padded HH:MM form; with FormatThenParse and ParseThenFormat this fixes the value of every time that parses |
| TimeWindow.FormatThenParse | src/App.tsx:186-190 | every time the field can hold parses back to its minute |
| TimeWindow.ParseThenFormat | src/App.tsx:186-190 | a five-character time that parses is the formatted text of its minute |
| TimeWindow.IsTimeValid | src/App.tsx:186-191 | an empty field fails the gate, and a passing window has two parseable times |
| TimeWindow.DurationMinutes | src/App.tsx:164-166 | the window has a duration exactly when both ends parse, and it is less than a day in either sign |
| TimeWindow.ValidIffPositiveDuration | src/App.tsx:186-191 | the gate admits a window if and only if its duration is positive |
| TimeWindow.StartNotBeforeEndRejected | src/App.tsx:190 | a start equal to or later than the end is rejected |
| TimeWindow.HoursOf | src/App.tsx:164-171 | the hours in hundredths are within half a hundredth of the exact minutes/60, which is what rounding to two decimals gives |
| TimeWindow.HoursOfExact | src/App.tsx:171 | for multiples of three minutes the hundredths are exact |
| TimeWindow.WindowHours | src/App.tsx:164-171 | a valid window is worth a positive number of hours, rounded from its duration |
| TimeWindow.FindSeparator | src/App.tsx:151 | finds the first occurrence of " - " at or after a position, or reports none |
| TimeWindow.Split | src/App.tsx:151 | `split(" - ")` yields at least one piece, and joining the pieces with the separator gives the text back |
| TimeWindow.SplitCutsLeftmost | src/App.tsx:151 | `split(" - ")` cuts at leftmost occurrences: the separator after each piece is the first one in that piece plus the separator, and the last piece holds none |
| TimeWindow.SplitUnique | src/App.tsx:151 | any pieces that join back to the text and are cut at leftmost occurrences are exactly what `split` returns, so Split is pinned down by its two properties |
| TimeWindow.SplitLabel | src/App.tsx:151-170 | splitting a label built from two space-free times gives exactly those times, which also seed the dialog |
| TimeWindow.WindowLabelSeeds | src/App.tsx:151-153 | a window label seeds the dialog with its two times, and rebuilding them gives the label back |
| TimeWindow.ValidWindowLabel | src/App.tsx:170 | the label written for a valid window splits back into its two times and is well formed |
| StableSort.InsertPermutes | src/App.tsx:175-179 | one insertion step adds exactly the inserted element |
| StableSort.InsertSorted | src/App.tsx:175-179 | inserting into a sorted list keeps it sorted |
| StableSort.InsertWithKey | src/App.tsx:175-179 | the inserted element goes after every element with its key |
| StableSort.SortBy | src/App.tsx:175-179 | the sort is a permutation of its input |
| StableSort.SortIsStable | src/App.tsx:175-179 | the output is ordered by key and lists each key's elements in input order |
| StableSort.SortedUnique | src/App.tsx:175-179 | a sorted arrangement with the same per-key order is unique |
| StableSort.SortSortedIdentity | src/App.tsx:175-179 | sorting an already sorted list changes nothing |
| StableSort.PushThenSortPlacesLast | src/App.tsx:174-179 | after push and sort the pushed element follows every element with its key, and each other key keeps its order |
| StableSort.MoveToEndSameOrder | src/App.tsx:162-174 | moving an element to the end keeps the per-key order when no later element shares its key |
| StableSort.ReinsertInOwnPlace | src/App.tsx:162-179 | taking an element out of a sorted list and pushing it back, then sorting, restores the list when no later element shares its key |
| Schedule.Splice | src/App.tsx:162 | `splice(i, 1)` shortens the list by one, keeps earlier positions, shifts later ones down, and removes exactly the item at i |
| Schedule.Retime | src/App.tsx:168-172 | the copy keeps id and activity; its label is exactly `start + " - " + end` and seeds the dialog with those two times; its start key is the new start; its hours are positive, match the new window, and agree with its label |
| Schedule.RetimeOwnTimes | src/App.tsx:151-172 | retiming an item (whose hours match its label) to its own seeded times gives the same item back |
| Schedule.SortByStart | src/App.tsx:175-179 | sorting the target day by start is a permutation |
| Schedule.PushThenSort | src/App.tsx:174-179 | the target day ends up ordered by start, holds its old items plus the new one, with the new item after equal starts and other starts in their old order |
| Schedule.SameSlotRoundTrip | src/App.tsx:151-179 | dropping a sorted day's item back on its own day with unchanged times restores the day, given consistent hours and no later item at the same start |
| Schedule.SameSlotResortsUnsortedDay | src/App.tsx:162-179 | on a day whose second item starts before its first, dropping the second item back onto its own slot with its own times puts it first: the day is re-sorted, not restored |
| Schedule.SameSlotPassesEqualStart | src/App.tsx:162-179 | an item dropped back onto its own slot with its own times ends up after a later item with the same start, so the two swap |
| Folds.SumOfAppend | src/App.tsx:505 | the `reduce` sum over a concatenation is the sum of the two parts |
| Folds.SumOfSplitAt | src/App.tsx:505 | the sum splits around any position |
| Folds.SumOfUpdate | src/App.tsx:505 | replacing one element changes the sum by the difference |
| Folds.SumOfPermutation | src/App.tsx:505 | the sum does not depend on the order of the elements |
| Folds.UnionOfAppend | src/App.tsx:159-179 | the bag over a concatenation is the union of the parts |
| Folds.UnionOfSplitAt | src/App.tsx:159-179 | the bag splits around any position |
| Folds.UnionOfUpdate | src/App.tsx:159-179 | replacing one element exchanges its bag for the new one |
| Roster.SetItems | src/App.tsx:159-174 | writing one operator's day replaces exactly that day's items and leaves names, flags, day labels and every other slot unchanged |
| Roster.SetItemsTwice | src/App.tsx:174 | a second write to the same slot overrides the first |
| Roster.SetItemsUnchanged | src/App.tsx:159 | writing a slot's own items back changes nothing |
| Roster.MoveEffect | src/App.tsx:156-181 | a move changes only the source day and the target day. The source loses the item at its index (`splice`); the target is sorted by start and holds its previous items plus the retimed copy, which comes after equal starts while other starts keep their order (intended semantics, see Findings) |
| Roster.Rename | src/App.tsx:197-204 | a blank value leaves the roster as it is; otherwise only operator i changes, and only its name, to the trimmed value |
| Roster.RenameBlankIsNoOp | src/App.tsx:198 | an all-whitespace name is ignored |
| Roster.SpliceKeepsLabels | src/App.tsx:162 | removing an item keeps every label of the day well formed |
| Roster.SetItemsKeepsValid | src/App.tsx:174 | writing well-formed items into a slot keeps the roster valid |
| Roster.MoveKeepsValid | src/App.tsx:156-181 | a move keeps every day's labels well formed and the week shape intact |
| Roster.RenameKeepsValid | src/App.tsx:197-204 | a rename keeps the roster valid |
| Roster.SameSlotMoveIsNoOp | src/App.tsx:137-181 | dropping an item on its own slot and confirming the seeded times leaves the roster unchanged, under the conditions of SameSlotRoundTrip |
| Hours.AllItems | src/App.tsx:321-323 | flattening the week gives the union of its days' items |
| Hours.WeeklyIsSumOfItems | src/App.tsx:321-323 | the weekly total (sum of daily sums) equals the sum of the hours of all the week's items |
| Hours.WeekSum | src/App.tsx:321-323 | the nested `reduce` equals the sum over the flattened week |
| Hours.PushAddsHours | src/App.tsx:505 | pushing an item adds its hours to the day's total |
| Hours.ReorderKeepsDailyHours | src/App.tsx:505 | re-sorting a day does not change its total |
| Hours.WeekOfOneDay | src/App.tsx:321-323 | a week with one non-empty day totals that day's hours |
| Hours.EmptyWeekTotalsZero | src/App.tsx:321-323 | an empty week totals zero |
| Hours.MondayOnlyWeek | src/App.tsx:321-323 | a Monday of 2.5 and 1.5 hours in an otherwise empty week totals 4 hours |
| Hours.SetItemsBag | src/App.tsx:174 | writing a slot exchanges its old items for the new ones in the roster's bag |
| Hours.SetItemsHours | src/App.tsx:488-490 | writing a slot changes the roster total by the difference of the two lists' hours |
| Hours.MoveConservesItems | src/App.tsx:156-181 | a move replaces the moved item by its retimed copy and every other item stays; the item count is unchanged |
| Hours.MoveHours | src/App.tsx:488-490 | a move changes the total hours only by the moved item's new hours minus its old |
| InitialData.MondayWellFormed | src/App.tsx:46-53 | every seed label of Monday is well formed |
| InitialData.TuesdayWellFormed | src/App.tsx:54-63 | every seed label of Tuesday is well formed |
| InitialData.WednesdayWellFormed | src/App.tsx:64-70 | every seed label of Wednesday is well formed |
| InitialData.ThursdayWellFormed | src/App.tsx:71-78 | every seed label of Thursday is well formed |
| InitialData.FridayWellFormed | src/App.tsx:79-85 | every seed label of Friday is well formed |
| InitialData.SaturdayWellFormed | src/App.tsx:86-92 | every seed label of Saturday is well formed |
| InitialData.SundayWellFormed | src/App.tsx:93-99 | every seed label of Sunday is well formed |
| InitialData.DayWellFormed | src/App.tsx:45-100 | every seed day has well-formed labels |
| InitialData.InitialWeekWellFormed | src/App.tsx:43-100 | the seed week has the seven days in order, and all its labels are well formed |
| InitialData.InitialRosterValid | src/App.tsx:103-111 | the initial roster satisfies the roster invariant |
| InitialData.StartOfEntry | src/App.tsx:175-178 | an item's sort key is the start of its label |
| InitialData.FirstTwoOutOfOrder | src/App.tsx:82-83 | a day whose first item starts after its second is unsorted |
| InitialData.InitialFridayUnsorted | src/App.tsx:80-84 | the seed Friday is not ordered by start |
| InitialData.InitialFridaySameSlotDrop | src/App.tsx:79-85 | dropping the seed Friday's "4:30 - 7:30" item (3 hours, consistent with its label) back onto Friday with its own times returns the day with that item first instead of second |
| InitialData.InitialHoursNotDerived | src/App.tsx:49 | the seed hours of "6:50 - 8:30" (2.5) do not match its label's duration |
| Relocation.RenameKeepsStateValid | src/App.tsx:197-204 | a rename keeps the component state invariant with the name edit closed |
| Relocation.MoveKeepsStateValid | src/App.tsx:156-183 | a move keeps the roster invariant with the drag and dialog cleared |
| Relocation.AppState.constructor | src/App.tsx:103-125 | the initial state is the seed roster, with no drag, a closed dialog, empty time fields and no name edit |
| Relocation.AppState.DragStart | src/App.tsx:129-131 | records the dragged item's position and changes nothing else |
| Relocation.AppState.Drop | src/App.tsx:137-154 | without a drag it does nothing; otherwise it opens the dialog for the target with the dragged item and seeds the two fields with its times; the roster is never changed |
| Relocation.AppState.SetNewStartTime | src/App.tsx:641 | the start field takes the typed value and nothing else changes |
| Relocation.AppState.SetNewEndTime | src/App.tsx:652 | the end field takes the typed value and nothing else changes |
| Relocation.AppState.TimeConfirm | src/App.tsx:156-184 | with the save button enabled: when the guard fails nothing changes; otherwise the roster becomes the move, and the drag and dialog are cleared |
| Relocation.AppState.ConfirmMove | src/App.tsx:159-183 | past the guard, the roster becomes the move and the drag and dialog are cleared |
| Relocation.AppState.MovedOperators | src/App.tsx:159-179 | computes the moved roster without changing state, and the result satisfies the invariant |
| Relocation.AppState.Commit | src/App.tsx:181-183 | installs the new roster and clears the drag and dialog |
| Relocation.AppState.Save | src/App.tsx:665-666 | the button: a disabled click changes nothing, and an enabled one behaves as TimeConfirm |
| Relocation.AppState.CancelTimeEdit | src/App.tsx:659 | closes the dialog and leaves the roster, the drag and the fields untouched |
| Relocation.AppState.StartEditingOperatorName | src/App.tsx:193-195 | starts an edit of operator i seeded with its current name |
| Relocation.AppState.SetEditingValue | src/App.tsx:467 | the edit text takes the typed value |
| Relocation.AppState.SaveOperatorName | src/App.tsx:197-204 | applies Rename when an edit is open (blank ignored, value trimmed) and always closes the edit |
| Sites.EmptyWeek | src/App.tsx:220-223 | the new site's week has exactly the seven day names as keys, each with no shifts |
| Sites.AddWorkSite | src/App.tsx:214-228 | a blank input changes nothing; otherwise a site with the fresh id, the trimmed non-empty name and an empty week is appended, and the input is cleared |
| Sites.AddShift | src/App.tsx:230-249 | only the sites with the id change, and only the given day: the default 09:00-17:00 shift for one operator is appended |
| Sites.ApplyEdit | src/App.tsx:260-264 | exactly the named field takes the new value; the other two keep theirs |
| Sites.UpdateShift | src/App.tsx:251-276 | only the sites with the id change, and only shift `shiftIndex` of the given day, by ApplyEdit |
| Sites.DropIndex | src/App.tsx:281 | filtering out an index removes that position when it is in range, and otherwise keeps the list |
| Sites.DeleteShift | src/App.tsx:278-293 | only the sites with the id change, and only the given day, which loses the shift at the index (none when out of range) |
| Sites.DeleteWorkSite | src/App.tsx:295-297 | the remaining sites are exactly those whose id differs, and the list does not grow |
| Sites.ValidHasEveryDay | src/App.tsx:220-223 | in a valid site list every day a handler is called with is present |
| Sites.UnknownIdUnchanged | src/App.tsx:230-293 | the three shift handlers do nothing for an id no site has |
| Sites.AddThenDeleteShift | src/App.tsx:230-293 | deleting the shift just added (last index) restores the sites |
| Sites.UpdateShiftIdempotent | src/App.tsx:251-276 | applying the same edit twice is the same as once |
| Sites.UpdateShiftUndo | src/App.tsx:251-276 | editing a field back to its previous value restores the sites |
| Sites.AddShiftKeepsValid | src/App.tsx:230-249 | adding a shift keeps ids unique and every day present |
| Sites.UpdateShiftKeepsValid | src/App.tsx:251-276 | editing a shift keeps ids unique and every day present |
| Sites.DeleteShiftKeepsValid | src/App.tsx:278-293 | deleting a shift keeps ids unique and every day present |
| Sites.AddWorkSiteKeepsValid | src/App.tsx:214-228 | adding a site with a fresh id keeps ids unique and every day present |
| Sites.AppendKeepsValid | src/App.tsx:226 | appending a site with a fresh id and a full week keeps the list valid |
| Sites.DeleteWorkSiteAppend | src/App.tsx:296 | the filter distributes over concatenation |
| Sites.DeleteUnknownSite | src/App.tsx:296 | deleting an id no site has changes nothing |
| Sites.AddThenDeleteSite | src/App.tsx:214-297 | deleting the site just added restores the previous list |
| Sites.DeleteWorkSiteKeepsValid | src/App.tsx:295-297 | deleting a site keeps the list valid |
| SharedDays.SharedWeek | src/App.tsx:103-111 | every operator's day d refers to the same shared list d |
| SharedDays.InitialShared | src/App.tsx:103-111 | the initial roster is seven operators sharing one week whose seven lists are the seed days' items, Monday holding three |
| SharedDays.InitialSharedMatchesRoster | src/App.tsx:103-111 | before any move, every operator sees on every day exactly the items of the model's initial roster InitialOperators |
| SharedDays.AliasedDayLosesItem | src/App.tsx:159-162 | the in-place splice reaches every operator whose day refers to the source list |
| SharedDays.SharedMoveReachesEveryone | src/App.tsx:103-179 | in a shared week, a move spliced out of one day and pushed onto another shows up for every operator |
| SharedDays.BystanderLosesItem | src/App.tsx:103-179 | moving Operatrice 1's first Monday item to her Tuesday leaves Operatrice 2 with two items on Monday instead of three |
| SharedDays.InitialBystanderLosesItem | src/App.tsx:103-179 | on the start state itself, that move shrinks Operatrice 2's Monday from three items to two |

## Left out

- Date parsing: `new Date("2000/01/01 " + t)` accepts many formats. The model accepts `HH:MM`, which is what the time input fields produce, and `H:MM`, which reaches the fields only when a seed label such as "6:50 - 8:30" is split on a drop. Both are read in 24-hour form; anything else counts as an invalid date.
- Floating point: hours are integers in hundredths of an hour. `Number(x.toFixed(2))` is rounding to the nearest hundredth, and the model never reaches a tie.
- `crypto.randomUUID()`: the fresh id is a parameter, with the precondition that no site already has it.
- Rendering: the JSX markup, the sidebar and section switching, the `editingSite` state (never written), and `handleDragOver`, which only calls `preventDefault` to allow a drop.
- `handleKeyDown`: the Enter and Escape keyboard dispatch. Enter calls SaveOperatorName; Escape clears the edit without saving.
- Sites.UpdateShift: the `Number(value)` coercion of the typed operator count is not modelled; the edit carries an integer.
- Schedule.StartKey: the comparator's NaN for an unparseable start is modelled as key -1. Every label the model starts with or creates is well formed, under RosterValid, so that case is never reached.
- TimeWindow.SeedTimes: a label without the separator leaves the end field `undefined`. The model uses "", which the gate treats the same way.
- Sites.UpdateShift: requires an existing shift index. At an index equal to the number of shifts the source appends a shift holding only the edited field; past that it leaves holes and makes the array sparse. The model represents neither. Every call from the page passes the index of a rendered shift.
- Sites.AddShift, Sites.UpdateShift, Sites.DeleteShift: require the day to be present in the site's week. Otherwise the source reads `.shifts` of `undefined` and throws. SitesValid guarantees every day is present (ValidHasEveryDay).
- Roster.SameSlotMoveIsNoOp: a drop onto the item's own slot with unchanged times is a no-op only under three conditions, and the component does not guarantee any of them. First, the item's hours must agree with its label; the seed data's do not (InitialHoursNotDerived: "6:50 - 8:30" is recorded as 2.5 hours). Second, the day must already be sorted by start. Otherwise it comes back re-sorted: the seed Friday's "4:30 - 7:30" item, dropped back on Friday, ends up first (InitialFridaySameSlotDrop). Third, no later item on the day may start at the same minute. Otherwise push followed by the stable sort places the item after it: `["9:00 - 10:00", "9:00 - 11:00"]` becomes `["9:00 - 11:00", "9:00 - 10:00"]` (SameSlotPassesEqualStart).
- Schedule.SameSlotRoundTrip: states the restored day under the same three conditions: consistent hours, a sorted day, and no later item with the same start. SameSlotResortsUnsortedDay and SameSlotPassesEqualStart show what happens when the second or third condition fails.
- Sortedness: nothing keeps a whole day sorted. Only the target day of a move is re-sorted, and the seed Friday is out of order (InitialFridayUnsorted).
- Relocation.AppState: the component's state is a class whose methods update fields. The in-place list mutation inside `handleTimeConfirm` (`splice`, `push`, `sort` on the day arrays) is not modelled as mutation. MovedOperators computes the new roster as the value Roster.Move, so it does not capture the update in place or its aliasing. SharedDays models what that in-place mutation does to the shared day lists.

## Findings

| source | as written | input that shows it | evidently intended | confidence | as-written member | corrected member |
|---|---|---|---|---|---|---|
| src/App.tsx:103-179 | every operator's `schedule` is a shallow copy (`[...initialScheduleData]`) of the same day objects, and the move mutates the day's `items` in place with `splice`, `push` and `sort` (the outer `[...operators]` copy does not copy the days), so a move changes every operator's days at once | drag Operatrice 1's first Monday item to her Tuesday with window 6:50-8:30: Operatrice 2's Monday goes from three items to two, and her Tuesday gains the item too | only the source operator's day loses the item and only the target operator's day gains the retimed copy | not executed | SharedDays.BystanderLosesItem | Roster.MoveEffect |
