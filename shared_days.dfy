/**
 * The roster as the application actually lays it out in memory. Every
 * operator's schedule is a shallow copy of the same array of day objects, so
 * all seven operators point at the same seven item lists, and relocation
 * mutates those lists in place (`splice`, `push`, `sort`). The model keeps a
 * heap of item lists and, per operator and day, the index of the list that
 * operator sees.
 *
 * This is the as-written behaviour; the rest of the model (Roster.Move) gives
 * every operator independent days, which is what the screen presents.
 */
module SharedDays {
  import opened Wrappers
  import opened TimeWindow
  import opened Schedule
  import opened Roster
  import opened InitialData

  /** `heap` holds the item lists; `refs[o][d]` is the list operator `o` sees on day `d`. */
  datatype SharedRoster = SharedRoster(heap: seq<seq<Item>>, refs: seq<seq<nat>>)

  ghost predicate Wired(r: SharedRoster)
  {
    forall o, d :: 0 <= o < |r.refs| && 0 <= d < |r.refs[o]| ==> r.refs[o][d] < |r.heap|
  }

  predicate SlotIn(r: SharedRoster, o: nat, d: nat)
  {
    o < |r.refs| && d < |r.refs[o]| && r.refs[o][d] < |r.heap|
  }

  /** The items operator `o` sees on day `d`. */
  function View(r: SharedRoster, o: nat, d: nat): (items: seq<Item>)
    requires SlotIn(r, o, d)
  {
    r.heap[r.refs[o][d]]
  }

  /** `n` operators whose schedules are shallow copies of one week: all see the same lists. */
  function SharedWeek(days: seq<seq<Item>>, n: nat): (r: SharedRoster)
    ensures Wired(r) && |r.refs| == n && r.heap == days
    ensures forall o, d :: 0 <= o < n && 0 <= d < |days| ==> SlotIn(r, o, d) && r.refs[o][d] == d
  {
    var week := seq(|days|, d requires 0 <= d < |days| => d as nat);
    SharedRoster(days, seq(n, o => week))
  }

  /** The state the application starts in: the seven operators share the seed week's seven item lists; Monday has three items. */
  function InitialShared(): (r: SharedRoster)
    ensures r == SharedWeek(r.heap, 7) && |r.heap| == 7 && |r.heap[0]| == 3
    ensures forall d :: 0 <= d < 7 ==> r.heap[d] == InitialScheduleData[d].items
  {
    SharedWeek(seq(7, d requires 0 <= d < 7 => InitialScheduleData[d].items), 7)
  }

  /**
   * Before any move, the shared layout shows every operator exactly the
   * items of the model's initial roster, slot by slot.
   */
  lemma InitialSharedMatchesRoster()
    ensures forall o, d :: 0 <= o < 7 && 0 <= d < 7 ==>
      SlotIn(InitialShared(), o, d) && SlotExists(InitialOperators, o, d)
      && View(InitialShared(), o, d) == ItemsAt(InitialOperators, o, d)
  {
    var r := InitialShared();
    forall o, d | 0 <= o < 7 && 0 <= d < 7
      ensures SlotIn(r, o, d) && SlotExists(InitialOperators, o, d) && View(r, o, d) == ItemsAt(InitialOperators, o, d)
    {
      assert InitialOperators[o].schedule == InitialScheduleData;
    }
  }

  /**
   * `handleTimeConfirm` as written: the source list is spliced in place, then
   * the retimed copy is pushed onto the target list, which is sorted in place.
   */
  function MoveAsWritten(r: SharedRoster, src: DragRef, to: nat, td: nat, start: string, end: string): (after: SharedRoster)
    requires Wired(r) && SlotIn(r, src.operatorIndex, src.dayIndex) && SlotIn(r, to, td)
    requires src.itemIndex < |View(r, src.operatorIndex, src.dayIndex)|
    requires IsTimeValid(start, end)
  {
    var a := r.refs[src.operatorIndex][src.dayIndex];
    var moved := r.heap[a][src.itemIndex];
    var h1 := r.heap[a := Splice(r.heap[a], src.itemIndex)];
    var b := r.refs[to][td];
    SharedRoster(h1[b := SortByStart(h1[b] + [Retime(moved, start, end)])], r.refs)
  }

  /**
   * The splice reaches every operator whose day points at the source list,
   * not only the operator the item was dragged from.
   */
  lemma AliasedDayLosesItem(r: SharedRoster, src: DragRef, to: nat, td: nat, start: string, end: string, o: nat, d: nat)
    requires Wired(r) && SlotIn(r, src.operatorIndex, src.dayIndex) && SlotIn(r, to, td)
    requires src.itemIndex < |View(r, src.operatorIndex, src.dayIndex)|
    requires IsTimeValid(start, end)
    requires SlotIn(r, o, d) && r.refs[o][d] == r.refs[src.operatorIndex][src.dayIndex]
    requires r.refs[to][td] != r.refs[o][d]
    ensures var after := MoveAsWritten(r, src, to, td, start, end);
      SlotIn(after, o, d) && View(after, o, d) == Splice(View(r, o, d), src.itemIndex)
  {
  }

  /**
   * In a shared week a relocation shows up for every operator: each one's
   * source day loses the item and each one's target day gains the retimed
   * copy, whoever the item was dragged from or dropped on.
   */
  lemma SharedMoveReachesEveryone(days: seq<seq<Item>>, n: nat, src: DragRef, to: nat, td: nat, start: string, end: string, o: nat)
    requires src.operatorIndex < n && to < n && o < n
    requires src.dayIndex < |days| && td < |days| && src.dayIndex != td
    requires src.itemIndex < |days[src.dayIndex]| && IsTimeValid(start, end)
    ensures var r := SharedWeek(days, n);
      var after := MoveAsWritten(r, src, to, td, start, end);
      && SlotIn(after, o, src.dayIndex) && SlotIn(after, o, td)
      && View(after, o, src.dayIndex) == Splice(days[src.dayIndex], src.itemIndex)
      && View(after, o, td) == SortByStart(days[td] + [Retime(days[src.dayIndex][src.itemIndex], start, end)])
  {
  }

  /** The window the example move retimes to: 6:50 to 8:30. */
  lemma ExampleWindowValid()
    ensures IsTimeValid("6:50", "8:30")
  {
    assert ParseTime("6:50") == Some(410) && ParseTime("8:30") == Some(510);
  }

  /**
   * Moving Operatrice 1's first Monday item to her Tuesday also removes it
   * from Operatrice 2's Monday, who was not involved: in the initial week
   * (InitialShared), three items become two.
   */
  lemma BystanderLosesItem(days: seq<seq<Item>>)
    requires |days| == 7 && |days[0]| == 3
    ensures IsTimeValid("6:50", "8:30")
    ensures |View(MoveAsWritten(SharedWeek(days, 7), DragRef(0, 0, 0), 0, 1, "6:50", "8:30"), 1, 0)| == 2
  {
    ExampleWindowValid();
    SharedMoveReachesEveryone(days, 7, DragRef(0, 0, 0), 0, 1, "6:50", "8:30", 1);
  }

  /** The same move on the application's start state: Operatrice 2's Monday goes from three items to two. */
  lemma InitialBystanderLosesItem()
    ensures IsTimeValid("6:50", "8:30")
    ensures SlotIn(InitialShared(), 1, 0) && |View(InitialShared(), 1, 0)| == 3
    ensures |View(MoveAsWritten(InitialShared(), DragRef(0, 0, 0), 0, 1, "6:50", "8:30"), 1, 0)| == 2
  {
    BystanderLosesItem(InitialShared().heap);
  }
}
