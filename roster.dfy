/**
 * The operator roster and the pure effect of the two roster mutations:
 * relocating a work item (`handleTimeConfirm`) and renaming an operator
 * (`saveOperatorName`). The class AppState applies them step by step.
 */
module Roster {
  import opened Text
  import opened TimeWindow
  import opened StableSort
  import opened Schedule

  /** An operator; `isJolly` marks the floaters and only affects display grouping. */
  datatype Operator = Operator(name: string, schedule: seq<DaySchedule>, isJolly: bool)

  /** `draggedItem`: operator, day and position of the item being dragged. */
  datatype DragRef = DragRef(operatorIndex: nat, dayIndex: nat, itemIndex: nat)

  predicate SlotExists(ops: seq<Operator>, o: nat, d: nat)
  {
    o < |ops| && d < |ops[o].schedule|
  }

  predicate RefExists(ops: seq<Operator>, r: DragRef)
  {
    SlotExists(ops, r.operatorIndex, r.dayIndex)
    && r.itemIndex < |ops[r.operatorIndex].schedule[r.dayIndex].items|
  }

  function ItemsAt(ops: seq<Operator>, o: nat, d: nat): (items: seq<Item>)
    requires SlotExists(ops, o, d)
  {
    ops[o].schedule[d].items
  }

  function ItemAt(ops: seq<Operator>, r: DragRef): (it: Item)
    requires RefExists(ops, r)
  {
    ItemsAt(ops, r.operatorIndex, r.dayIndex)[r.itemIndex]
  }

  /** The same operators with the same names, flags and day labels; only item lists may differ. */
  ghost predicate SameShape(a: seq<Operator>, b: seq<Operator>)
  {
    && |a| == |b|
    && (forall o :: 0 <= o < |a| ==>
          a[o].name == b[o].name && a[o].isJolly == b[o].isJolly && |a[o].schedule| == |b[o].schedule|)
    && (forall o: nat, d: nat :: SlotExists(a, o, d) ==> a[o].schedule[d].day == b[o].schedule[d].day)
  }

  /** The roster with the item list of one operator's day replaced. */
  function SetItems(ops: seq<Operator>, o: nat, d: nat, items: seq<Item>): (r: seq<Operator>)
    requires SlotExists(ops, o, d)
    ensures SameShape(ops, r)
    ensures SlotExists(r, o, d) && ItemsAt(r, o, d) == items
    ensures forall o': nat, d': nat :: SlotExists(ops, o', d') && (o' != o || d' != d) ==>
              SlotExists(r, o', d') && ItemsAt(r, o', d') == ItemsAt(ops, o', d')
  {
    var op := ops[o];
    ops[o := op.(schedule := op.schedule[d := op.schedule[d].(items := items)])]
  }

  lemma SetItemsTwice(ops: seq<Operator>, o: nat, d: nat, a: seq<Item>, b: seq<Item>)
    requires SlotExists(ops, o, d)
    ensures SetItems(SetItems(ops, o, d, a), o, d, b) == SetItems(ops, o, d, b)
  {
    var op := ops[o];
    var ops1 := SetItems(ops, o, d, a);
    assert ops1[o].schedule == op.schedule[d := op.schedule[d].(items := a)];
    assert ops1[o].schedule[d := ops1[o].schedule[d].(items := b)] == op.schedule[d := op.schedule[d].(items := b)];
    assert ops1[o := ops1[o].(schedule := op.schedule[d := op.schedule[d].(items := b)])]
        == ops[o := op.(schedule := op.schedule[d := op.schedule[d].(items := b)])];
  }

  lemma SetItemsUnchanged(ops: seq<Operator>, o: nat, d: nat)
    requires SlotExists(ops, o, d)
    ensures SetItems(ops, o, d, ItemsAt(ops, o, d)) == ops
  {
    assert ops[o].schedule[d := ops[o].schedule[d]] == ops[o].schedule;
    assert ops[o := ops[o]] == ops;
  }

  /** What the target day holds once the source item has been spliced out. */
  function TargetBase(ops: seq<Operator>, src: DragRef, to: nat, td: nat): (items: seq<Item>)
    requires RefExists(ops, src) && SlotExists(ops, to, td)
  {
    if to == src.operatorIndex && td == src.dayIndex then
      Splice(ItemsAt(ops, to, td), src.itemIndex)
    else
      ItemsAt(ops, to, td)
  }

  /**
   * The operators after a confirmed relocation of the item at `src` to day
   * `td` of operator `to` with the window `start`-`end`: the item is spliced
   * out of its source day, and its retimed copy pushed onto the target day,
   * which is then sorted by start time.
   */
  function Move(ops: seq<Operator>, src: DragRef, to: nat, td: nat, start: string, end: string): (r: seq<Operator>)
    requires RefExists(ops, src) && SlotExists(ops, to, td) && IsTimeValid(start, end)
  {
    var ops1 := SetItems(ops, src.operatorIndex, src.dayIndex, Splice(ItemsAt(ops, src.operatorIndex, src.dayIndex), src.itemIndex));
    SetItems(ops1, to, td, SortByStart(ItemsAt(ops1, to, td) + [Retime(ItemAt(ops, src), start, end)]))
  }

  /**
   * What a relocation does: the item leaves its source day, its retimed copy
   * joins the target day, which ends up ordered by start time with ties kept
   * in their previous order and the copy last among them; names, flags and
   * every other day are untouched.
   */
  lemma MoveEffect(ops: seq<Operator>, src: DragRef, to: nat, td: nat, start: string, end: string)
    requires RefExists(ops, src) && SlotExists(ops, to, td) && IsTimeValid(start, end)
    ensures var r := Move(ops, src, to, td, start, end);
      && SameShape(ops, r)
      && (forall o: nat, d: nat :: SlotExists(ops, o, d) && (o != src.operatorIndex || d != src.dayIndex) && (o != to || d != td) ==>
            SlotExists(r, o, d) && ItemsAt(r, o, d) == ItemsAt(ops, o, d))
      && ((src.operatorIndex != to || src.dayIndex != td) ==>
            ItemsAt(r, src.operatorIndex, src.dayIndex) == Splice(ItemsAt(ops, src.operatorIndex, src.dayIndex), src.itemIndex))
    ensures var r := Move(ops, src, to, td, start, end);
      var updated := Retime(ItemAt(ops, src), start, end);
      && SlotExists(r, to, td) && SortedByStart(ItemsAt(r, to, td))
      && multiset(ItemsAt(r, to, td)) == multiset(TargetBase(ops, src, to, td)) + multiset{updated}
      && WithKey(ItemsAt(r, to, td), StartKey, StartKey(updated))
         == WithKey(TargetBase(ops, src, to, td), StartKey, StartKey(updated)) + [updated]
      && (forall k :: k != StartKey(updated) ==>
            WithKey(ItemsAt(r, to, td), StartKey, k) == WithKey(TargetBase(ops, src, to, td), StartKey, k))
  {
    var ops1 := SetItems(ops, src.operatorIndex, src.dayIndex, Splice(ItemsAt(ops, src.operatorIndex, src.dayIndex), src.itemIndex));
    var base := ItemsAt(ops1, to, td);
    assert base == TargetBase(ops, src, to, td);
    PushThenSort(base, Retime(ItemAt(ops, src), start, end));
  }

  /**
   * `saveOperatorName` on the roster: the trimmed name replaces the name of
   * operator `i` unless it is empty, in which case nothing changes.
   */
  function Rename(ops: seq<Operator>, i: nat, value: string): (r: seq<Operator>)
    requires i < |ops|
    ensures |r| == |ops|
    ensures Trim(value) == [] ==> r == ops
    ensures Trim(value) != [] ==> r[i] == ops[i].(name := Trim(value))
    ensures forall j :: 0 <= j < |ops| && j != i ==> r[j] == ops[j]
  {
    var name := Trim(value);
    if name != [] then ops[i := ops[i].(name := name)] else ops
  }

  /** A whitespace-only name leaves every name as it was. */
  lemma RenameBlankIsNoOp(ops: seq<Operator>, i: nat, value: string)
    requires i < |ops| && AllWhitespace(value)
    ensures Rename(ops, i, value) == ops
  {
    TrimEmptyIffBlank(value);
  }

  // Invariants every reachable roster keeps.

  ghost predicate DayLabelsWellFormed(items: seq<Item>)
  {
    forall i :: 0 <= i < |items| ==> IsWindowLabel(items[i].time)
  }

  /** Seven days per operator, non-empty names and well-formed item labels. */
  ghost predicate RosterValid(ops: seq<Operator>)
  {
    && (forall o :: 0 <= o < |ops| ==> |ops[o].schedule| == |DaysOfWeek| && ops[o].name != [])
    && (forall o: nat, d: nat :: SlotExists(ops, o, d) ==> DayLabelsWellFormed(ItemsAt(ops, o, d)))
  }

  lemma SpliceKeepsLabels(s: seq<Item>, i: nat)
    requires i < |s| && DayLabelsWellFormed(s)
    ensures DayLabelsWellFormed(Splice(s, i))
  {
  }

  lemma BagKeepsLabels(r: seq<Item>, s: seq<Item>, x: Item)
    requires DayLabelsWellFormed(s) && IsWindowLabel(x.time)
    requires multiset(r) == multiset(s) + multiset{x}
    ensures DayLabelsWellFormed(r)
  {
    forall i | 0 <= i < |r| ensures IsWindowLabel(r[i].time) {
      assert r[i] in multiset(r);
      if r[i] != x {
        assert r[i] in multiset(s);
        var j :| 0 <= j < |s| && s[j] == r[i];
      }
    }
  }

  /** Replacing one day's items by well-formed ones keeps the roster valid. */
  lemma SetItemsKeepsValid(ops: seq<Operator>, o: nat, d: nat, items: seq<Item>)
    requires RosterValid(ops) && SlotExists(ops, o, d) && DayLabelsWellFormed(items)
    ensures RosterValid(SetItems(ops, o, d, items))
  {
    var r := SetItems(ops, o, d, items);
    forall o': nat, d': nat | SlotExists(r, o', d') ensures DayLabelsWellFormed(ItemsAt(r, o', d')) {
      assert SlotExists(ops, o', d');
    }
  }

  /** A relocation keeps the roster valid. */
  lemma MoveKeepsValid(ops: seq<Operator>, src: DragRef, to: nat, td: nat, start: string, end: string)
    requires RosterValid(ops)
    requires RefExists(ops, src) && SlotExists(ops, to, td) && IsTimeValid(start, end)
    ensures RosterValid(Move(ops, src, to, td, start, end))
  {
    var so, sd := src.operatorIndex, src.dayIndex;
    var spliced := Splice(ItemsAt(ops, so, sd), src.itemIndex);
    SpliceKeepsLabels(ItemsAt(ops, so, sd), src.itemIndex);
    var ops1 := SetItems(ops, so, sd, spliced);
    SetItemsKeepsValid(ops, so, sd, spliced);
    var updated := Retime(ItemAt(ops, src), start, end);
    var base := ItemsAt(ops1, to, td);
    var sorted := SortByStart(base + [updated]);
    BagKeepsLabels(sorted, base, updated);
    SetItemsKeepsValid(ops1, to, td, sorted);
    assert Move(ops, src, to, td, start, end) == SetItems(ops1, to, td, sorted);
  }

  /** A rename keeps the roster valid. */
  lemma RenameKeepsValid(ops: seq<Operator>, i: nat, value: string)
    requires RosterValid(ops) && i < |ops|
    ensures RosterValid(Rename(ops, i, value))
  {
    var r := Rename(ops, i, value);
    forall o: nat, d: nat | SlotExists(r, o, d) ensures DayLabelsWellFormed(ItemsAt(r, o, d)) {
      assert SlotExists(ops, o, d);
    }
  }

  /**
   * Dropping an item of a sorted day onto its own slot with the seeded times
   * leaves the roster exactly as it was, provided the item's hours already
   * match its label and no later item of that day starts at the same minute.
   */
  lemma SameSlotMoveIsNoOp(ops: seq<Operator>, src: DragRef)
    requires RefExists(ops, src)
    requires SortedByStart(ItemsAt(ops, src.operatorIndex, src.dayIndex))
    requires HoursConsistent(ItemAt(ops, src))
    requires forall j :: src.itemIndex < j < |ItemsAt(ops, src.operatorIndex, src.dayIndex)| ==>
               StartKey(ItemsAt(ops, src.operatorIndex, src.dayIndex)[j]) != StartKey(ItemAt(ops, src))
    ensures IsTimeValid(SeedTimes(ItemAt(ops, src).time).0, SeedTimes(ItemAt(ops, src).time).1)
    ensures Move(ops, src, src.operatorIndex, src.dayIndex,
                 SeedTimes(ItemAt(ops, src).time).0, SeedTimes(ItemAt(ops, src).time).1) == ops
  {
    var o, d, i := src.operatorIndex, src.dayIndex, src.itemIndex;
    var s := ItemsAt(ops, o, d);
    SameSlotRoundTrip(s, i);
    var start, end := SeedTimes(s[i].time).0, SeedTimes(s[i].time).1;
    var ops1 := SetItems(ops, o, d, Splice(s, i));
    assert ItemsAt(ops1, o, d) == Splice(s, i);
    assert SortByStart(Splice(s, i) + [Retime(s[i], start, end)]) == s;
    assert Move(ops, src, o, d, start, end) == SetItems(ops1, o, d, s);
    SetItemsTwice(ops, o, d, Splice(s, i), s);
    SetItemsUnchanged(ops, o, d);
  }
}
