/**
 * The hour totals the roster shows: under each day, the sum of its items'
 * hours; beside each operator, the sum of the daily totals over the week.
 * Also what a relocation does to the items and hours of the whole roster.
 */
module Hours {
  import opened Folds
  import opened TimeWindow
  import opened Schedule
  import opened Roster

  function ItemHours(it: Item): (h: nat) { it.hours }

  /** `day.items.reduce((acc, item) => acc + item.hours, 0)` */
  function DailyHours(d: DaySchedule): (h: nat)
  {
    SumOf(d.items, ItemHours)
  }

  /** `operator.schedule.reduce((acc, day) => acc + <daily total>, 0)` */
  function WeeklyHours(op: Operator): (h: nat)
  {
    SumOf(op.schedule, DailyHours)
  }

  function DayBag(d: DaySchedule): (bag: multiset<Item>) { multiset(d.items) }

  /** Every item of a week, day after day. */
  function AllItems(days: seq<DaySchedule>): (r: seq<Item>)
    ensures multiset(r) == UnionOf(days, DayBag)
  {
    if days == [] then [] else AllItems(days[..|days| - 1]) + days[|days| - 1].items
  }

  /** The weekly total is the sum of the hours of every item of the week. */
  lemma WeeklyIsSumOfItems(op: Operator)
    ensures WeeklyHours(op) == SumOf(AllItems(op.schedule), ItemHours)
  {
    WeekSum(op.schedule);
  }

  lemma {:induction false} WeekSum(days: seq<DaySchedule>)
    ensures SumOf(days, DailyHours) == SumOf(AllItems(days), ItemHours)
    decreases |days|
  {
    if days != [] {
      var front := days[..|days| - 1];
      WeekSum(front);
      SumOfAppend(AllItems(front), days[|days| - 1].items, ItemHours);
    }
  }

  /** A day's total after `push(x)` is the old total plus the hours of `x`. */
  lemma PushAddsHours(d: DaySchedule, x: Item)
    ensures DailyHours(d.(items := d.items + [x])) == DailyHours(d) + x.hours
  {
    SumOfAppend(d.items, [x], ItemHours);
    assert SumOf([x], ItemHours) == x.hours by { assert [x][..0] == []; }
  }

  /** The order of a day's items does not matter to its total. */
  lemma ReorderKeepsDailyHours(d: DaySchedule, items: seq<Item>)
    requires multiset(items) == multiset(d.items)
    ensures DailyHours(d.(items := items)) == DailyHours(d)
  {
    SumOfPermutation(items, d.items, ItemHours);
  }

  /** When every other day of the week is empty, the weekly total is that one day's total. */
  lemma {:induction false} WeekOfOneDay(days: seq<DaySchedule>, k: nat)
    requires k < |days|
    requires forall d :: 0 <= d < |days| && d != k ==> days[d].items == []
    ensures SumOf(days, DailyHours) == DailyHours(days[k])
    decreases |days|
  {
    var front, last := days[..|days| - 1], days[|days| - 1];
    if k == |days| - 1 {
      EmptyWeekTotalsZero(front);
    } else {
      assert last.items == [];
      WeekOfOneDay(front, k);
    }
  }

  lemma {:induction false} EmptyWeekTotalsZero(days: seq<DaySchedule>)
    requires forall d :: 0 <= d < |days| ==> days[d].items == []
    ensures SumOf(days, DailyHours) == 0
    decreases |days|
  {
    if days != [] {
      assert days[|days| - 1].items == [];
      EmptyWeekTotalsZero(days[..|days| - 1]);
    }
  }

  /** Monday items of 2.5 and 1.5 hours and an otherwise empty week total 4 hours. */
  lemma MondayOnlyWeek(a: Item, b: Item, rest: seq<DaySchedule>)
    requires a.hours == 250 && b.hours == 150
    requires forall d :: 0 <= d < |rest| ==> rest[d].items == []
    ensures WeeklyHours(Operator("Operatrice 1", [DaySchedule("Lunedì", [a, b])] + rest, false)) == 400
  {
    var days := [DaySchedule("Lunedì", [a, b])] + rest;
    forall d | 0 < d < |days| ensures days[d].items == [] {
      assert days[d] == rest[d - 1];
    }
    WeekOfOneDay(days, 0);
    assert [a, b][..1] == [a] && [a][..0] == [];
    assert SumOf([a, b], ItemHours) == SumOf([a], ItemHours) + b.hours;
    assert SumOf([a], ItemHours) == a.hours;
  }

  // The whole roster

  function OperatorBag(op: Operator): (bag: multiset<Item>) { UnionOf(op.schedule, DayBag) }

  /** Every item of every operator, with multiplicity. */
  function RosterBag(ops: seq<Operator>): (bag: multiset<Item>) { UnionOf(ops, OperatorBag) }

  /** The number of items across all operators. */
  function ItemCount(ops: seq<Operator>): (n: nat) { |RosterBag(ops)| }

  /** The weekly totals of all operators added up. */
  function RosterHours(ops: seq<Operator>): (h: nat) { SumOf(ops, WeeklyHours) }

  /** Replacing one day's items swaps those items in the roster's bag. */
  lemma SetItemsBag(ops: seq<Operator>, o: nat, d: nat, items: seq<Item>)
    requires SlotExists(ops, o, d)
    ensures RosterBag(SetItems(ops, o, d, items)) + multiset(ItemsAt(ops, o, d)) == RosterBag(ops) + multiset(items)
  {
    var op := ops[o];
    var day := op.schedule[d].(items := items);
    var op' := op.(schedule := op.schedule[d := day]);
    UnionOfUpdate(op.schedule, d, day, DayBag);
    UnionOfUpdate(ops, o, op', OperatorBag);
    assert SetItems(ops, o, d, items) == ops[o := op'];
    assert DayBag(op.schedule[d]) == multiset(ItemsAt(ops, o, d));
    BagSwap(RosterBag(SetItems(ops, o, d, items)), RosterBag(ops), OperatorBag(op), OperatorBag(op'),
            multiset(ItemsAt(ops, o, d)), multiset(items));
  }

  /** Replacing one day's items swaps their hours in the roster's total. */
  lemma SetItemsHours(ops: seq<Operator>, o: nat, d: nat, items: seq<Item>)
    requires SlotExists(ops, o, d)
    ensures RosterHours(SetItems(ops, o, d, items)) + SumOf(ItemsAt(ops, o, d), ItemHours)
            == RosterHours(ops) + SumOf(items, ItemHours)
  {
    var op := ops[o];
    var day := op.schedule[d].(items := items);
    var op' := op.(schedule := op.schedule[d := day]);
    SumOfUpdate(op.schedule, d, day, DailyHours);
    SumOfUpdate(ops, o, op', WeeklyHours);
  }

  /**
   * A relocation conserves the roster's items: the one moved item is
   * replaced by its retimed copy, so the number of items does not change.
   */
  lemma MoveConservesItems(ops: seq<Operator>, src: DragRef, to: nat, td: nat, start: string, end: string)
    requires RefExists(ops, src) && SlotExists(ops, to, td) && IsTimeValid(start, end)
    ensures RosterBag(Move(ops, src, to, td, start, end)) + multiset{ItemAt(ops, src)}
            == RosterBag(ops) + multiset{Retime(ItemAt(ops, src), start, end)}
    ensures ItemCount(Move(ops, src, to, td, start, end)) == ItemCount(ops)
  {
    var so, sd := src.operatorIndex, src.dayIndex;
    var moved := ItemAt(ops, src);
    var spliced := Splice(ItemsAt(ops, so, sd), src.itemIndex);
    var ops1 := SetItems(ops, so, sd, spliced);
    var updated := Retime(moved, start, end);
    var base := ItemsAt(ops1, to, td);
    var sorted := SortByStart(base + [updated]);
    assert Move(ops, src, to, td, start, end) == SetItems(ops1, to, td, sorted);
    var b0, b1, b2 := RosterBag(ops), RosterBag(ops1), RosterBag(SetItems(ops1, to, td, sorted));
    SetItemsBag(ops, so, sd, spliced);
    SetItemsBag(ops1, to, td, sorted);
    TwoExchanges(b0, b1, b2, multiset(ItemsAt(ops, so, sd)), multiset(spliced), multiset(base), multiset(sorted), moved, updated);
  }

  /** Taking `moved` out of one day and adding `updated` to another exchanges the two in the whole. */
  lemma TwoExchanges<U>(b0: multiset<U>, b1: multiset<U>, b2: multiset<U>, items: multiset<U>, spliced: multiset<U>,
                        base: multiset<U>, sorted: multiset<U>, moved: U, updated: U)
    requires b1 + items == b0 + spliced && spliced + multiset{moved} == items
    requires b2 + base == b1 + sorted && sorted == base + multiset{updated}
    ensures b2 + multiset{moved} == b0 + multiset{updated}
    ensures |b2| == |b0|
  {
    forall y ensures (b2 + multiset{moved})[y] == (b0 + multiset{updated})[y] {
      assert (b1 + items)[y] == (b0 + spliced)[y];
      assert (b2 + base)[y] == (b1 + sorted)[y];
    }
    assert b2 + multiset{moved} == b0 + multiset{updated};
    assert |b2 + multiset{moved}| == |b2| + 1;
  }

  /** A relocation changes the roster's total hours only by the moved item's change of hours. */
  lemma MoveHours(ops: seq<Operator>, src: DragRef, to: nat, td: nat, start: string, end: string)
    requires RefExists(ops, src) && SlotExists(ops, to, td) && IsTimeValid(start, end)
    ensures RosterHours(Move(ops, src, to, td, start, end)) + ItemAt(ops, src).hours
            == RosterHours(ops) + Retime(ItemAt(ops, src), start, end).hours
  {
    var so, sd := src.operatorIndex, src.dayIndex;
    var moved := ItemAt(ops, src);
    var items := ItemsAt(ops, so, sd);
    var spliced := Splice(items, src.itemIndex);
    var ops1 := SetItems(ops, so, sd, spliced);
    var updated := Retime(moved, start, end);
    var base := ItemsAt(ops1, to, td);
    var sorted := SortByStart(base + [updated]);
    assert Move(ops, src, to, td, start, end) == SetItems(ops1, to, td, sorted);
    SetItemsHours(ops, so, sd, spliced);
    SumOfPermutation(items, spliced + [moved], ItemHours);
    SumOfAppend(spliced, [moved], ItemHours);
    assert SumOf([moved], ItemHours) == moved.hours by { assert [moved][..0] == []; }
    SetItemsHours(ops1, to, td, sorted);
    SumOfPermutation(sorted, base + [updated], ItemHours);
    SumOfAppend(base, [updated], ItemHours);
    assert SumOf([updated], ItemHours) == updated.hours by { assert [updated][..0] == []; }
  }
}
