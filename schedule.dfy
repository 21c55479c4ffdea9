/**
 * The per-day lists of work items and the list surgery the relocation
 * performs on them: removal by position (`splice`), the retimed copy, and the
 * stable re-sort by start time that follows a `push`.
 */
module Schedule {
  import opened Wrappers
  import opened TimeWindow
  import opened StableSort

  /** A work item; `hours` is in hundredths of an hour (2.5 hours is 250). */
  datatype Item = Item(id: string, time: string, activity: string, hours: nat)

  datatype DaySchedule = DaySchedule(day: string, items: seq<Item>)

  /** The seven day names in their canonical order. */
  const DaysOfWeek: seq<string> := ["Lunedì", "Martedì", "Mercoledì", "Giovedì", "Venerdì", "Sabato", "Domenica"]

  /**
   * The sort key: the minute of the day at which the item's label starts.
   * An unparseable start is keyed -1; every label the model creates or starts
   * with is well formed, so that case is never reached.
   */
  function StartKey(it: Item): (k: int)
  {
    match ParseTime(Split(it.time)[0])
    case Some(m) => m
    case None => -1
  }

  /** The item's `hours` equals the duration its label states (the derived field is up to date). */
  predicate HoursConsistent(it: Item)
  {
    var (start, end) := SeedTimes(it.time);
    WellFormedLabel(it.time) && IsTimeValid(start, end) && it.hours == WindowHours(start, end)
  }

  // Removal by position

  /** `items.splice(i, 1)`: the list without position `i`; later items move down by one. */
  function Splice(s: seq<Item>, i: nat): (r: seq<Item>)
    requires i < |s|
    ensures |r| == |s| - 1
    ensures forall j :: 0 <= j < i ==> r[j] == s[j]
    ensures forall j :: i <= j < |r| ==> r[j] == s[j + 1]
    ensures multiset(r) + multiset{s[i]} == multiset(s)
  {
    assert s == s[..i] + [s[i]] + s[i + 1..];
    s[..i] + s[i + 1..]
  }

  // The retimed copy

  /**
   * `{ ...movedItem, time: start + " - " + end, hours }`: the item with a new
   * label and its hours recomputed from the new window; id and activity kept.
   */
  function Retime(it: Item, start: string, end: string): (r: Item)
    requires IsTimeValid(start, end)
    ensures r.id == it.id && r.activity == it.activity
    ensures r.time == Label(start, end)
    ensures SeedTimes(r.time) == (start, end) && IsWindowLabel(r.time)
    ensures StartKey(r) == ParseTime(start).value
    ensures r.hours > 0 && -30 < 60 * r.hours - 100 * (ParseTime(end).value - ParseTime(start).value) < 30
    ensures HoursConsistent(r)
  {
    ValidWindowLabel(start, end);
    it.(time := Label(start, end), hours := WindowHours(start, end))
  }

  /** Retiming an item whose hours are up to date to its own seeded times changes nothing. */
  lemma RetimeOwnTimes(it: Item)
    requires HoursConsistent(it)
    ensures IsTimeValid(SeedTimes(it.time).0, SeedTimes(it.time).1)
    ensures Retime(it, SeedTimes(it.time).0, SeedTimes(it.time).1) == it
  {
    var parts := Split(it.time);
    assert Join(parts) == parts[0] + Separator + Join(parts[1..]);
  }

  // Ordering by start time

  predicate SortedByStart(s: seq<Item>)
  {
    Sorted(s, StartKey)
  }

  /**
   * The comparator sort of the target day, `(a, b) => start(a) - start(b)`;
   * the engine's sort is stable, so this is StableSort.SortBy on the start key.
   */
  function SortByStart(s: seq<Item>): (r: seq<Item>)
    ensures multiset(r) == multiset(s) && |r| == |s|
  {
    SortBy(s, StartKey)
  }

  /**
   * The day after `push` and `sort`: ordered by start time, the pushed item
   * after every item already there with its start time, and the other items
   * in their previous relative order.
   */
  lemma PushThenSort(s: seq<Item>, x: Item)
    ensures SortedByStart(SortByStart(s + [x]))
    ensures multiset(SortByStart(s + [x])) == multiset(s) + multiset{x}
    ensures WithKey(SortByStart(s + [x]), StartKey, StartKey(x)) == WithKey(s, StartKey, StartKey(x)) + [x]
    ensures forall k :: k != StartKey(x) ==> WithKey(SortByStart(s + [x]), StartKey, k) == WithKey(s, StartKey, k)
  {
    SortIsStable(s + [x], StartKey);
    PushThenSortPlacesLast(s, x, StartKey);
  }

  /**
   * Re-inserting a sorted day's item at its own times, when its hours are up
   * to date and no later item starts at the same minute, gives back the day
   * exactly: a drop onto the item's own slot with unchanged times is a no-op.
   */
  lemma SameSlotRoundTrip(s: seq<Item>, i: nat)
    requires i < |s| && SortedByStart(s) && HoursConsistent(s[i])
    requires forall j :: i < j < |s| ==> StartKey(s[j]) != StartKey(s[i])
    ensures IsTimeValid(SeedTimes(s[i].time).0, SeedTimes(s[i].time).1)
    ensures SortByStart(Splice(s, i) + [Retime(s[i], SeedTimes(s[i].time).0, SeedTimes(s[i].time).1)]) == s
  {
    RetimeOwnTimes(s[i]);
    ReinsertInOwnPlace(s, i, StartKey);
  }

  /**
   * The conditions of SameSlotRoundTrip are needed. On an unsorted day, a drop
   * of the later item back onto its own slot with unchanged times re-sorts the
   * day: an item that starts earlier than the one before it moves to the front.
   */
  lemma SameSlotResortsUnsortedDay(a: Item, b: Item)
    requires HoursConsistent(b) && StartKey(b) < StartKey(a)
    ensures IsTimeValid(SeedTimes(b.time).0, SeedTimes(b.time).1)
    ensures SortByStart(Splice([a, b], 1) + [Retime(b, SeedTimes(b.time).0, SeedTimes(b.time).1)]) == [b, a]
    ensures [b, a] != [a, b]
  {
    RetimeOwnTimes(b);
    var r := Retime(b, SeedTimes(b.time).0, SeedTimes(b.time).1);
    assert Splice([a, b], 1) + [r] == [a, b];
    assert [a, b][..1] == [a] && [a][..0] == [];
    assert SortBy([a], StartKey) == [a];
    assert Insert([a], b, StartKey) == [b] + [a];
  }

  /**
   * Likewise, an item dropped back onto its own slot passes a later item with
   * the same start: push and the stable sort put it after that item.
   */
  lemma SameSlotPassesEqualStart(a: Item, b: Item)
    requires HoursConsistent(a) && StartKey(a) == StartKey(b) && a != b
    ensures IsTimeValid(SeedTimes(a.time).0, SeedTimes(a.time).1)
    ensures SortByStart(Splice([a, b], 0) + [Retime(a, SeedTimes(a.time).0, SeedTimes(a.time).1)]) == [b, a]
    ensures [b, a] != [a, b]
  {
    RetimeOwnTimes(a);
    var r := Retime(a, SeedTimes(a.time).0, SeedTimes(a.time).1);
    assert Splice([a, b], 0) + [r] == [b, a];
    assert [b, a][..1] == [b] && [b][..0] == [];
    assert SortBy([b], StartKey) == [b];
    assert Insert([b], a, StartKey) == [b] + Insert([], a, StartKey);
  }
}
