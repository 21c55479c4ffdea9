/**
 * Time windows: the "HH:MM" times of the relocation dialog, the "S - E" label
 * a work item carries, the validation gate and the derived duration.
 *
 * Times stay strings, as in the source, so that a label can be split and
 * rebuilt exactly; a time's meaning is its minute of the day.
 */
module TimeWindow {
  import opened Wrappers

  const MinutesPerDay: nat := 24 * 60

  predicate IsDigit(c: char) { '0' <= c <= '9' }

  function Digit(c: char): (d: nat)
    requires IsDigit(c)
    ensures d < 10
  {
    c as int - '0' as int
  }

  function Clock(h: nat, m: nat): (r: Option<nat>)
    ensures r.Some? <==> h < 24 && m < 60
    ensures r.Some? ==> r.value / 60 == h && r.value % 60 == m
  {
    if h < 24 && m < 60 then Some(60 * h + m) else None
  }

  /**
   * The minute of the day of an "H:MM" or "HH:MM" 24-hour time, or None when
   * the text is not such a time (the source's `new Date("2000/01/01 " + s)`
   * is then an invalid date).
   */
  function ParseTime(s: string): (r: Option<nat>)
    ensures r.Some? ==> r.value < MinutesPerDay
    ensures r.Some? ==> |s| == 4 || |s| == 5
    ensures r.Some? ==> forall i :: 0 <= i < |s| ==> s[i] == ':' || IsDigit(s[i])
  {
    if |s| == 4 && IsDigit(s[0]) && s[1] == ':' && IsDigit(s[2]) && IsDigit(s[3]) then
      Clock(Digit(s[0]), 10 * Digit(s[2]) + Digit(s[3]))
    else if |s| == 5 && IsDigit(s[0]) && IsDigit(s[1]) && s[2] == ':' && IsDigit(s[3]) && IsDigit(s[4]) then
      Clock(10 * Digit(s[0]) + Digit(s[1]), 10 * Digit(s[3]) + Digit(s[4]))
    else
      None
  }

  /** An "H:MM" time is the minute of its zero-padded "0H:MM" form. */
  lemma ParseShortTime(s: string)
    requires |s| == 4
    ensures ParseTime(s) == ParseTime(['0'] + s)
  {
    assert (['0'] + s)[1..] == s;
  }

  /** A time that parses contains no space, so it never holds the label separator. */
  lemma ParsedHasNoSpace(s: string)
    requires ParseTime(s).Some?
    ensures ' ' !in s && s != ""
  {
    forall i | 0 <= i < |s| ensures s[i] != ' ' {}
  }

  function DigitChar(d: nat): (c: char)
    requires d < 10
    ensures IsDigit(c) && Digit(c) == d
  {
    ('0' as int + d) as char
  }

  /** The "HH:MM" text a time input field holds for a minute of the day. */
  function FormatTime(m: nat): (s: string)
    requires m < MinutesPerDay
    ensures |s| == 5 && s[2] == ':'
  {
    var h, mm := m / 60, m % 60;
    [DigitChar(h / 10), DigitChar(h % 10), ':', DigitChar(mm / 10), DigitChar(mm % 10)]
  }

  /** Every time a time field can hold parses back to its minute. */
  lemma FormatThenParse(m: nat)
    requires m < MinutesPerDay
    ensures ParseTime(FormatTime(m)) == Some(m)
  {
    var s := FormatTime(m);
    var h, mm := m / 60, m % 60;
    assert 10 * Digit(s[0]) + Digit(s[1]) == h;
    assert 10 * Digit(s[3]) + Digit(s[4]) == mm;
  }

  lemma TwoDigits(a: nat, b: nat)
    requires b < 10
    ensures (10 * a + b) / 10 == a && (10 * a + b) % 10 == b
  {
  }

  /** A five-character time is the formatted text of the minute it parses to. */
  lemma ParseThenFormat(s: string)
    requires |s| == 5 && ParseTime(s).Some?
    ensures FormatTime(ParseTime(s).value) == s
  {
    var m := ParseTime(s).value;
    var h, mm := 10 * Digit(s[0]) + Digit(s[1]), 10 * Digit(s[3]) + Digit(s[4]);
    assert m / 60 == h && m % 60 == mm;
    TwoDigits(Digit(s[0]), Digit(s[1]));
    TwoDigits(Digit(s[3]), Digit(s[4]));
    var f := FormatTime(m);
    assert f[0] == s[0] && f[1] == s[1] && f[3] == s[3] && f[4] == s[4];
  }

  /**
   * `isTimeValid`: false when either field is empty, and otherwise true
   * exactly when both times parse and the start is strictly earlier (a
   * comparison with an invalid date is false).
   */
  function IsTimeValid(start: string, end: string): (r: bool)
    ensures start == "" || end == "" ==> !r
    ensures r ==> ParseTime(start).Some? && ParseTime(end).Some?
  {
    if start == "" || end == "" then false
    else
      match (ParseTime(start), ParseTime(end))
      case (Some(a), Some(b)) => a < b
      case _ => false
  }

  /** The signed length in minutes of a window whose two ends parse. */
  function DurationMinutes(start: string, end: string): (d: Option<int>)
    ensures d.Some? <==> ParseTime(start).Some? && ParseTime(end).Some?
    ensures d.Some? ==> -(MinutesPerDay as int) < d.value < MinutesPerDay
  {
    match (ParseTime(start), ParseTime(end))
    case (Some(a), Some(b)) => Some(b as int - a)
    case _ => None
  }

  /** The gate admits a window exactly when it has a positive duration. */
  lemma ValidIffPositiveDuration(start: string, end: string)
    ensures IsTimeValid(start, end) <==> DurationMinutes(start, end).Some? && DurationMinutes(start, end).value > 0
  {
    if ParseTime(start).Some? { ParsedHasNoSpace(start); }
    if ParseTime(end).Some? { ParsedHasNoSpace(end); }
  }

  /** A window whose start is not before its end never passes the gate. */
  lemma StartNotBeforeEndRejected(start: string, end: string, a: nat, b: nat)
    requires ParseTime(start) == Some(a) && ParseTime(end) == Some(b) && b <= a
    ensures !IsTimeValid(start, end)
  {
  }

  /**
   * `Number(hoursDiff.toFixed(2))` for a positive whole number of minutes, in
   * hundredths of an hour: the nearest integer to 100 * minutes / 60 (the
   * quotient is a multiple of 1/3, so no rounding tie arises).
   */
  function HoursOf(minutes: nat): (h: nat)
    ensures -30 < 60 * h - 100 * minutes < 30
  {
    var q := (5 * minutes + 1) / 3;
    assert 5 * minutes + 1 == 3 * q + (5 * minutes + 1) % 3;
    q
  }

  /** Hundredths of an hour are exact for whole multiples of three minutes. */
  lemma HoursOfExact(minutes: nat)
    requires minutes % 3 == 0
    ensures 60 * HoursOf(minutes) == 100 * minutes
  {
  }

  /** The hours a valid window is worth, recomputed from its two times. */
  function WindowHours(start: string, end: string): (h: nat)
    requires IsTimeValid(start, end)
    ensures h > 0
    ensures -30 < 60 * h - 100 * DurationMinutes(start, end).value < 30
  {
    HoursOf(ParseTime(end).value - ParseTime(start).value)
  }

  // The "S - E" label of a work item.

  const Separator: string := " - "

  function Label(start: string, end: string): (t: string)
  {
    start + Separator + end
  }

  /** The separator starts at position `j` of `t`. */
  predicate SeparatorAt(t: string, j: int)
  {
    0 <= j && j + 3 <= |t| && t[j] == ' ' && t[j + 1] == '-' && t[j + 2] == ' '
  }

  /** The first position at or after `from` where the separator starts, if any. */
  function FindSeparator(t: string, from: nat): (r: Option<nat>)
    ensures r.Some? ==> from <= r.value && SeparatorAt(t, r.value)
    ensures r.Some? ==> forall j :: from <= j < r.value ==> !SeparatorAt(t, j)
    ensures r.None? ==> forall j :: from <= j ==> !SeparatorAt(t, j)
    decreases |t| - from
  {
    if from + 3 > |t| then None
    else if SeparatorAt(t, from) then Some(from)
    else FindSeparator(t, from + 1)
  }

  /** The pieces joined back with the separator between them (`Array.prototype.join(" - ")`). */
  function Join(parts: seq<string>): (t: string)
    requires |parts| >= 1
  {
    if |parts| == 1 then parts[0] else parts[0] + Separator + Join(parts[1..])
  }

  /** `t.split(" - ")`: the pieces between separators, scanning left to right. */
  function Split(t: string): (parts: seq<string>)
    ensures |parts| >= 1
    ensures Join(parts) == t
    decreases |t|
  {
    match FindSeparator(t, 0)
    case None => [t]
    case Some(i) =>
      var rest := Split(t[i + 3..]);
      assert t == t[..i] + Separator + t[i + 3..];
      [t[..i]] + rest
  }

  /**
   * `split` cuts at the leftmost occurrences: each piece but the last is
   * followed by a separator that is the first one in that piece plus the
   * separator, and no separator is found in the last piece. With Join this
   * determines the pieces.
   */
  lemma {:induction false} SplitCutsLeftmost(t: string)
    ensures var parts := Split(t);
      && (forall k, j :: 0 <= k < |parts| - 1 && 0 <= j < |parts[k]| ==> !SeparatorAt(parts[k] + Separator, j))
      && FindSeparator(parts[|parts| - 1], 0).None?
    decreases |t|
  {
    match FindSeparator(t, 0)
    case None =>
    case Some(i) =>
      SplitCutsLeftmost(t[i + 3..]);
      FirstCutLeftmost(t, i);
      assert Split(t) == [t[..i]] + Split(t[i + 3..]);
      ConsLeftmost(t[..i], Split(t[i + 3..]));
  }

  /**
   * Conversely, pieces that join back to `t` and are cut at the leftmost
   * occurrences are exactly `Split(t)`: nothing else satisfies both.
   */
  lemma {:induction false} SplitUnique(parts: seq<string>, t: string)
    requires |parts| >= 1 && Join(parts) == t
    requires forall k, j :: 0 <= k < |parts| - 1 && 0 <= j < |parts[k]| ==> !SeparatorAt(parts[k] + Separator, j)
    requires FindSeparator(parts[|parts| - 1], 0).None?
    ensures Split(t) == parts
    decreases |parts|
  {
    if |parts| > 1 {
      var first, rest := parts[0], parts[1..];
      var i := |first|;
      assert t == first + Separator + Join(rest);
      FirstSeparatorAt(t, first, Join(rest));
      assert t[..i] == first && t[i + 3..] == Join(rest);
      assert forall k :: 0 <= k < |rest| ==> rest[k] == parts[k + 1];
      SplitUnique(rest, Join(rest));
    }
  }

  /** In `first + " - " + tail`, with no separator ending inside `first`, the first separator is the one after `first`. */
  lemma FirstSeparatorAt(t: string, first: string, tail: string)
    requires t == first + Separator + tail
    requires forall j :: 0 <= j < |first| ==> !SeparatorAt(first + Separator, j)
    ensures FindSeparator(t, 0) == Some(|first|)
  {
    var i := |first|;
    var u := first + Separator;
    assert SeparatorAt(t, i) by { assert t[i] == ' ' && t[i + 1] == '-' && t[i + 2] == ' '; }
    forall j | 0 <= j < i ensures !SeparatorAt(t, j) {
      assert !SeparatorAt(u, j);
      assert u[j] == t[j] && u[j + 1] == t[j + 1] && u[j + 2] == t[j + 2];
    }
  }

  /** A leftmost first cut in front of leftmost pieces gives leftmost pieces. */
  lemma ConsLeftmost(first: string, rest: seq<string>)
    requires |rest| >= 1
    requires forall j :: 0 <= j < |first| ==> !SeparatorAt(first + Separator, j)
    requires forall k, j :: 0 <= k < |rest| - 1 && 0 <= j < |rest[k]| ==> !SeparatorAt(rest[k] + Separator, j)
    requires FindSeparator(rest[|rest| - 1], 0).None?
    ensures var parts := [first] + rest;
      && (forall k, j :: 0 <= k < |parts| - 1 && 0 <= j < |parts[k]| ==> !SeparatorAt(parts[k] + Separator, j))
      && FindSeparator(parts[|parts| - 1], 0).None?
  {
    var parts := [first] + rest;
    assert forall k :: 1 <= k < |parts| ==> parts[k] == rest[k - 1];
  }

  /** The first separator of `t` is the first one in the piece before it plus the separator. */
  lemma FirstCutLeftmost(t: string, i: nat)
    requires FindSeparator(t, 0) == Some(i)
    ensures forall j :: 0 <= j < i ==> !SeparatorAt(t[..i] + Separator, j)
  {
    var u := t[..i] + Separator;
    assert u == t[..i + 3];
    forall j | 0 <= j < i ensures !SeparatorAt(u, j) {
      assert !SeparatorAt(t, j);
      assert u[j] == t[j] && u[j + 1] == t[j + 1] && u[j + 2] == t[j + 2];
    }
  }

  /**
   * `const [start, end] = label.split(" - ")`: the two times the dialog is
   * seeded with; a missing second piece (`undefined`, which the gate treats
   * like an empty field) is the empty string.
   */
  function SeedTimes(t: string): (seeds: (string, string))
  {
    var parts := Split(t);
    (parts[0], if |parts| >= 2 then parts[1] else "")
  }

  /** Splitting a label built from two space-free times gives those two times back. */
  lemma SplitLabel(start: string, end: string)
    requires ' ' !in start && ' ' !in end
    ensures Split(Label(start, end)) == [start, end]
    ensures SeedTimes(Label(start, end)) == (start, end)
  {
    var t := Label(start, end);
    var k := |start|;
    assert SeparatorAt(t, k);
    forall j | 0 <= j < k ensures !SeparatorAt(t, j) {
      assert t[j] == start[j];
    }
    assert FindSeparator(t, 0) == Some(k);
    assert t[..k] == start && t[k + 3..] == end;
    forall j | 0 <= j < |end| ensures !SeparatorAt(end, j) {
      assert end[j] in end;
    }
    assert FindSeparator(end, 0) == None;
  }

  /** A label built by joining two parseable times with the separator. */
  ghost predicate IsWindowLabel(t: string)
  {
    exists start, end :: t == Label(start, end) && ParseTime(start).Some? && ParseTime(end).Some?
  }

  /** Such a label seeds the dialog with exactly its two times, and rebuilding them gives it back. */
  lemma WindowLabelSeeds(t: string)
    requires IsWindowLabel(t)
    ensures WellFormedLabel(t)
    ensures Label(SeedTimes(t).0, SeedTimes(t).1) == t
  {
    var start, end :| t == Label(start, end) && ParseTime(start).Some? && ParseTime(end).Some?;
    ParsedHasNoSpace(start);
    ParsedHasNoSpace(end);
    SplitLabel(start, end);
  }

  /** A label is well formed when it splits into exactly two parseable times. */
  predicate WellFormedLabel(t: string)
  {
    var parts := Split(t);
    |parts| == 2 && ParseTime(parts[0]).Some? && ParseTime(parts[1]).Some?
  }

  /** The label of a window that passed the gate is well formed and splits back into it. */
  lemma ValidWindowLabel(start: string, end: string)
    requires IsTimeValid(start, end)
    ensures Split(Label(start, end)) == [start, end]
    ensures WellFormedLabel(Label(start, end)) && IsWindowLabel(Label(start, end))
  {
    ParsedHasNoSpace(start);
    ParsedHasNoSpace(end);
    SplitLabel(start, end);
  }
}
