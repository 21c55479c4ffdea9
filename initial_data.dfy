/**
 * The roster the application starts with: one week of work items, given to
 * four operators and three floaters ("Jolly"). Hours are in hundredths of an
 * hour, as everywhere in the model.
 */
module InitialData {
  import opened Wrappers
  import opened TimeWindow
  import opened Schedule
  import opened Roster

  function Entry(id: string, start: string, end: string, activity: string, hours: nat): (it: Item)
  {
    Item(id, Label(start, end), activity, hours)
  }

  const Monday: DaySchedule := DaySchedule("Lunedì", [
    Entry("1", "6:50", "8:30", "MARINA BLU (CON MONICA)", 250),
    Entry("2", "14:00", "15:30", "BANCA MALATESTIANA CELLE", 150),
    Entry("3", "16:45", "20:00", "OPPORTUNITY", 325)])

  const Tuesday: DaySchedule := DaySchedule("Martedì", [
    Entry("4", "5:30", "7:30", "TRASCONTI + MARIA", 200),
    Entry("5", "8:00", "11:00", "F.LLI ROSSI POGGIO TORRIANA + MARIA", 300),
    Entry("6", "12:00", "14:00", "NINAIA", 100),
    Entry("7", "14:00", "15:00", "BANCA MALATESTIANA CELLE", 100),
    Entry("8", "17:30", "21:00", "COCCI + SIMONCELLI", 350)])

  const Wednesday: DaySchedule := DaySchedule("Mercoledì", [
    Entry("9", "4:30", "7:30", "NUOVA RICERCA + CARMEN", 300),
    Entry("10", "8:00", "9:00", "LAB TRAVEL + CARMEN", 100)])

  const Thursday: DaySchedule := DaySchedule("Giovedì", [
    Entry("11", "9:00", "12:00", "SCM STEELMEC VILLA VERUCCHIO + MARIANNA", 300),
    Entry("12", "16:00", "18:00", "SAMIR VIA TANARO 3/O", 100),
    Entry("13", "16:00", "18:30", "SAMIR VIA LUCIANO LAMA 8", 250)])

  const Friday: DaySchedule := DaySchedule("Venerdì", [
    Entry("14", "10:00", "18:30", "SCM VIA EMILIA 71 MARCONI + ABDEL", 800),
    Entry("15", "4:30", "7:30", "NUOVA RICERCA - RIMINI + LJUBOV", 300)])

  const Saturday: DaySchedule := DaySchedule("Sabato", [
    Entry("16", "6:00", "9:00", "SAMIR + CARMEN", 300),
    Entry("17", "11:00", "18:30", "SCM VIA EMILIA 71 MARCONI + ABDEL", 750)])

  const Sunday: DaySchedule := DaySchedule("Domenica", [
    Entry("18", "4:00", "9:00", "SCM VIA EMILIA 77 ASTOLFI - RIMINI + LATIFA", 500),
    Entry("19", "14:30", "19:30", "SCM VIA EMILIA 77 ASTOLFI - RIMINI + LATIFA", 500)])

  const InitialScheduleData: seq<DaySchedule> := [Monday, Tuesday, Wednesday, Thursday, Friday, Saturday, Sunday]

  const InitialOperators: seq<Operator> := [
    Operator("Operatrice 1", InitialScheduleData, false),
    Operator("Operatrice 2", InitialScheduleData, false),
    Operator("Operatrice 3", InitialScheduleData, false),
    Operator("Operatrice 4", InitialScheduleData, false),
    Operator("Jolly 1", InitialScheduleData, true),
    Operator("Jolly 2", InitialScheduleData, true),
    Operator("Jolly 3", InitialScheduleData, true)]

  lemma EntryLabel(start: string, end: string, a: nat, b: nat)
    requires ParseTime(start) == Some(a) && ParseTime(end) == Some(b)
    ensures IsWindowLabel(Label(start, end))
  {
  }

  lemma MondayWellFormed()
    ensures DayLabelsWellFormed(Monday.items)
  {
    forall i | 0 <= i < |Monday.items| ensures IsWindowLabel(Monday.items[i].time) {
      if i == 0 {
        EntryLabel("6:50", "8:30", 410, 510);
      } else if i == 1 {
        EntryLabel("14:00", "15:30", 840, 930);
      } else {
        EntryLabel("16:45", "20:00", 1005, 1200);
      }
    }
  }

  lemma TuesdayWellFormed()
    ensures DayLabelsWellFormed(Tuesday.items)
  {
    forall i | 0 <= i < |Tuesday.items| ensures IsWindowLabel(Tuesday.items[i].time) {
      if i == 0 {
        EntryLabel("5:30", "7:30", 330, 450);
      } else if i == 1 {
        EntryLabel("8:00", "11:00", 480, 660);
      } else if i == 2 {
        EntryLabel("12:00", "14:00", 720, 840);
      } else if i == 3 {
        EntryLabel("14:00", "15:00", 840, 900);
      } else {
        EntryLabel("17:30", "21:00", 1050, 1260);
      }
    }
  }

  lemma WednesdayWellFormed()
    ensures DayLabelsWellFormed(Wednesday.items)
  {
    forall i | 0 <= i < |Wednesday.items| ensures IsWindowLabel(Wednesday.items[i].time) {
      if i == 0 {
        EntryLabel("4:30", "7:30", 270, 450);
      } else {
        EntryLabel("8:00", "9:00", 480, 540);
      }
    }
  }

  lemma ThursdayWellFormed()
    ensures DayLabelsWellFormed(Thursday.items)
  {
    forall i | 0 <= i < |Thursday.items| ensures IsWindowLabel(Thursday.items[i].time) {
      if i == 0 {
        EntryLabel("9:00", "12:00", 540, 720);
      } else if i == 1 {
        EntryLabel("16:00", "18:00", 960, 1080);
      } else {
        EntryLabel("16:00", "18:30", 960, 1110);
      }
    }
  }

  lemma FridayWellFormed()
    ensures DayLabelsWellFormed(Friday.items)
  {
    forall i | 0 <= i < |Friday.items| ensures IsWindowLabel(Friday.items[i].time) {
      if i == 0 {
        EntryLabel("10:00", "18:30", 600, 1110);
      } else {
        EntryLabel("4:30", "7:30", 270, 450);
      }
    }
  }

  lemma SaturdayWellFormed()
    ensures DayLabelsWellFormed(Saturday.items)
  {
    forall i | 0 <= i < |Saturday.items| ensures IsWindowLabel(Saturday.items[i].time) {
      if i == 0 {
        EntryLabel("6:00", "9:00", 360, 540);
      } else {
        EntryLabel("11:00", "18:30", 660, 1110);
      }
    }
  }

  lemma SundayWellFormed()
    ensures DayLabelsWellFormed(Sunday.items)
  {
    forall i | 0 <= i < |Sunday.items| ensures IsWindowLabel(Sunday.items[i].time) {
      if i == 0 {
        EntryLabel("4:00", "9:00", 240, 540);
      } else {
        EntryLabel("14:30", "19:30", 870, 1170);
      }
    }
  }

  /** The week's days are named in the canonical order, and every label is a well-formed window. */
  lemma InitialWeekWellFormed()
    ensures |InitialScheduleData| == |DaysOfWeek|
    ensures forall d :: 0 <= d < 7 ==> InitialScheduleData[d].day == DaysOfWeek[d]
    ensures forall d :: 0 <= d < 7 ==> DayLabelsWellFormed(InitialScheduleData[d].items)
  {
    forall d | 0 <= d < 7 ensures DayLabelsWellFormed(InitialScheduleData[d].items) {
      DayWellFormed(d);
    }
  }

  lemma DayWellFormed(d: nat)
    requires d < 7
    ensures DayLabelsWellFormed(InitialScheduleData[d].items)
  {
    if d == 0 { assert InitialScheduleData[d] == Monday; MondayWellFormed(); }
    else if d == 1 { assert InitialScheduleData[d] == Tuesday; TuesdayWellFormed(); }
    else if d == 2 { assert InitialScheduleData[d] == Wednesday; WednesdayWellFormed(); }
    else if d == 3 { assert InitialScheduleData[d] == Thursday; ThursdayWellFormed(); }
    else if d == 4 { assert InitialScheduleData[d] == Friday; FridayWellFormed(); }
    else if d == 5 { assert InitialScheduleData[d] == Saturday; SaturdayWellFormed(); }
    else { assert InitialScheduleData[d] == Sunday; SundayWellFormed(); }
  }

  /** The starting roster satisfies the roster invariant. */
  lemma InitialRosterValid()
    ensures RosterValid(InitialOperators)
  {
    InitialWeekWellFormed();
    forall o: nat, d: nat | SlotExists(InitialOperators, o, d)
      ensures DayLabelsWellFormed(ItemsAt(InitialOperators, o, d))
    {
      assert InitialOperators[o].schedule == InitialScheduleData;
    }
  }

  lemma StartOfEntry(it: Item, start: string, end: string, a: nat, b: nat)
    requires it.time == Label(start, end) && ParseTime(start) == Some(a) && ParseTime(end) == Some(b)
    ensures StartKey(it) == a
  {
    ParsedHasNoSpace(start);
    ParsedHasNoSpace(end);
    SplitLabel(start, end);
  }

  lemma OutOfOrder(s: seq<Item>, i: nat, j: nat)
    requires i < j < |s| && StartKey(s[i]) > StartKey(s[j])
    ensures !SortedByStart(s)
  {
  }

  /** Days are not kept sorted in general: Friday starts with a 10:00 item followed by a 4:30 one. */
  lemma InitialFridayUnsorted()
    ensures !SortedByStart(Friday.items)
  {
    FirstTwoOutOfOrder(Friday.items, "10:00", "18:30", 600, 1110, "4:30", "7:30", 270, 450);
  }

  lemma FirstTwoOutOfOrder(s: seq<Item>, s0: string, e0: string, a0: nat, b0: nat, s1: string, e1: string, a1: nat, b1: nat)
    requires |s| >= 2 && s[0].time == Label(s0, e0) && s[1].time == Label(s1, e1)
    requires ParseTime(s0) == Some(a0) && ParseTime(e0) == Some(b0)
    requires ParseTime(s1) == Some(a1) && ParseTime(e1) == Some(b1)
    requires a0 > a1
    ensures !SortedByStart(s)
  {
    StartOfEntry(s[0], s0, e0, a0, b0);
    StartOfEntry(s[1], s1, e1, a1, b1);
    OutOfOrder(s, 0, 1);
  }

  /**
   * The stored hours are not always those of the label: item 1 is labelled
   * 6:50 - 8:30, 1 hour 40 minutes, yet carries 2.5 hours.
   */
  lemma InitialHoursNotDerived()
    ensures !HoursConsistent(Monday.items[0])
  {
    var it := Monday.items[0];
    SplitLabel("6:50", "8:30");
    assert SeedTimes(it.time) == ("6:50", "8:30");
    assert WindowHours("6:50", "8:30") == 167;
  }

  /** An entry whose hours are those of its window has up-to-date hours. */
  lemma EntryConsistent(it: Item, start: string, end: string, a: nat, b: nat)
    requires it.time == Label(start, end) && ParseTime(start) == Some(a) && ParseTime(end) == Some(b)
    requires a < b && it.hours == HoursOf(b - a)
    ensures HoursConsistent(it)
  {
    ParsedHasNoSpace(start);
    ParsedHasNoSpace(end);
    SplitLabel(start, end);
  }

  /**
   * Dropping the seed Friday's "4:30 - 7:30" item (whose 3 hours match its
   * window) back onto Friday with its own times does not leave Friday as it
   * was: the day comes back re-sorted, with that item first.
   */
  lemma InitialFridaySameSlotDrop()
    ensures var b := Friday.items[1];
      && IsTimeValid(SeedTimes(b.time).0, SeedTimes(b.time).1)
      && SortByStart(Splice(Friday.items, 1) + [Retime(b, SeedTimes(b.time).0, SeedTimes(b.time).1)])
         == [b, Friday.items[0]]
      && [b, Friday.items[0]] != Friday.items
  {
    var a, b := Friday.items[0], Friday.items[1];
    assert ParseTime("4:30") == Some(270) && ParseTime("7:30") == Some(450);
    assert ParseTime("10:00") == Some(600) && ParseTime("18:30") == Some(1110);
    EntryConsistent(b, "4:30", "7:30", 270, 450);
    StartOfEntry(a, "10:00", "18:30", 600, 1110);
    StartOfEntry(b, "4:30", "7:30", 270, 450);
    assert Friday.items == [a, b];
    SameSlotResortsUnsortedDay(a, b);
  }
}
