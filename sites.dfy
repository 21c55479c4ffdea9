/**
 * The work-site shift store: creating a site with seven empty days, adding,
 * editing and deleting a shift addressed by (site id, day, index), and
 * deleting a site. Every handler builds a new list of sites by `map`,
 * `filter` and spread, so each one is a function from the old list to the new.
 */
module Sites {
  import opened Text
  import opened Schedule

  datatype Shift = Shift(startTime: string, endTime: string, operatorCount: int)

  /** A site's week: day name to that day's shifts. */
  type Week = map<string, seq<Shift>>

  datatype WorkSite = WorkSite(id: string, name: string, schedule: Week)

  /** The list of sites together with the text of the "new site" input. */
  datatype SiteStore = SiteStore(workSites: seq<WorkSite>, newWorkSite: string)

  /** The shift every "add shift" click appends. */
  const DefaultShift := Shift("09:00", "17:00", 1)

  /** One field of a shift together with its new value. */
  datatype ShiftEdit =
    | SetStartTime(startTime: string)
    | SetEndTime(endTime: string)
    | SetOperatorCount(operatorCount: int)

  /** Day names that schedule a week, as a set. */
  ghost function DaySet(days: seq<string>): (ds: set<string>)
  {
    set d | d in days
  }

  /** The `reduce` over the day names that gives each day an empty shift list. */
  function EmptyWeek(days: seq<string>): (w: Week)
    ensures w.Keys == DaySet(days)
    ensures forall d :: d in w ==> w[d] == []
  {
    if days == [] then map[]
    else
      var w0 := EmptyWeek(days[..|days| - 1]);
      assert days == days[..|days| - 1] + [days[|days| - 1]];
      w0[days[|days| - 1] := []]
  }

  /** The site "add site" creates from an input text and a fresh id. */
  function NewSite(id: string, input: string): (site: WorkSite)
  {
    WorkSite(id, Trim(input), EmptyWeek(DaysOfWeek))
  }

  predicate IdFresh(sites: seq<WorkSite>, id: string)
  {
    forall i :: 0 <= i < |sites| ==> sites[i].id != id
  }

  /**
   * "Add site": a blank input changes nothing (the input text included);
   * otherwise a new site with the trimmed name and a week of empty days is
   * appended and the input is cleared. The id stands for the generated UUID,
   * which is assumed distinct from every existing id.
   */
  function AddWorkSite(st: SiteStore, id: string): (r: SiteStore)
    requires IdFresh(st.workSites, id)
    ensures AllWhitespace(st.newWorkSite) ==> r == st
    ensures !AllWhitespace(st.newWorkSite) ==>
      && r.newWorkSite == ""
      && |r.workSites| == |st.workSites| + 1
      && r.workSites[..|st.workSites|] == st.workSites
      && var site := r.workSites[|st.workSites|];
         && site.id == id
         && site.name == Trim(st.newWorkSite) && site.name != []
         && site.schedule.Keys == DaySet(DaysOfWeek)
         && forall d :: d in site.schedule ==> site.schedule[d] == []
  {
    TrimEmptyIffBlank(st.newWorkSite);
    if Trim(st.newWorkSite) == [] then st
    else SiteStore(st.workSites + [NewSite(id, st.newWorkSite)], "")
  }

  /** Every site with id `siteId` has a shift list for `day`. */
  predicate HasDay(sites: seq<WorkSite>, siteId: string, day: string)
  {
    forall i :: 0 <= i < |sites| && sites[i].id == siteId ==> day in sites[i].schedule
  }

  /** Every site with id `siteId` has a shift `index` on `day`. */
  predicate HasShift(sites: seq<WorkSite>, siteId: string, day: string, index: nat)
  {
    forall i :: 0 <= i < |sites| && sites[i].id == siteId ==>
      day in sites[i].schedule && index < |sites[i].schedule[day]|
  }

  /** `site` with the shifts of `day` replaced by `shifts`. */
  function WithShifts(site: WorkSite, day: string, shifts: seq<Shift>): (r: WorkSite)
  {
    site.(schedule := site.schedule[day := shifts])
  }

  /**
   * The two sites agree everywhere but on the shifts of `day`, where `after`
   * holds `shifts`.
   */
  predicate OnlyDayChanged(before: WorkSite, after: WorkSite, day: string, shifts: seq<Shift>)
  {
    && after.id == before.id && after.name == before.name
    && after.schedule.Keys == before.schedule.Keys
    && day in after.schedule && after.schedule[day] == shifts
    && forall d :: d in before.schedule && d != day ==> after.schedule[d] == before.schedule[d]
  }

  /** "Add shift": the default shift is appended to `day` of the sites with that id, and nothing else changes. */
  function AddShift(sites: seq<WorkSite>, siteId: string, day: string): (r: seq<WorkSite>)
    requires HasDay(sites, siteId, day)
    ensures |r| == |sites|
    ensures forall i :: 0 <= i < |sites| && sites[i].id != siteId ==> r[i] == sites[i]
    ensures forall i :: 0 <= i < |sites| && sites[i].id == siteId ==>
      OnlyDayChanged(sites[i], r[i], day, sites[i].schedule[day] + [DefaultShift])
  {
    seq(|sites|, i requires 0 <= i < |sites| =>
      if sites[i].id == siteId then WithShifts(sites[i], day, sites[i].schedule[day] + [DefaultShift])
      else sites[i])
  }

  /** The spread `{ ...shift, [field]: value }`: exactly the edited field takes the new value. */
  function ApplyEdit(sh: Shift, e: ShiftEdit): (r: Shift)
    ensures r.startTime == (if e.SetStartTime? then e.startTime else sh.startTime)
    ensures r.endTime == (if e.SetEndTime? then e.endTime else sh.endTime)
    ensures r.operatorCount == (if e.SetOperatorCount? then e.operatorCount else sh.operatorCount)
  {
    match e
    case SetStartTime(t) => sh.(startTime := t)
    case SetEndTime(t) => sh.(endTime := t)
    case SetOperatorCount(n) => sh.(operatorCount := n)
  }

  /** "Update shift": shift `index` of `day` of the sites with that id is edited, and nothing else changes. */
  function UpdateShift(sites: seq<WorkSite>, siteId: string, day: string, index: nat, e: ShiftEdit): (r: seq<WorkSite>)
    requires HasShift(sites, siteId, day, index)
    ensures |r| == |sites|
    ensures forall i :: 0 <= i < |sites| && sites[i].id != siteId ==> r[i] == sites[i]
    ensures forall i :: 0 <= i < |sites| && sites[i].id == siteId ==>
      var old' := sites[i].schedule[day];
      OnlyDayChanged(sites[i], r[i], day, old'[index := ApplyEdit(old'[index], e)])
  {
    seq(|sites|, i requires 0 <= i < |sites| =>
      if sites[i].id == siteId then
        var shifts := sites[i].schedule[day];
        WithShifts(sites[i], day, shifts[index := ApplyEdit(shifts[index], e)])
      else sites[i])
  }

  /**
   * `filter((_, index) => index !== i)`: drops the element at position `i`
   * and keeps the rest in order; an out-of-range `i` drops nothing.
   */
  function DropIndex<T>(s: seq<T>, i: int): (r: seq<T>)
    ensures 0 <= i < |s| ==> r == s[..i] + s[i + 1..]
    ensures !(0 <= i < |s|) ==> r == s
  {
    if s == [] then []
    else
      var rest := DropIndex(s[1..], i - 1);
      assert 0 < i <= |s| - 1 ==> s[..i] + s[i + 1..] == [s[0]] + (s[1..][..i - 1] + s[1..][i..]);
      (if i == 0 then [] else [s[0]]) + rest
  }

  /** "Delete shift": shift `shiftIndex` of `day` is removed from the sites with that id, and nothing else changes. */
  function DeleteShift(sites: seq<WorkSite>, siteId: string, day: string, shiftIndex: int): (r: seq<WorkSite>)
    requires HasDay(sites, siteId, day)
    ensures |r| == |sites|
    ensures forall i :: 0 <= i < |sites| && sites[i].id != siteId ==> r[i] == sites[i]
    ensures forall i :: 0 <= i < |sites| && sites[i].id == siteId ==>
      var old' := sites[i].schedule[day];
      OnlyDayChanged(sites[i], r[i], day, if 0 <= shiftIndex < |old'| then old'[..shiftIndex] + old'[shiftIndex + 1..] else old')
  {
    seq(|sites|, i requires 0 <= i < |sites| =>
      if sites[i].id == siteId then WithShifts(sites[i], day, DropIndex(sites[i].schedule[day], shiftIndex))
      else sites[i])
  }

  /** "Delete site": `filter(site => site.id !== siteId)`. */
  function DeleteWorkSite(sites: seq<WorkSite>, siteId: string): (r: seq<WorkSite>)
    ensures forall s :: s in r <==> s in sites && s.id != siteId
    ensures |r| <= |sites|
  {
    if sites == [] then []
    else (if sites[0].id == siteId then [] else [sites[0]]) + DeleteWorkSite(sites[1..], siteId)
  }

  /** No two sites share an id. */
  predicate UniqueIds(sites: seq<WorkSite>)
  {
    forall i, j :: 0 <= i < j < |sites| ==> sites[i].id != sites[j].id
  }

  /** Every site schedules exactly the seven days of the week. */
  ghost predicate AllDaysPresent(sites: seq<WorkSite>)
  {
    forall i :: 0 <= i < |sites| ==> sites[i].schedule.Keys == DaySet(DaysOfWeek)
  }

  ghost predicate SitesValid(sites: seq<WorkSite>)
  {
    UniqueIds(sites) && AllDaysPresent(sites)
  }

  /** In a valid store every day of the week can be addressed, whatever the id. */
  lemma ValidHasEveryDay(sites: seq<WorkSite>, siteId: string, day: string)
    requires SitesValid(sites) && day in DaysOfWeek
    ensures HasDay(sites, siteId, day)
  {
  }

  /** A site id that no site carries leaves every shift handler without effect. */
  lemma UnknownIdUnchanged(sites: seq<WorkSite>, siteId: string, day: string, index: nat, e: ShiftEdit, shiftIndex: int)
    requires IdFresh(sites, siteId)
    ensures AddShift(sites, siteId, day) == sites
    ensures UpdateShift(sites, siteId, day, index, e) == sites
    ensures DeleteShift(sites, siteId, day, shiftIndex) == sites
  {
  }

  /** Two sites that agree on the shifts of every day are the same site. */
  lemma SameSite(a: WorkSite, b: WorkSite)
    requires a.id == b.id && a.name == b.name && a.schedule.Keys == b.schedule.Keys
    requires forall d :: d in a.schedule ==> a.schedule[d] == b.schedule[d]
    ensures a == b
  {
    assert a.schedule == b.schedule;
  }

  /** Deleting the shift just added gives the sites back. */
  lemma AddThenDeleteShift(sites: seq<WorkSite>, k: nat, day: string)
    requires UniqueIds(sites) && k < |sites| && day in sites[k].schedule
    ensures var siteId := sites[k].id;
      HasDay(sites, siteId, day) &&
      DeleteShift(AddShift(sites, siteId, day), siteId, day, |sites[k].schedule[day]|) == sites
  {
    var siteId := sites[k].id;
    var added := AddShift(sites, siteId, day);
    var n := |sites[k].schedule[day]|;
    var back := DeleteShift(added, siteId, day, n);
    forall i | 0 <= i < |sites| ensures back[i] == sites[i] {
      if i == k {
        var shifts := sites[k].schedule[day] + [DefaultShift];
        assert shifts[..n] + shifts[n + 1..] == sites[k].schedule[day];
        SameSite(back[k], sites[k]);
      } else {
        assert sites[i].id != siteId;
      }
    }
  }

  /** Applying the same edit twice is applying it once. */
  lemma UpdateShiftIdempotent(sites: seq<WorkSite>, siteId: string, day: string, index: nat, e: ShiftEdit)
    requires HasShift(sites, siteId, day, index)
    ensures var once := UpdateShift(sites, siteId, day, index, e);
      HasShift(once, siteId, day, index) && UpdateShift(once, siteId, day, index, e) == once
  {
    var once := UpdateShift(sites, siteId, day, index, e);
    var twice := UpdateShift(once, siteId, day, index, e);
    forall i | 0 <= i < |sites| ensures twice[i] == once[i] {
      if sites[i].id == siteId {
        SameSite(twice[i], once[i]);
      }
    }
  }

  /** Restoring the edited field's old value undoes an edit of a site with a unique id. */
  lemma UpdateShiftUndo(sites: seq<WorkSite>, k: nat, day: string, index: nat, e: ShiftEdit)
    requires UniqueIds(sites) && k < |sites| && HasShift(sites, sites[k].id, day, index)
    ensures var siteId := sites[k].id;
      var sh := sites[k].schedule[day][index];
      var undo := match e
        case SetStartTime(_) => SetStartTime(sh.startTime)
        case SetEndTime(_) => SetEndTime(sh.endTime)
        case SetOperatorCount(_) => SetOperatorCount(sh.operatorCount);
      var once := UpdateShift(sites, siteId, day, index, e);
      HasShift(once, siteId, day, index) && UpdateShift(once, siteId, day, index, undo) == sites
  {
    var siteId := sites[k].id;
    var sh := sites[k].schedule[day][index];
    var undo := match e
      case SetStartTime(_) => SetStartTime(sh.startTime)
      case SetEndTime(_) => SetEndTime(sh.endTime)
      case SetOperatorCount(_) => SetOperatorCount(sh.operatorCount);
    var once := UpdateShift(sites, siteId, day, index, e);
    var back := UpdateShift(once, siteId, day, index, undo);
    forall i | 0 <= i < |sites| ensures back[i] == sites[i] {
      if i == k {
        var shifts := sites[k].schedule[day];
        assert ApplyEdit(ApplyEdit(sh, e), undo) == sh;
        assert back[k].schedule[day] == shifts;
        SameSite(back[k], sites[k]);
      } else {
        assert sites[i].id != siteId;
      }
    }
  }

  lemma AddShiftKeepsValid(sites: seq<WorkSite>, siteId: string, day: string)
    requires SitesValid(sites) && day in DaysOfWeek
    ensures HasDay(sites, siteId, day) && SitesValid(AddShift(sites, siteId, day))
  {
  }

  lemma UpdateShiftKeepsValid(sites: seq<WorkSite>, siteId: string, day: string, index: nat, e: ShiftEdit)
    requires SitesValid(sites) && HasShift(sites, siteId, day, index)
    ensures SitesValid(UpdateShift(sites, siteId, day, index, e))
  {
  }

  lemma DeleteShiftKeepsValid(sites: seq<WorkSite>, siteId: string, day: string, shiftIndex: int)
    requires SitesValid(sites) && day in DaysOfWeek
    ensures HasDay(sites, siteId, day) && SitesValid(DeleteShift(sites, siteId, day, shiftIndex))
  {
  }

  lemma AddWorkSiteKeepsValid(st: SiteStore, id: string)
    requires SitesValid(st.workSites) && IdFresh(st.workSites, id)
    ensures SitesValid(AddWorkSite(st, id).workSites)
  {
    var r := AddWorkSite(st, id);
    if r != st {
      var site := NewSite(id, st.newWorkSite);
      assert r.workSites == st.workSites + [site];
      AppendKeepsValid(st.workSites, site);
    }
  }

  lemma AppendKeepsValid(sites: seq<WorkSite>, site: WorkSite)
    requires SitesValid(sites) && IdFresh(sites, site.id) && site.schedule.Keys == DaySet(DaysOfWeek)
    ensures SitesValid(sites + [site])
  {
    var r := sites + [site];
    assert forall i :: 0 <= i < |sites| ==> r[i] == sites[i];
  }

  /** Deleting a site keeps the remaining sites in their order: the filter distributes over concatenation. */
  lemma {:induction false} DeleteWorkSiteAppend(a: seq<WorkSite>, b: seq<WorkSite>, siteId: string)
    ensures DeleteWorkSite(a + b, siteId) == DeleteWorkSite(a, siteId) + DeleteWorkSite(b, siteId)
    decreases |a|
  {
    if a == [] {
      assert a + b == b;
    } else {
      assert (a + b)[1..] == a[1..] + b;
      DeleteWorkSiteAppend(a[1..], b, siteId);
    }
  }

  /** Deleting an id no site carries changes nothing. */
  lemma {:induction false} DeleteUnknownSite(sites: seq<WorkSite>, siteId: string)
    requires IdFresh(sites, siteId)
    ensures DeleteWorkSite(sites, siteId) == sites
    decreases |sites|
  {
    if sites != [] {
      DeleteUnknownSite(sites[1..], siteId);
    }
  }

  /** Deleting the site just added gives the sites back. */
  lemma AddThenDeleteSite(st: SiteStore, id: string)
    requires IdFresh(st.workSites, id)
    ensures DeleteWorkSite(AddWorkSite(st, id).workSites, id) == st.workSites
  {
    var r := AddWorkSite(st, id);
    if r != st {
      assert r.workSites == st.workSites + [NewSite(id, st.newWorkSite)];
      DeleteWorkSiteAppend(st.workSites, [NewSite(id, st.newWorkSite)], id);
      assert [NewSite(id, st.newWorkSite)][1..] == [];
    }
    DeleteUnknownSite(st.workSites, id);
  }

  /** What is left after deleting a site keeps distinct ids and full weeks. */
  lemma {:induction false} DeleteWorkSiteKeepsValid(sites: seq<WorkSite>, siteId: string)
    requires SitesValid(sites)
    ensures SitesValid(DeleteWorkSite(sites, siteId))
    decreases |sites|
  {
    if sites != [] {
      var rest := DeleteWorkSite(sites[1..], siteId);
      DeleteWorkSiteKeepsValid(sites[1..], siteId);
      forall j | 0 <= j < |rest| ensures rest[j].id != sites[0].id {
        assert rest[j] in sites[1..];
      }
    }
  }
}
