/** Sync sessions from their opening report to the ending one, and what they leave on a disk that fails nothing. */
module SyncLaws {
  import opened Bytes
  import opened Protocol
  import opened ClientRead
  import opened Paths
  import opened FileEntries
  import opened FileSys
  import opened TreeWalk
  import opened WalkLaws
  import opened Sweeping
  import opened Client
  import opened ClientLaws
  import opened SessionLaws

  // Sessions

  /** An accepted sync update whose two files could be written. */
  predicate GoodReport(c: Client, e: Event) {
    && Updates(c, e) && c.db.Some? && Has(e.msg.update.flags, HINT_SYNC)
    && var r := OnUpdate(c, e.msg.update, e.msg.icon).1;
    r.Accepted? && r.linked && r.hasIcon == e.msg.icon.Some?
  }

  /** Where the client puts its files. */
  predicate SameBases(c: Client, c': Client) {
    c'.menuPath == c.menuPath && c'.iconPath == c.iconPath
  }

  /**
   * What may come between two reports: anything but closing, a successful delete, or capabilities that move the
   * files.
   */
  predicate Between(host: Host, c: Client, e: Event) {
    && !e.Closing? && SameBases(c, Step(host, c, e))
    && (Deletes(c, e) && c.db.Some? ==> OnDelete(c, e.msg.delete).1.NotFound?)
  }

  /**
   * The events of a session: every update that reaches its handler is a good report, the last event, and no other,
   * is a report that ends the session.
   */
  predicate Session(host: Host, c: Client, es: seq<Event>)
    decreases |es|
  {
    && es != []
    && (if Updates(c, es[0]) then
          GoodReport(c, es[0]) && (Has(es[0].msg.update.flags, HINT_SYNC_END) <==> |es| == 1)
        else |es| > 1 && Between(host, c, es[0]))
    && (|es| > 1 ==> Session(host, Step(host, c, es[0]), es[1..]))
  }

  predicate AreUpdates(es: seq<Event>) {
    forall e | e in es :: e.Message? && e.msg.UpdateMsg?
  }

  /** Those of the events that are updates and reach their handler. */
  function Reports(host: Host, c: Client, es: seq<Event>): (rs: seq<Event>)
    ensures AreUpdates(rs)
    decreases |es|
  {
    if es == [] then []
    else
      var rest := Reports(host, Step(host, c, es[0]), es[1..]);
      if Updates(c, es[0]) then [es[0]] + rest else rest
  }

  /** The files a report is to leave: the link, pointing to the icon if there is one, and the icon as received. */
  function Writes(c: Client, e: Event): map<Path, File>
    requires e.Message? && e.msg.UpdateMsg?
  {
    var (u, icon) := (e.msg.update, e.msg.icon);
    if icon.None? then map[LinkPath(c, u) := Link([])]
    else map[LinkPath(c, u) := Link(IconPath(c, u, true)), IconPath(c, u, true) := Data(icon.value.file)]
  }

  /** The files reports are to leave together; of two that write one path the later wins. */
  function Contents(c: Client, rs: seq<Event>): map<Path, File>
    requires AreUpdates(rs)
  {
    if rs == [] then map[] else Writes(c, rs[0]) + Contents(c, rs[1..])
  }

  function ReportedLinks(c: Client, rs: seq<Event>): set<Path>
    requires AreUpdates(rs)
  {
    set e | e in rs :: LinkPath(c, e.msg.update)
  }

  // One event

  /** A session under way: what was written is on the disk over what there was, and is off the list of marked files. */
  ghost predicate Reached(files0: map<Path, File>, marked: set<Path>, written: map<Path, File>, d: Disk,
      sync: Option<Entries>) {
    && WellFormed(d) && Reliable(d) && d.files == files0 + written
    && sync.Some? && Ids(sync.value) == marked - written.Keys
  }

  /** What a finished session leaves: marked files are gone, written ones are there, the rest is as it was. */
  ghost predicate Converged(files0: map<Path, File>, marked: set<Path>, written: map<Path, File>, c: Client) {
    && Valid(c) && Reliable(c.disk) && c.sync.None?
    && c.disk.files == (files0 - marked) + written
  }

  lemma SweepConverges(files0: map<Path, File>, marked: set<Path>, written: map<Path, File>, d: Disk, db: Entries)
    requires WellFormed(d) && Reliable(d) && d.files == files0 + written && Ids(db) == marked - written.Keys
    ensures Sweep(d, db).files == (files0 - marked) + written && Reliable(Sweep(d, db))
  {
    hide WellFormed, Ids, Sweep;
    SweepExact(d, db);
  }

  lemma WritesLand(d: Disk, d': Disk, c: Client, e: Event)
    requires e.Message? && e.msg.UpdateMsg?
    requires var (u, icon) := (e.msg.update, e.msg.icon);
             && Written(d, d', LinkPath(c, u),
                        if icon.Some? then IconPath(c, u, true) else LinkPath(c, u), icon.Some?, true)
             && (icon.Some? ==> IconPath(c, u, true) in d'.files
                                && d'.files[IconPath(c, u, true)] == Data(icon.value.file))
    requires LinkPath(c, e.msg.update) != IconPath(c, e.msg.update, true)
    ensures d'.files == d.files + Writes(c, e)
  {
    hide WellFormed, LinkPath, IconPath;
  }

  lemma UnmarkedAreWritten(c: Client, e: Event, r: UpdateResult)
    requires e.Message? && e.msg.UpdateMsg? && Has(e.msg.update.flags, HINT_SYNC)
    requires r.Accepted? && r.link == LinkPath(c, e.msg.update) && r.icon == IconPath(c, e.msg.update, e.msg.icon.Some?)
    requires r.hasIcon == e.msg.icon.Some?
    ensures Writes(c, e).Keys == Unmarked(e.msg.update, r)
  {
    hide Has, LinkPath, IconPath;
  }

  lemma WrittenKeeps(d: Disk, plan: Plan, icon: Option<IconPdu>)
    requires WellFormed(d)
    ensures WellFormed(WriteFiles(d, plan, icon).0) && (Reliable(d) ==> Reliable(WriteFiles(d, plan, icon).0))
  {
    hide WellFormed, WriteFiles, Reliable;
    WriteFilesEffect(d, plan, icon);
  }

  /** A report in an open session, or the one that opens it: its files are written and leave the list. */
  lemma ReportStep(host: Host, c: Client, e: Event, files0: map<Path, File>, marked: set<Path>,
                   written: map<Path, File>)
    requires Valid(c) && GoodReport(c, e)
    requires var c1 := Started(c, e.msg.update); Reached(files0, marked, written, c1.disk, c1.sync)
    ensures var c' := Step(host, c, e);
            && Valid(c') && SameSettings(c, c')
            && (if Has(e.msg.update.flags, HINT_SYNC_END) then Converged(files0, marked, written + Writes(c, e), c')
                else Reached(files0, marked, written + Writes(c, e), c'.disk, c'.sync))
  {
    hide Has, WellFormed, Sorted, Ids, DbOk, Insert, Find, Sweep, WriteFiles, Admit, Complete, PathsFit;
    hide LinkPath, IconPath, Key, Started, IsLnk, Under, Writes, Unmarked, Reliable, Written;
    var (u, icon) := (e.msg.update, e.msg.icon);
    AdmitEffect(c, u, icon.Some?);
    var (c1, plan) := Admit(c, u, icon.Some?);
    CompleteEffect(c1, u, icon, plan.value);
    WriteFilesEffect(c1.disk, plan.value, icon);
    LinkNames(c, u, icon.Some?);
    LinkNames(c, u, true);
    var (c', r) := Complete(c1, u, icon, plan.value);
    var d := WriteFiles(c1.disk, plan.value, icon).0;
    WritesLand(c1.disk, d, c, e);
    assert files0 + written + Writes(c, e) == files0 + (written + Writes(c, e));
    UnmarkedAreWritten(c, e, r);
    assert (written + Writes(c, e)).Keys == written.Keys + Unmarked(u, r);
    assert WellFormed(d) && (Reliable(c1.disk) ==> Reliable(d)) by {
      WrittenKeeps(c1.disk, plan.value, icon);
    }
    if Has(u.flags, HINT_SYNC_END) {
      var db :| Ids(db) == Ids(c1.sync.value) - Unmarked(u, r) && c'.disk == Sweep(d, db);
      SweepConverges(files0, marked, written + Writes(c, e), d, db);
    }
  }

  /** Any other event of a session changes nothing a session is about. */
  lemma BetweenStep(host: Host, c: Client, e: Event)
    requires Valid(c) && !c.closed && !Updates(c, e) && Between(host, c, e)
    ensures var c' := Step(host, c, e);
            && Valid(c') && !c'.closed && SameBases(c, c')
            && c'.disk.files == c.disk.files && c'.sync == c.sync && c'.db == c.db
            && (Reliable(c.disk) ==> Reliable(c'.disk))
  {
    hide WellFormed, DbOk, Sorted, OnCaps, OnUpdate, Associates, Find, Erase, Key, DeleteIfNamed, Fits, PathsFit;
    if Deletes(c, e) {
      DeleteEffect(c, e.msg.delete);
    } else {
      OtherEffect(host, c, e);
    }
  }

  // Whole sessions

  lemma SameContents(c: Client, c': Client, rs: seq<Event>)
    requires SameBases(c, c') && AreUpdates(rs)
    ensures Contents(c', rs) == Contents(c, rs) && ReportedLinks(c', rs) == ReportedLinks(c, rs)
    decreases |rs|
  {
    if rs != [] {
      SameContents(c, c', rs[1..]);
    }
  }

  lemma {:induction false} SessionConverges(host: Host, c: Client, es: seq<Event>, files0: map<Path, File>,
                                            marked: set<Path>, written: map<Path, File>)
    requires Valid(c) && Session(host, c, es) && Reached(files0, marked, written, c.disk, c.sync)
    ensures var c' := Run(host, c, es);
            SameBases(c, c') && Converged(files0, marked, written + Contents(c, Reports(host, c, es)), c')
    decreases |es|
  {
    hide Has, WellFormed, DbOk, Sorted, Ids, LinkPath, IconPath, Converged, Writes, GoodReport, Step, Contents, Between;
    var (e, rest) := (es[0], es[1..]);
    var c1 := Step(host, c, e);
    var written1 := written;
    if Updates(c, e) {
      NotStarted(c, e.msg.update);
      ReportStep(host, c, e, files0, marked, written);
      written1 := written + Writes(c, e);
    } else {
      BetweenStep(host, c, e);
    }
    SameContents(c, c1, Reports(host, c1, rest));
    if |es| == 1 {
      NoMore(host, c, es);
      NoContents(c, written1);
    } else {
      SessionConverges(host, c1, rest, files0, marked, written1);
    }
    OneMore(host, c, es, written);
  }

  lemma NotStarted(c: Client, u: UpdatePdu)
    requires c.sync.Some?
    ensures Started(c, u) == c
  {
  }

  lemma NoMore(host: Host, c: Client, es: seq<Event>)
    requires |es| == 1
    ensures Run(host, c, es) == Step(host, c, es[0]) && Reports(host, Step(host, c, es[0]), es[1..]) == []
  {
    hide Step;
  }

  lemma NoContents(c: Client, written: map<Path, File>)
    ensures written + Contents(c, []) == written
  {
  }

  /** The first event's files come first. */
  lemma OneMore(host: Host, c: Client, es: seq<Event>, written: map<Path, File>)
    requires es != []
    ensures var rest := Reports(host, Step(host, c, es[0]), es[1..]);
            written + Contents(c, Reports(host, c, es))
            == if Updates(c, es[0]) then written + Writes(c, es[0]) + Contents(c, rest) else written + Contents(c, rest)
  {
    hide Step, Writes;
    var rest := Reports(host, Step(host, c, es[0]), es[1..]);
    if Updates(c, es[0]) {
      assert Reports(host, c, es)[1..] == rest;
      assert written + (Writes(c, es[0]) + Contents(c, rest)) == written + Writes(c, es[0]) + Contents(c, rest);
    }
  }

  /** The links among what reports leave are the link paths reported, all of them under the menu. */
  lemma {:induction false} ContentsKinds(c: Client, rs: seq<Event>)
    requires AreUpdates(rs)
    ensures forall p :: p in Contents(c, rs) && IsLnk(p) <==> p in ReportedLinks(c, rs)
    ensures forall p | p in ReportedLinks(c, rs) :: Under(c.menuPath, p)
    decreases |rs|
  {
    hide LinkPath, IconPath, IsLnk, Under;
    if rs != [] {
      ContentsKinds(c, rs[1..]);
      LinkNames(c, rs[0].msg.update, true);
      assert rs == [rs[0]] + rs[1..];
      assert ReportedLinks(c, rs) == {LinkPath(c, rs[0].msg.update)} + ReportedLinks(c, rs[1..]);
    }
  }

  /**
   * A sync report is accepted only while a session is open, so one that comes when there is none carries the start
   * hint.
   */
  lemma FirstReportStarts(c: Client, e: Event)
    requires Valid(c) && c.sync.None? && GoodReport(c, e)
    ensures Has(e.msg.update.flags, HINT_SYNC_START)
  {
    hide Has, Prepare, Complete, Screened;
  }

  /**
   * Sync convergence. For every session, whatever else comes during it, in which no file operation fails: afterwards
   * the disk is what it was without the links that were under the menu and the icons they pointed to, plus exactly
   * the links and icons reported, each link with its icon, each icon with its bytes. So the links under the menu are
   * the link paths reported.
   */
  lemma SyncConvergence(host: Host, c: Client, es: seq<Event>)
    requires Valid(c) && c.sync.None? && Reliable(c.disk)
    requires Session(host, c, es) && Updates(c, es[0])
    ensures var (c', rs) := (Run(host, c, es), Reports(host, c, es));
            && Valid(c') && c'.sync.None? && SameBases(c, c') && Reliable(c'.disk)
            && c'.disk.files == (c.disk.files - Candidates(c)) + Contents(c, rs)
            && LinksBelow(c'.disk, c.menuPath) == ReportedLinks(c, rs)
  {
    hide Has, WellFormed, DbOk, Sorted, Ids, OnUpdate, LinkPath, IconPath, Candidates, SyncStart, Contents;
    hide ReportedLinks;
    hide IsLnk, Under, Run, Writes, Step, Between, LinksBelow;
    var (e, rest) := (es[0], es[1..]);
    var (files0, marked) := (c.disk.files, Candidates(c));
    StartRecords(c, e.msg.update);
    FirstReportStarts(c, e);
    var none: map<Path, File> := map[];
    assert files0 + none == files0 && marked - none.Keys == marked;
    ReportStep(host, c, e, files0, marked, none);
    var c1 := Step(host, c, e);
    if |es| == 1 {
      NoMore(host, c, es);
      NoContents(c, none + Writes(c, e));
    } else {
      SessionConverges(host, c1, rest, files0, marked, none + Writes(c, e));
      RunFirst(host, c, es);
    }
    SameContents(c, c1, Reports(host, c1, rest));
    OneMore(host, c, es, none);
    var rs := Reports(host, c, es);
    assert none + Contents(c, rs) == Contents(c, rs);
    ContentsKinds(c, rs);
    LinksLeft(c, Run(host, c, es).disk, rs);
  }

  lemma RunFirst(host: Host, c: Client, es: seq<Event>)
    requires es != []
    ensures Run(host, c, es) == Run(host, Step(host, c, es[0]), es[1..])
  {
    hide Step;
  }

  lemma LinksLeft(c: Client, d': Disk, rs: seq<Event>)
    requires AreUpdates(rs) && d'.files == (c.disk.files - Candidates(c)) + Contents(c, rs)
    requires forall p :: p in Contents(c, rs) && IsLnk(p) <==> p in ReportedLinks(c, rs)
    requires forall p | p in ReportedLinks(c, rs) :: Under(c.menuPath, p)
    ensures LinksBelow(d', c.menuPath) == ReportedLinks(c, rs)
  {
    hide IsLnk, Under, Contents, ReportedLinks;
  }

  /**
   * The end hint is meant to come with the sync hint. An accepted last update keeps the link it has just written if
   * and only if it carries both, or its link was not among those recorded at the start.
   */
  lemma EndKeepsItsLinkExactly(c: Client, u: UpdatePdu, icon: Option<IconPdu>)
    requires Valid(c) && !c.closed && Reliable(c.disk) && Has(u.flags, HINT_SYNC_END)
    requires OnUpdate(c, u, icon).1.Accepted? && OnUpdate(c, u, icon).1.linked
    ensures var (c', r) := OnUpdate(c, u, icon);
            var s := Started(c, u).sync;
            s.Some? && (r.link in c'.disk.files <==> Has(u.flags, HINT_SYNC) || r.link !in Ids(s.value))
  {
    hide Has, WellFormed, Sorted, Ids, DbOk, Insert, Find, Sweep, WriteFiles, Admit, Complete, LinkPath, IconPath;
    hide Key, PathsFit;
    hide SyncStart, IsLnk, Under;
    StartRecords(c, u);
    AdmitEffect(c, u, icon.Some?);
    var (c1, plan) := Admit(c, u, icon.Some?);
    CompleteEffect(c1, u, icon, plan.value);
    WriteFilesEffect(c1.disk, plan.value, icon);
    LinkNames(c, u, icon.Some?);
    var (c', r) := OnUpdate(c, u, icon);
    var d := WriteFiles(c1.disk, plan.value, icon).0;
    var marked :| Ids(marked) == Ids(c1.sync.value) - Unmarked(u, r) && c'.disk == Sweep(d, marked);
    SweepExact(d, marked);
  }
}
