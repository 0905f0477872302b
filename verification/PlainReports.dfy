/** Reports with nothing out of the ordinary: that sessions exist, and a run that leaves an entry without its link. */
module PlainReports {
  import opened Bytes
  import opened Protocol
  import opened ClientRead
  import opened Paths
  import opened FileEntries
  import opened FileSys
  import opened TreeWalk
  import opened WalkLaws
  import opened Sweeping
  import opened Client
  import opened ClientLaws
  import opened SessionLaws
  import opened SyncLaws
  import HistoryLaws

  /**
   * An update with nothing out of the ordinary: no group, no icon, names that pass, a key and a link name that are
   * free.
   */
  ghost predicate Ordinary(c: Client, e: Event) {
    && Updates(c, e) && c.db.Some? && e.msg.icon.None?
    && var u := e.msg.update;
    && Screened(u) && u.appGroup.length == 0 && SEP !in Text(u.desc)
    && Fits(LinkPath(c, u)) && Fits(Key(u.appGroup, u.appId))
    && Fits(ExeArgs(CStr(c.provider), u.workingDir, Text(u.execPath)))
    && Find(c.db.value, Key(u.appGroup, u.appId)).None?
    && c.menuPath in c.disk.dirs && LinkPath(c, u) !in c.disk.dirs
  }

  /** Its session hints ask for nothing that cannot be: no second session, and no end or report without one. */
  predicate HintsFit(c: Client, u: UpdatePdu) {
    && (Has(u.flags, HINT_SYNC_START) ==> c.sync.None?)
    && (Has(u.flags, HINT_SYNC) || Has(u.flags, HINT_SYNC_END) ==> c.sync.Some? || Has(u.flags, HINT_SYNC_START))
  }

  /** An ordinary sync report; one that comes when there is no session opens it. */
  ghost predicate Plain(c: Client, e: Event) {
    && Ordinary(c, e) && Has(e.msg.update.flags, HINT_SYNC)
    && (Has(e.msg.update.flags, HINT_SYNC_START) <==> c.sync.None?)
  }

  /** The walk at the start spares the menu directory itself, and makes no directories. */
  lemma StartKeepsMenu(c: Client, u: UpdatePdu)
    requires Valid(c) && !c.closed && Reliable(c.disk) && c.menuPath in c.disk.dirs
    ensures var d := Started(c, u).disk; c.menuPath in d.dirs && d.dirs <= c.disk.dirs && Reliable(d)
  {
    hide Has, Sorted, Ids, WellFormed, DbOk, LinksBelow, IconsBelow;
    NoIds();
    WalkAccounts(c.disk, [], c.menuPath);
  }

  /** On a disk that does what it can, a plain report is prepared in the menu directory. */
  lemma PlainPrepares(c: Client, u: UpdatePdu)
    requires Reliable(c.disk) && c.menuPath in c.disk.dirs && u.appGroup.length == 0
    requires Fits(LinkPath(c, u)) && Fits(Key(u.appGroup, u.appId))
    requires Fits(ExeArgs(CStr(c.provider), u.workingDir, Text(u.execPath)))
    ensures var (d, plan) := Prepare(c, u, false);
            d == c.disk && plan.Some? && plan.value.link == LinkPath(c, u)
                && plan.value.entry.id == Key(u.appGroup, u.appId)
  {
    hide ExeArgs, Key, Text, CStr;
  }

  lemma PlainWrites(c: Client, u: UpdatePdu, d: Disk, plan: Plan)
    requires Reliable(d) && c.menuPath in d.dirs && u.appGroup.length == 0 && SEP !in Text(u.desc)
    requires plan.link == LinkPath(c, u) && plan.link !in d.dirs
    ensures WriteFiles(d, plan, None).2 && !WriteFiles(d, plan, None).1
  {
    hide Text, LastSep;
    var name := Text(u.desc) + LNK;
    JoinSplits(c.menuPath, name);
    assert |name| >= 4;
  }

  /** Such an update is accepted, and its link is written. */
  lemma OrdinaryIsAccepted(c: Client, e: Event)
    requires Valid(c) && Reliable(c.disk) && Ordinary(c, e) && HintsFit(c, e.msg.update)
    ensures var r := OnUpdate(c, e.msg.update, None).1; r.Accepted? && r.linked && !r.hasIcon
  {
    hide Has, WellFormed, DbOk, Sorted, Ids, SyncEnd, Unmark, Prepare, WriteFiles, Screened, LinkPath, Key, ExeArgs;
    hide Text, CStr, Fits, Insert, Find, Walk;
    var u := e.msg.update;
    StartRecords(c, u);
    StartKeepsMenu(c, u);
    var c1 := Started(c, u);
    SamePlaces(c, c1, u, false);
    PlainPrepares(c1, u);
    var plan := Prepare(c1, u, false).1.value;
    PlainWrites(c1, u, c1.disk, plan);
  }

  lemma PlainIsGood(c: Client, e: Event)
    requires Valid(c) && Reliable(c.disk) && Plain(c, e)
    ensures GoodReport(c, e)
  {
    hide Has, Valid, OnUpdate, Ordinary;
    OrdinaryIsAccepted(c, e);
    OrdinaryUpdates(c, e);
  }

  lemma OrdinaryUpdates(c: Client, e: Event)
    requires Ordinary(c, e)
    ensures Updates(c, e) && c.db.Some? && e.msg.icon.None?
  {
  }

  /**
   * An end without the sync hint, in general: an ordinary update that opens and ends a session, for a link that is
   * there already, is accepted, writes its link, and sweeps it.
   */
  lemma EndWithoutSyncSweeps(c: Client, e: Event)
    requires Valid(c) && Reliable(c.disk) && c.sync.None? && Ordinary(c, e)
    requires var f := e.msg.update.flags; Has(f, HINT_SYNC_START) && Has(f, HINT_SYNC_END) && !Has(f, HINT_SYNC)
    requires LinkPath(c, e.msg.update) in c.disk.files
    ensures var (c', r) := OnUpdate(c, e.msg.update, None);
            r.Accepted? && r.linked && r.link == LinkPath(c, e.msg.update) && r.link !in c'.disk.files
  {
    hide Has, WellFormed, DbOk, Sorted, Ids, OnUpdate, Screened, LinkPath, Key, ExeArgs, Text, CStr, Fits, Find;
    hide IsLnk, Under, SyncStart, Insert, Swept, Lost;
    var u := e.msg.update;
    OrdinaryIsAccepted(c, e);
    EndKeepsItsLinkExactly(c, u, None);
    StartRecords(c, u);
    UpdateEffect(c, u, None);
    LinkNames(c, u, false);
    assert LinkPath(c, u) in LinksBelow(c.disk, c.menuPath);
  }

  /** So sessions exist: one plain report that starts and ends one leaves its link as the only one under the menu. */
  lemma OneReportSession(host: Host, c: Client, e: Event)
    requires Valid(c) && Reliable(c.disk) && c.sync.None? && Plain(c, e) && Has(e.msg.update.flags, HINT_SYNC_END)
    ensures Session(host, c, [e])
    ensures var c' := Step(host, c, e);
            && Valid(c') && Reliable(c'.disk) && c'.sync.None?
            && LinksBelow(c'.disk, c.menuPath) == {LinkPath(c, e.msg.update)}
  {
    hide Has, Valid, OnUpdate, LinkPath, LinksBelow, Candidates, Contents, Step, Screened, Fits, Key, ExeArgs, Text;
    hide CStr, Find;
    PlainIsGood(c, e);
    SyncConvergence(host, c, [e]);
    NoMore(host, c, [e]);
    assert Reports(host, c, [e]) == [e];
    assert ReportedLinks(c, [e]) == {LinkPath(c, e.msg.update)};
  }

  // An entry without its link

  lemma PlainDirs(c: Client, e: Event)
    requires Valid(c) && Reliable(c.disk) && Plain(c, e)
    ensures OnUpdate(c, e.msg.update, None).0.disk.dirs <= c.disk.dirs
  {
    hide Has, WellFormed, DbOk, Sorted, Ids, Unmark, Prepare, WriteFiles, Screened, LinkPath, Key, ExeArgs, Text;
    hide CStr, Fits;
    hide Insert, Find, Walk, Sweep;
    var u := e.msg.update;
    StartRecords(c, u);
    StartKeepsMenu(c, u);
    var c1 := Started(c, u);
    SamePlaces(c, c1, u, false);
    PlainPrepares(c1, u);
    AdmitEffect(c, u, false);
    var (c2, plan) := Admit(c, u, false);
    if plan.Some? {
      CompleteEffect(c2, u, None, plan.value);
      WriteFilesEffect(c2.disk, plan.value, None);
      var (c', r) := Complete(c2, u, None, plan.value);
      if Has(u.flags, HINT_SYNC_END) && c2.sync.Some? {
        var d := WriteFiles(c2.disk, plan.value, None).0;
        var db :| Ids(db) == Ids(c2.sync.value) - Unmarked(u, r) && c'.disk == Sweep(d, db);
        SweepSafe(d, db);
      }
    }
  }

  /** A written link keeps the menu directory in place. */
  lemma LinkHoldsMenu(c: Client, u: UpdatePdu, d: Disk)
    requires WellFormed(d) && u.appGroup.length == 0 && SEP !in Text(u.desc) && LinkPath(c, u) in d.files
    ensures c.menuPath in d.dirs
  {
    hide Text;
    JoinSplits(c.menuPath, Text(u.desc) + LNK);
    HoldsItsDirectory(d, LinkPath(c, u));
  }

  /** A report that was plain before another one's session is plain after it. */
  lemma PlainAgain(host: Host, c: Client, e1: Event, e2: Event)
    requires Valid(c) && Reliable(c.disk) && c.sync.None? && Plain(c, e1) && Plain(c, e2)
    requires Has(e1.msg.update.flags, HINT_SYNC_END)
    requires Key(e1.msg.update.appGroup, e1.msg.update.appId) != Key(e2.msg.update.appGroup, e2.msg.update.appId)
    ensures Plain(Step(host, c, e1), e2)
    ensures var u1 := e1.msg.update;
            var e := Find(Step(host, c, e1).db.value, Key(u1.appGroup, u1.appId));
            e.Some? && e.value.link == LinkPath(c, u1)
  {
    hide Has, WellFormed, Sorted, Ids, OnUpdate, LinksBelow, Candidates, Screened, Fits, Key, ExeArgs, Text, CStr;
    hide Find, Insert, LinkPath, IconPath, Started, Swept, Unmarked, PathsFit;
    var u1 := e1.msg.update;
    OneReportSession(host, c, e1);
    PlainIsGood(c, e1);
    UpdateEffect(c, u1, None);
    PlainDirs(c, e1);
    var c1 := Step(host, c, e1);
    assert c1 == OnUpdate(c, u1, None).0;
    assert LinkPath(c, u1) in LinksBelow(c1.disk, c.menuPath);
    IsThere(c1.disk, c.menuPath, LinkPath(c, u1));
    LinkHoldsMenu(c, u1, c1.disk);
    SamePlaces(c, c1, e2.msg.update, false);
    var x: FileEntry :| c1.db.value == Insert(c.db.value, x) && x.id == Key(u1.appGroup, u1.appId)
                        && Find(c1.db.value, x.id) == Some(x) && x.link == LinkPath(c, u1);
    HistoryLaws.InsertKeepsOthers(c.db.value, x, Key(e2.msg.update.appGroup, e2.msg.update.appId));
  }

  lemma IsThere(d: Disk, dir: Path, p: Path)
    ensures p in LinksBelow(d, dir) ==> p in d.files
    ensures p !in LinksBelow(d, dir) && Under(dir, p) && IsLnk(p) ==> p !in d.files
  {
    hide Under, IsLnk;
  }

  /**
   * The database is not swept with the files: when an accepted report is followed by a session that does not report
   * it, its entry is still there and its link is not.
   */
  lemma StaleEntry(host: Host, c: Client, e1: Event, e2: Event)
    requires Valid(c) && Reliable(c.disk) && c.sync.None? && Plain(c, e1) && Plain(c, e2)
    requires Has(e1.msg.update.flags, HINT_SYNC_END) && Has(e2.msg.update.flags, HINT_SYNC_END)
    requires Key(e1.msg.update.appGroup, e1.msg.update.appId) != Key(e2.msg.update.appGroup, e2.msg.update.appId)
    requires LinkPath(c, e1.msg.update) != LinkPath(c, e2.msg.update)
    ensures var (u1, c1, c2) := (e1.msg.update, Run(host, c, [e1]), Run(host, c, [e1, e2]));
            && LinkPath(c, u1) in c1.disk.files
            && c2.db.Some?
            && var e := Find(c2.db.value, Key(u1.appGroup, u1.appId));
            e.Some? && e.value.link == LinkPath(c, u1) && e.value.link !in c2.disk.files
  {
    hide Has, WellFormed, DbOk, Sorted, Ids, OnUpdate, LinksBelow, Screened, Fits, Key, ExeArgs, Text, CStr, Find;
    hide LinkPath;
    hide Candidates, Step, IsLnk, Under;
    var (u1, u2) := (e1.msg.update, e2.msg.update);
    OneReportSession(host, c, e1);
    PlainAgain(host, c, e1, e2);
    var c1 := Step(host, c, e1);
    OneReportSession(host, c1, e2);
    PlainSettings(host, c, e1);
    SamePlaces(c, c1, u2, false);
    var c2 := Step(host, c1, e2);
    TwoSteps(host, c, e1, e2);
    LinkNames(c, u1, false);
    assert LinkPath(c, u1) in LinksBelow(c1.disk, c.menuPath);
    IsThere(c1.disk, c.menuPath, LinkPath(c, u1));
    IsThere(c2.disk, c.menuPath, LinkPath(c, u1));
    HistoryLaws.EntryStays(host, c1, e2, Key(u1.appGroup, u1.appId));
  }

  lemma PlainSettings(host: Host, c: Client, e: Event)
    requires Valid(c) && Plain(c, e)
    ensures SameSettings(c, Step(host, c, e))
  {
    hide Has, WellFormed, DbOk, Sorted, OnUpdate, Screened, Fits, Key, ExeArgs, Text, CStr, Find, LinkPath, Insert, Ids;
    UpdateEffect(c, e.msg.update, None);
  }

  lemma TwoSteps(host: Host, c: Client, e1: Event, e2: Event)
    ensures Run(host, c, [e1]) == Step(host, c, e1)
    ensures Run(host, c, [e1, e2]) == Step(host, Step(host, c, e1), e2)
  {
    hide Step;
    assert [e1, e2][1..] == [e2];
    assert Run(host, Step(host, c, e1), [e2]) == Step(host, Step(host, c, e1), e2);
  }
}
