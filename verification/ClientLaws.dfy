/** What every message does to the client: to its disk, its database and its sync session. */
module ClientLaws {
  import opened Bytes
  import opened Protocol
  import opened ClientRead
  import opened Paths
  import opened FileEntries
  import opened FileSys
  import opened TreeWalk
  import opened WalkLaws
  import opened Sweeping
  import opened Client

  ghost predicate DbOk(db: Entries) {
    Sorted(db) && forall e | e in db :: PathsFit(e)
  }

  ghost predicate Valid(c: Client) {
    && WellFormed(c.disk)
    && (c.db.Some? ==> DbOk(c.db.value))
    && (c.sync.Some? ==> Sorted(c.sync.value))
    && (c.closed <==> c.db.None?)
    && (c.closed ==> c.sync.None?)
  }

  /** Everything but the databases and the disk. */
  predicate SameSettings(c: Client, c': Client) {
    c' == c.(db := c'.db, sync := c'.sync, disk := c'.disk)
  }

  // Where an update's files go

  function TargetPath(base: Path, group: WireString, name: WStr, ext: WStr): Path {
    Join(if group.length == 0 then base else Join(base, Text(group)), name + ext)
  }

  /** menu\group\description.lnk, with the group left out when there is none. */
  function LinkPath(c: Client, u: UpdatePdu): Path {
    TargetPath(c.menuPath, u.appGroup, Text(u.desc), LNK)
  }

  function IconPath(c: Client, u: UpdatePdu, wantsIcon: bool): Path {
    if wantsIcon then TargetPath(c.iconPath, u.appGroup, Text(u.appId), ICO) else []
  }

  lemma LeafKeepsEnd(front: WStr, ext: WStr)
    requires ext == LNK || ext == ICO
    ensures EndsWith(Leaf(front + ext), ext)
  {
    var p := front + ext;
    assert |ext| == 4 && SEP !in ext;
    assert forall j | |front| <= j < |p| :: p[j] == ext[j - |front|];
    assert LastSep(p) < |front|;
    var leaf := Leaf(p);
    assert leaf[|leaf| - 4..] == p[|p| - 4..] == ext;
  }

  /** A target lies under its base, and its name ends in the extension given. */
  lemma TargetPlaced(base: Path, group: WireString, name: WStr, ext: WStr)
    requires ext == LNK || ext == ICO
    ensures var p := TargetPath(base, group, name, ext); Under(base, p) && EndsWith(Leaf(p), ext)
  {
    hide LastSep, Leaf, EndsWith;
    var dir := if group.length == 0 then base else Join(base, Text(group));
    LeafKeepsEnd(dir + [SEP] + name, ext);
    assert TargetPath(base, group, name, ext) == dir + [SEP] + name + ext;
  }

  /** Links are told from icons by name, so no link path is ever an icon path. */
  lemma LinkNames(c: Client, u: UpdatePdu, wantsIcon: bool)
    ensures IsLnk(LinkPath(c, u)) && Under(c.menuPath, LinkPath(c, u))
    ensures !IsLnk(IconPath(c, u, wantsIcon))
  {
    hide LastSep, TargetPath;
    TargetPlaced(c.menuPath, u.appGroup, Text(u.desc), LNK);
    TargetPlaced(c.iconPath, u.appGroup, Text(u.appId), ICO);
    assert ICO[1] != LNK[1];
  }

  // Preparing an update

  /** Touches directories only, and only adds to them. */
  ghost predicate OnlyMoreDirs(d: Disk, d': Disk) {
    d'.files == d.files && d.dirs <= d'.dirs && WellFormed(d') && (Reliable(d) ==> Reliable(d'))
  }

  lemma EnsureDirAdds(d: Disk, p: Path)
    requires WellFormed(d)
    ensures OnlyMoreDirs(d, EnsureDir(d, p).0)
  {
    hide WellFormed, HasParent, Parent, Leaf;
    EnsureDirKeepsWellFormed(d, p);
  }

  lemma TargetEffect(d: Disk, base: Path, group: WireString, name: WStr, ext: WStr)
    requires WellFormed(d)
    ensures var (d', p) := Target(d, base, group, name, ext);
            OnlyMoreDirs(d, d') && (p.Some? ==> p.value == TargetPath(base, group, name, ext) && Fits(p.value))
  {
    hide EnsureDir, WellFormed;
    EnsureDirAdds(d, base);
    EnsureDirAdds(EnsureDir(d, base).0, Join(base, Text(group)));
  }

  /** The plan of an update: where its files go, and the entry that stands for it. */
  ghost predicate PlanIs(c: Client, u: UpdatePdu, wantsIcon: bool, p: Plan) {
    && p.link == LinkPath(c, u) && p.icon == IconPath(c, u, wantsIcon)
    && p.entry.id == Key(u.appGroup, u.appId) && p.entry.link == p.link && p.entry.icon == p.icon
    && p.entry.exe == c.exePath && p.entry.args == ExeArgs(CStr(c.provider), u.workingDir, Text(u.execPath))
    && PathsFit(p.entry) && Fits(p.entry.id) && Fits(p.entry.args)
  }

  lemma PrepareEffect(c: Client, u: UpdatePdu, wantsIcon: bool)
    requires WellFormed(c.disk)
    ensures var (d, plan) := Prepare(c, u, wantsIcon);
            OnlyMoreDirs(c.disk, d) && (plan.Some? ==> PlanIs(c, u, wantsIcon, plan.value))
  {
    hide Target, WellFormed, ExeArgs, Key, TargetPath;
    var (d1, icon) := if wantsIcon then Target(c.disk, c.iconPath, u.appGroup, Text(u.appId), ICO)
        else (c.disk, Some([]));
    if wantsIcon {
      TargetEffect(c.disk, c.iconPath, u.appGroup, Text(u.appId), ICO);
    }
    TargetEffect(d1, c.menuPath, u.appGroup, Text(u.desc), LNK);
    var (d2, link) := Target(d1, c.menuPath, u.appGroup, Text(u.desc), LNK);
    if icon.Some? {
      assert OnlyMoreDirs(c.disk, d2);
    }
    assert OnlyMoreDirs(c.disk, Prepare(c, u, wantsIcon).0);
    assert link.Some? ==> link.value == LinkPath(c, u);
    assert icon.Some? ==> icon.value == IconPath(c, u, wantsIcon);
  }

  // The session an update may start

  /** The client as it is once an update's start hint, if it carries one, is dealt with. */
  function Started(c: Client, u: UpdatePdu): Client {
    if Has(u.flags, HINT_SYNC_START) then SyncStart(c).0 else c
  }

  /** The files a session starting now is about: the links under the menu, and the icons stored in them. */
  function Candidates(c: Client): set<Path> {
    LinksBelow(c.disk, c.menuPath) + IconsBelow(c.disk, c.menuPath)
  }

  /**
   * A session starts with every link and every icon that could be read, and nothing else; a second start changes
   * nothing.
   */
  lemma StartRecords(c: Client, u: UpdatePdu)
    requires Valid(c) && !c.closed
    ensures var c1 := Started(c, u);
            && Valid(c1) && SameSettings(c, c1) && c1.db == c.db
            && c1.disk.files == c.disk.files && (Reliable(c.disk) ==> Reliable(c1.disk))
            && (c.sync.Some? || !Has(u.flags, HINT_SYNC_START) ==> c1 == c)
            && (c.sync.None? && Has(u.flags, HINT_SYNC_START) ==>
                  && c1.sync.Some?
                  && LinksBelow(c.disk, c.menuPath) <= Ids(c1.sync.value) <= Candidates(c)
                  && (Reliable(c.disk) ==> Ids(c1.sync.value) == Candidates(c)))
  {
    hide Has, IsLnk, Under, WellFormed, Ids, Sorted, DbOk, LinksBelow, IconsBelow, EmptyBelow;
    if c.sync.None? {
      NoIds();
      WalkAccounts(c.disk, [], c.menuPath);
    }
  }

  lemma NoIds()
    ensures Ids([]) == {} && Sorted([])
  {
  }

  // Admission

  lemma AddedEffect(db: Entries, e: FileEntry)
    requires DbOk(db) && PathsFit(e)
    ensures var (db', ok) := Added(db, e);
            DbOk(db') && (ok ==> db' == Insert(db, e) && Find(db', e.id) == Some(e)) && (!ok ==> db' == db)
  {
    hide Insert, Find, Sorted, PathsFit, Ids, AsMap, Less;
    ReAdd(db, e);
    InsertSorted(db, e);
  }

  ghost predicate Admitted(c: Client, u: UpdatePdu, wantsIcon: bool, c': Client, plan: Option<Plan>)
    requires c.db.Some?
  {
    && Valid(c') && SameSettings(c, c') && c'.db.Some?
    && OnlyMoreDirs(Started(c, u).disk, c'.disk) && c'.sync == Started(c, u).sync
    && (plan.None? ==> c'.db == c.db)
    && (plan.Some? ==>
          && PlanIs(c, u, wantsIcon, plan.value)
          && c'.db.value == Insert(c.db.value, plan.value.entry)
          && Find(c'.db.value, plan.value.entry.id) == Some(plan.value.entry)
          && (Has(u.flags, HINT_SYNC_START) ==> c.sync.None?)
          && (Has(u.flags, HINT_SYNC) || Has(u.flags, HINT_SYNC_END) ==> c'.sync.Some?))
  }

  lemma AdmitEffect(c: Client, u: UpdatePdu, wantsIcon: bool)
    requires Valid(c) && !c.closed
    ensures var (c', plan) := Admit(c, u, wantsIcon); Admitted(c, u, wantsIcon, c', plan)
  {
    hide Has, Screened, Prepare, Added, WellFormed, Sorted, Ids, DbOk, Insert, Find, LinksBelow, IconsBelow, PathsFit;
    hide Key, LinkPath, IconPath;
    StartRecords(c, u);
    var c1 := Started(c, u);
    PrepareEffect(c1, u, wantsIcon);
    SamePlaces(c, c1, u, wantsIcon);
    var plan := Prepare(c1, u, wantsIcon).1;
    if plan.Some? {
      AddedEffect(c.db.value, plan.value.entry);
    }
  }

  lemma SamePlaces(c: Client, c1: Client, u: UpdatePdu, wantsIcon: bool)
    requires SameSettings(c, c1)
    ensures LinkPath(c1, u) == LinkPath(c, u) && IconPath(c1, u, wantsIcon) == IconPath(c, u, wantsIcon)
  {
  }

  // The files an update writes

  ghost predicate Written(d: Disk, d': Disk, link: Path, icon: Path, hasIcon: bool, linked: bool) {
    && WellFormed(d') && d'.dirs == d.dirs && (Reliable(d) ==> Reliable(d'))
    && d.files.Keys <= d'.files.Keys
    && (forall p | p in d'.files && p != link && p != icon :: p in d.files && d'.files[p] == d.files[p])
    && (linked ==> link in d'.files && d'.files[link] == Link(if hasIcon then icon else []))
    && (hasIcon ==> icon in d'.files)
  }

  lemma IconWritten(d: Disk, p: Path, bytes: seq<byte>)
    requires WellFormed(d)
    ensures var (d', ok) := SaveIcon(d, p, bytes);
            Written(d, d', p, p, ok, false) && (ok ==> d'.files[p] == Data(bytes))
  {
    hide WellFormed, Writable;
    SavesKeepWellFormed(d, p, [], bytes);
  }

  lemma LinkWritten(d: Disk, p: Path, icon: Path)
    requires WellFormed(d)
    ensures var (d', ok) := SaveLink(d, p, icon);
            Written(d, d', p, p, false, false) && (ok ==> p in d'.files && d'.files[p] == Link(icon))
  {
    hide WellFormed, Writable;
    SavesKeepWellFormed(d, p, icon, []);
  }

  /** Whatever fails, nothing but the two files of the plan is touched; an icon only when one came with the update. */
  lemma WriteFilesEffect(d: Disk, plan: Plan, icon: Option<IconPdu>)
    requires WellFormed(d)
    ensures var (d', hasIcon, linked) := WriteFiles(d, plan, icon);
            && Written(d, d', plan.link, if icon.Some? then plan.icon else plan.link, hasIcon, linked)
            && (hasIcon ==> icon.Some? && plan.icon in d'.files
                            && (plan.icon != plan.link ==> d'.files[plan.icon] == Data(icon.value.file)))
  {
    hide WellFormed, SaveIcon, SaveLink;
    var (d1, hasIcon) := if icon.Some? then SaveIcon(d, plan.icon, icon.value.file) else (d, false);
    if icon.Some? {
      IconWritten(d, plan.icon, icon.value.file);
    }
    LinkWritten(d1, plan.link, if hasIcon then plan.icon else []);
  }

  // Completion

  /**
   * What an update takes off the sweep's list: its link, and its icon when one was written; only a sync update does.
   */
  function Unmarked(u: UpdatePdu, r: UpdateResult): set<Path> {
    if r.Rejected? || !Has(u.flags, HINT_SYNC) then {} else if r.hasIcon then {r.link, r.icon} else {r.link}
  }

  lemma UnmarkTakes(sync: Entries, link: Path, icon: Path, hasIcon: bool)
    requires Sorted(sync)
    ensures var s := Unmark(sync, link, icon, hasIcon);
            Sorted(s) && Ids(s) == Ids(sync) - if hasIcon then {link, icon} else {link}
  {
    hide Sorted, Ids, Erase;
    EraseSorted(sync, link);
    EraseSorted(Erase(sync, link), icon);
  }

  ghost predicate Completed(c: Client, u: UpdatePdu, icon: Option<IconPdu>, plan: Plan, c': Client, r: UpdateResult) {
    var d := WriteFiles(c.disk, plan, icon).0;
    && Valid(c') && SameSettings(c, c') && c'.db == c.db
    && r == Accepted(plan.link, plan.icon, WriteFiles(c.disk, plan, icon).1, WriteFiles(c.disk, plan, icon).2)
    && (if Has(u.flags, HINT_SYNC_END) && c.sync.Some? then
          && c'.sync.None?
          && exists marked :: Ids(marked) == Ids(c.sync.value) - Unmarked(u, r) && c'.disk == Sweep(d, marked)
        else
          && c'.disk == d
          && c'.sync.Some? == c.sync.Some?
          && (c.sync.Some? ==> Ids(c'.sync.value) == Ids(c.sync.value) - Unmarked(u, r)))
  }

  lemma CompleteEffect(c: Client, u: UpdatePdu, icon: Option<IconPdu>, plan: Plan)
    requires Valid(c) && (Has(u.flags, HINT_SYNC) ==> c.sync.Some?)
    ensures var (c', r) := Complete(c, u, icon, plan); Completed(c, u, icon, plan, c', r)
  {
    hide Has, WellFormed, Sorted, Ids, DbOk, Unmark, Sweep, WriteFiles;
    var (d, hasIcon, linked) := WriteFiles(c.disk, plan, icon);
    WriteFilesEffect(c.disk, plan, icon);
    if c.sync.Some? {
      UnmarkTakes(c.sync.value, plan.link, plan.icon, hasIcon);
      var marked := if Has(u.flags, HINT_SYNC) then Unmark(c.sync.value, plan.link, plan.icon, hasIcon)
          else c.sync.value;
      assert Ids(marked) == Ids(c.sync.value) - Unmarked(u, Complete(c, u, icon, plan).1);
      SweepSafe(d, marked);
    }
  }
}
