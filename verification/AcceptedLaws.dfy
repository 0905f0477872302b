/**
 * What an accepted update leaves, in the words of the paths and command lines themselves, and when one is accepted on
 * a disk that fails nothing.
 */
module AcceptedLaws {
  import opened Bytes
  import opened Protocol
  import opened ClientRead
  import opened Paths
  import opened FileEntries
  import opened FileSys
  import opened TreeWalk
  import opened Client
  import opened ClientLaws
  import opened SessionLaws

  // The words the client puts together

  lemma Spelled()
    ensures LNK == Wide(".lnk") && ICO == Wide(".ico") && PROGRAMS == Wide("\\Programs\\")
    ensures PLUGIN == Wide("WSLDVCPlugin") && WSLG_EXE == Wide("\\wslg.exe")
    ensures ARG_D == Wide("-d ") && ARG_CD == Wide(" --cd \"") && ARG_END == Wide("\" -- ") && HOME == Wide("~")
  {
  }

  /** base, then \group if there is one, then \name and the extension. */
  function FileName(base: Path, group: WireString, name: WireString, ext: string): Path {
    base + (if group.length > 0 then Wide("\\") + Text(group) else []) + Wide("\\") + Text(name) + Wide(ext)
  }

  /** -d provider --cd "directory" -- program; the directory is ~ when none came. */
  function CommandLine(provider: WStr, workingDir: WireString, program: WStr): WStr {
    Wide("-d ") + provider + Wide(" --cd \"") + (if workingDir.length > 0 then Text(workingDir) else Wide("~"))
    + Wide("\" -- ") + program
  }

  lemma FileNameIs(base: Path, group: WireString, name: WireString)
    ensures TargetPath(base, group, Text(name), LNK) == FileName(base, group, name, ".lnk")
    ensures TargetPath(base, group, Text(name), ICO) == FileName(base, group, name, ".ico")
  {
    hide Text;
    Spelled();
    assert Wide("\\") == [SEP];
  }

  lemma CommandLineIs(provider: WStr, workingDir: WireString, program: WStr)
    ensures ExeArgs(provider, workingDir, program) == CommandLine(provider, workingDir, program)
  {
    hide Text;
    Spelled();
  }

  // What acceptance means

  /** The names of an update, as a path and a command line can take them. */
  ghost predicate NamesClean(u: UpdatePdu) {
    && (u.appGroup.length > 0 ==> Clean(Text(u.appGroup)))
    && Clean(Text(u.appId)) && Clean(Text(u.desc)) && 34 !in Text(u.workingDir)
  }

  lemma ScreenedExactly(u: UpdatePdu)
    ensures Screened(u) <==> NamesClean(u)
  {
    hide Text, Clean, Contains;
    CleanExactly(Text(u.appGroup));
    CleanExactly(Text(u.appId));
    CleanExactly(Text(u.desc));
    ContainsUnit(Text(u.workingDir), QUOTE);
  }

  lemma AcceptedIsScreened(c: Client, u: UpdatePdu, icon: Option<IconPdu>)
    requires c.db.Some? && OnUpdate(c, u, icon).1.Accepted?
    ensures Screened(u)
  {
    hide Has, SyncStart, Prepare, Complete, Screened;
  }

  /**
   * Whatever fails later, an accepted update has clean names, and the database then says of its application: the link
   * menu\group\description.lnk, the icon icons\group\id.ico if one came, the program and its command line.
   */
  lemma AcceptedMeans(c: Client, u: UpdatePdu, icon: Option<IconPdu>)
    requires Valid(c) && !c.closed && OnUpdate(c, u, icon).1.Accepted?
    ensures var (c', r) := OnUpdate(c, u, icon);
            && NamesClean(u)
            && r.link == FileName(c.menuPath, u.appGroup, u.desc, ".lnk")
            && r.icon == (if icon.Some? then FileName(c.iconPath, u.appGroup, u.appId, ".ico") else [])
            && c'.db.Some? && exists e :: e in c'.db.value && Describes(e, c, u, r)
  {
    hide Has, WellFormed, Sorted, Ids, DbOk, Insert, Find, LinkPath, IconPath, Key, OnUpdate, Screened, Text, CStr;
    hide ExeArgs, CommandLine, FileName, TargetPath, NamesClean, Candidates;
    AcceptedIsScreened(c, u, icon);
    ScreenedExactly(u);
    UpdateEffect(c, u, icon);
    var (c', r) := OnUpdate(c, u, icon);
    TargetsAre(c, u, icon.Some?);
    CommandLineIs(CStr(c.provider), u.workingDir, Text(u.execPath));
    var e: FileEntry :| e.id == Key(u.appGroup, u.appId) && e.link == r.link && e.icon == r.icon
                        && e.exe == c.exePath && e.args == ExeArgs(CStr(c.provider), u.workingDir, Text(u.execPath))
                        && c'.db.value == Insert(c.db.value, e) && Find(c'.db.value, e.id) == Some(e);
    DbSorted(c');
    FoundIsMember(c'.db.value, e.id);
    assert Describes(e, c, u, r);
  }

  /** The entry of an accepted update, in words. */
  predicate Describes(e: FileEntry, c: Client, u: UpdatePdu, r: UpdateResult)
    requires r.Accepted?
  {
    && e.link == r.link && e.icon == r.icon && e.exe == c.exePath
    && e.args == CommandLine(CStr(c.provider), u.workingDir, Text(u.execPath))
  }

  lemma DbSorted(c: Client)
    requires Valid(c)
    ensures c.db.Some? ==> Sorted(c.db.value)
  {
  }

  lemma TargetsAre(c: Client, u: UpdatePdu, wantsIcon: bool)
    ensures LinkPath(c, u) == FileName(c.menuPath, u.appGroup, u.desc, ".lnk")
    ensures IconPath(c, u, wantsIcon) == if wantsIcon then FileName(c.iconPath, u.appGroup, u.appId, ".ico") else []
  {
    hide FileName, TargetPath;
    FileNameIs(c.menuPath, u.appGroup, u.desc);
    FileNameIs(c.iconPath, u.appGroup, u.appId);
  }

  // When an update is accepted

  /** The directory is there, or can be made where it is to be. */
  predicate Creatable(d: Disk, p: Path) {
    p in d.dirs
    || (p !in d.files && HasParent(p) && Parent(p) in d.dirs && Leaf(p) != Wide(".") && Leaf(p) != Wide(".."))
  }

  lemma EnsureMakes(d: Disk, p: Path)
    requires Says(d) && Creatable(d, p)
    ensures EnsureDir(d, p) == (Asked(d).(dirs := d.dirs + {p}), true)
    ensures Reliable(d) ==> EnsureDir(d, p) == (d.(dirs := d.dirs + {p}), true)
  {
    hide HasParent, Parent, Leaf;
    assert Wide(".") == [DOT] && Wide("..") == DOTS;
    if p in d.dirs {
      assert d.dirs + {p} == d.dirs;
    }
  }

  /** A group can have a directory under the base: its name is one name, and no file stands in its place. */
  predicate GroupFits(d: Disk, base: Path, group: WireString) {
    group.length > 0 ==>
      && SEP !in Text(group) && Text(group) != Wide(".") && Text(group) != Wide("..")
      && GroupDir(base, group) !in d.files
  }

  function GroupDir(base: Path, group: WireString): Path {
    base + if group.length > 0 then Wide("\\") + Text(group) else []
  }

  lemma GroupDirIs(base: Path, group: WireString)
    ensures GroupDir(base, group) == if group.length == 0 then base else Join(base, Text(group))
  {
    hide Text;
    assert Wide("\\") == [SEP];
  }

  lemma GroupMade(d: Disk, base: Path, group: WireString)
    requires Reliable(d) && base in d.dirs && GroupFits(d, base, group)
    ensures EnsureDir(d, GroupDir(base, group)) == (d.(dirs := d.dirs + {GroupDir(base, group)}), true)
  {
    hide Text, EnsureDir, LastSep;
    GroupDirIs(base, group);
    if group.length > 0 {
      JoinSplits(base, Text(group));
    }
    EnsureMakes(d, GroupDir(base, group));
  }

  /** On a disk that fails nothing a target is made: its directories, and nothing else, are there afterwards. */
  lemma TargetMade(d: Disk, base: Path, group: WireString, name: WStr, ext: WStr)
    requires Reliable(d) && Creatable(d, base) && GroupFits(d, base, group)
    requires |TargetPath(base, group, name, ext)| < 260
    ensures Target(d, base, group, name, ext)
            == (d.(dirs := d.dirs + {base, GroupDir(base, group)}), Some(TargetPath(base, group, name, ext)))
  {
    hide Text, EnsureDir, Creatable, GroupFits;
    EnsureMakes(d, base);
    GroupDirIs(base, group);
    var d1 := d.(dirs := d.dirs + {base});
    SameFilesFit(d, d1, base, group);
    GroupMade(d1, base, group);
    assert d.dirs + {base} + {GroupDir(base, group)} == d.dirs + {base, GroupDir(base, group)};
    assert group.length == 0 ==> d.dirs + {base} == d.dirs + {base, GroupDir(base, group)};
  }

  lemma SameFilesFit(d: Disk, d1: Disk, base: Path, group: WireString)
    requires GroupFits(d, base, group) && d1.files == d.files && d1.tape == d.tape
    ensures GroupFits(d1, base, group) && (Reliable(d) ==> Reliable(d1))
  {
    hide Text;
  }

  /** The directories of an update's files. */
  function DirsFor(c: Client, u: UpdatePdu, wantsIcon: bool): set<Path> {
    {c.menuPath, GroupDir(c.menuPath, u.appGroup)}
    + if wantsIcon then {c.iconPath, GroupDir(c.iconPath, u.appGroup)} else {}
  }

  /** The two files can be written: their directories can be made, and neither is a directory itself. */
  predicate PlaceFor(c: Client, d: Disk, u: UpdatePdu, wantsIcon: bool) {
    && Creatable(d, c.menuPath) && GroupFits(d, c.menuPath, u.appGroup) && SEP !in Text(u.desc)
    && FileName(c.menuPath, u.appGroup, u.desc, ".lnk") !in d.dirs + DirsFor(c, u, wantsIcon)
    && (wantsIcon ==>
          && Creatable(d, c.iconPath) && GroupFits(d, c.iconPath, u.appGroup) && SEP !in Text(u.appId)
          && FileName(c.iconPath, u.appGroup, u.appId, ".ico") !in d.dirs + DirsFor(c, u, wantsIcon))
  }

  /** The words put together stay within the client's buffers. */
  predicate WordsFit(c: Client, u: UpdatePdu, wantsIcon: bool) {
    && |FileName(c.menuPath, u.appGroup, u.desc, ".lnk")| < 260
    && (wantsIcon ==> |FileName(c.iconPath, u.appGroup, u.appId, ".ico")| < 260)
    && |CommandLine(CStr(c.provider), u.workingDir, Text(u.execPath))| < 260
    && |Text(u.appId)| + (if u.appGroup.length > 0 then |Text(u.appGroup)| + 1 else 0) < 260
  }

  function EntryFor(c: Client, u: UpdatePdu, wantsIcon: bool): FileEntry {
    FileEntry(Key(u.appGroup, u.appId), LinkPath(c, u), IconPath(c, u, wantsIcon), c.exePath,
              ExeArgs(CStr(c.provider), u.workingDir, Text(u.execPath)))
  }

  lemma PreparedMade(c: Client, u: UpdatePdu, wantsIcon: bool)
    requires Reliable(c.disk) && PlaceFor(c, c.disk, u, wantsIcon) && WordsFit(c, u, wantsIcon)
    ensures Prepare(c, u, wantsIcon)
            == (c.disk.(dirs := c.disk.dirs + DirsFor(c, u, wantsIcon)),
                Some(Plan(LinkPath(c, u), IconPath(c, u, wantsIcon), EntryFor(c, u, wantsIcon))))
  {
    hide Text, CStr, Target, TargetPath, Creatable, GroupFits, GroupDir, FileName, CommandLine, ExeArgs, Key, Reliable;
    FileNameIs(c.menuPath, u.appGroup, u.desc);
    FileNameIs(c.iconPath, u.appGroup, u.appId);
    CommandLineIs(CStr(c.provider), u.workingDir, Text(u.execPath));
    KeyFits(u);
    var d := c.disk;
    if wantsIcon {
      TargetMade(d, c.iconPath, u.appGroup, Text(u.appId), ICO);
      var d1 := d.(dirs := d.dirs + {c.iconPath, GroupDir(c.iconPath, u.appGroup)});
      StillPlace(d, d1, c.menuPath, u.appGroup);
      TargetMade(d1, c.menuPath, u.appGroup, Text(u.desc), LNK);
      assert d1.dirs + {c.menuPath, GroupDir(c.menuPath, u.appGroup)} == d.dirs + DirsFor(c, u, wantsIcon);
    } else {
      TargetMade(d, c.menuPath, u.appGroup, Text(u.desc), LNK);
      assert d.dirs + {c.menuPath, GroupDir(c.menuPath, u.appGroup)} == d.dirs + DirsFor(c, u, wantsIcon);
    }
  }

  lemma KeyFits(u: UpdatePdu)
    ensures Fits(Key(u.appGroup, u.appId))
            <==> |Text(u.appId)| + (if u.appGroup.length > 0 then |Text(u.appGroup)| + 1 else 0) < 260
  {
    hide Text;
  }

  lemma StillPlace(d: Disk, d1: Disk, base: Path, group: WireString)
    requires Creatable(d, base) && GroupFits(d, base, group)
    requires d1.files == d.files && d1.tape == d.tape && d.dirs <= d1.dirs
    ensures Creatable(d1, base) && GroupFits(d1, base, group) && (Reliable(d) ==> Reliable(d1))
  {
    hide Text, HasParent, Parent, Leaf;
  }

  /** A file of the update stands directly in its group's directory. */
  lemma FilePlace(base: Path, group: WireString, name: WireString)
    requires SEP !in Text(name)
    ensures forall p | p in {FileName(base, group, name, ".lnk"), FileName(base, group, name, ".ico")} ::
              HasParent(p) && Parent(p) == GroupDir(base, group) && Leaf(p) != [DOT] && Leaf(p) != DOTS
  {
    hide Text, LastSep;
    Spelled();
    assert Wide("\\") == [SEP];
    var dir := GroupDir(base, group);
    assert FileName(base, group, name, ".lnk") == Join(dir, Text(name) + LNK);
    assert FileName(base, group, name, ".ico") == Join(dir, Text(name) + ICO);
    JoinSplits(dir, Text(name) + LNK);
    JoinSplits(dir, Text(name) + ICO);
  }

  /** Both files are written, the link with the icon's path, the icon with the bytes that came. */
  lemma FilesMade(d: Disk, plan: Plan, icon: Option<IconPdu>)
    requires Reliable(d) && Writable(d, plan.link) && (icon.Some? ==> Writable(d, plan.icon))
    ensures WriteFiles(d, plan, icon)
            == (d.(files := if icon.Some? then d.files[plan.icon := Data(icon.value.file)][plan.link := Link(plan.icon)]
                            else d.files[plan.link := Link([])]),
                icon.Some?, true)
  {
    hide HasParent, Parent, Leaf;
    if icon.Some? {
      assert d.files[plan.icon := Data([])][plan.icon := Data(icon.value.file)]
          == d.files[plan.icon := Data(icon.value.file)];
    }
  }

  /** An icon that could be made but not filled stays behind empty, and the link is written without it. */
  lemma EmptyIconStays(d: Disk, plan: Plan, icon: IconPdu)
    requires d.tape == [true, false] && Writable(d, plan.icon) && Writable(d, plan.link) && plan.icon != plan.link
    ensures WriteFiles(d, plan, Some(icon))
            == (d.(files := d.files[plan.icon := Data([])][plan.link := Link([])], tape := []), false, true)
  {
    hide HasParent, Parent, Leaf;
  }

  /** The session hints ask for nothing that cannot be, and the key is free or stands for exactly these data. */
  predicate HintsAndKeyFit(c: Client, u: UpdatePdu, wantsIcon: bool)
    requires c.db.Some?
  {
    && (Has(u.flags, HINT_SYNC_START) ==> c.sync.None?)
    && (Has(u.flags, HINT_SYNC) || Has(u.flags, HINT_SYNC_END) ==> c.sync.Some? || Has(u.flags, HINT_SYNC_START))
    && (Find(c.db.value, Key(u.appGroup, u.appId)) == None
        || Find(c.db.value, Key(u.appGroup, u.appId)) == Some(EntryFor(c, u, wantsIcon)))
  }

  /**
   * On a disk that fails nothing an update with clean names that fit, for whose files there is room, is accepted and
   * both its files are written: with or without an icon, with or without a group, in or out of a session. Unless it
   * ends one, afterwards the icon holds the bytes that came, the link points to it, and no other file has changed.
   */
  lemma UpdateIsWritten(c: Client, u: UpdatePdu, icon: Option<IconPdu>)
    requires Valid(c) && !c.closed && Reliable(c.disk) && NamesClean(u) && WordsFit(c, u, icon.Some?)
    requires HintsAndKeyFit(c, u, icon.Some?) && PlaceFor(c, Started(c, u).disk, u, icon.Some?)
    ensures var (c', r) := OnUpdate(c, u, icon);
            && r.Accepted? && r.linked && r.hasIcon == icon.Some?
            && r.link == FileName(c.menuPath, u.appGroup, u.desc, ".lnk")
            && (icon.Some? ==> r.icon == FileName(c.iconPath, u.appGroup, u.appId, ".ico"))
            && (!Has(u.flags, HINT_SYNC_END) ==>
                  && r.link in c'.disk.files
                  && c'.disk.files[r.link] == Link(if icon.Some? then r.icon else [])
                  && (icon.Some? ==> r.icon in c'.disk.files && c'.disk.files[r.icon] == Data(icon.value.file))
                  && (forall p | p != r.link && (icon.Some? ==> p != r.icon) ::
                        (p in c'.disk.files <==> p in c.disk.files)
                        && (p in c.disk.files ==> c'.disk.files[p] == c.disk.files[p]))
                  && c.menuPath in c'.disk.dirs && GroupDir(c.menuPath, u.appGroup) in c'.disk.dirs)
  {
    hide Has, WellFormed, Sorted, Ids, DbOk, Admit, Complete, WriteFiles, NamesClean, FileName, PlaceFor, WordsFit;
    hide Insert, Find, Reliable, SyncStart, Key, LinkPath, IconPath, ExeArgs, CStr, Text, HintsAndKeyFit, GroupDir;
    hide Writable, CommandLine, Under, Candidates;
    StartRecords(c, u);
    var c1 := Started(c, u);
    AdmitMade(c, u, icon.Some?);
    SameWords(c, c1, u, icon.Some?);
    PlacesWritable(c1, u, icon.Some?);
    TargetsAre(c, u, icon.Some?);
    TargetsAre(c1, u, icon.Some?);
    LinkNames(c, u, icon.Some?);
    var (c2, plan) := Admit(c, u, icon.Some?);
    ReliableDisk(c1.disk, c2.disk);
    SessionThere(c, u, icon.Some?);
    FilesMade(c2.disk, plan.value, icon);
    CompleteMade(c2, u, icon, plan.value);
  }

  /** Up to acceptance: the directories are made, and the plan is what the words say. */
  lemma AdmitMade(c: Client, u: UpdatePdu, wantsIcon: bool)
    requires Valid(c) && !c.closed && Reliable(c.disk) && NamesClean(u) && WordsFit(c, u, wantsIcon)
    requires HintsAndKeyFit(c, u, wantsIcon) && PlaceFor(c, Started(c, u).disk, u, wantsIcon)
    ensures var (c1, (c2, plan)) := (Started(c, u), Admit(c, u, wantsIcon));
            && plan == Some(Plan(LinkPath(c, u), IconPath(c, u, wantsIcon), EntryFor(c, u, wantsIcon)))
            && c2.disk == c1.disk.(dirs := c1.disk.dirs + DirsFor(c, u, wantsIcon))
            && c2.sync == c1.sync
  {
    hide Has, WellFormed, Sorted, Ids, DbOk, Prepare, Screened, NamesClean, Text, CStr, Key, ExeArgs;
    hide LinkPath, IconPath, FileName, PlaceFor, WordsFit, Insert, Find, Reliable, Walk, GroupDir, DirsFor;
    StartRecords(c, u);
    ScreenedExactly(u);
    var c1 := Started(c, u);
    SameWords(c, c1, u, wantsIcon);
    SamePlaces(c, c1, u, wantsIcon);
    PreparedMade(c1, u, wantsIcon);
    FreshOrEqual(c, u, wantsIcon);
  }

  lemma SessionThere(c: Client, u: UpdatePdu, wantsIcon: bool)
    requires Valid(c) && !c.closed && HintsAndKeyFit(c, u, wantsIcon)
    ensures Has(u.flags, HINT_SYNC) ==> Started(c, u).sync.Some?
  {
    hide Has, WellFormed, Sorted, DbOk, Ids, Find, Key, Candidates;
    StartRecords(c, u);
  }

  lemma CompleteMade(c: Client, u: UpdatePdu, icon: Option<IconPdu>, plan: Plan)
    requires Has(u.flags, HINT_SYNC) ==> c.sync.Some?
    ensures var ((c', r), (d, hasIcon, linked)) := (Complete(c, u, icon, plan), WriteFiles(c.disk, plan, icon));
            && r == Accepted(plan.link, plan.icon, hasIcon, linked)
            && (!Has(u.flags, HINT_SYNC_END) ==> c'.disk == d)
  {
    hide Has, WriteFiles, Unmark, SyncEnd;
  }

  lemma ReliableDisk(d: Disk, d': Disk)
    requires Reliable(d) && d'.tape == d.tape
    ensures Reliable(d')
  {
  }

  lemma SameWords(c: Client, c1: Client, u: UpdatePdu, wantsIcon: bool)
    requires SameSettings(c, c1)
    ensures WordsFit(c, u, wantsIcon) <==> WordsFit(c1, u, wantsIcon)
    ensures PlaceFor(c, c1.disk, u, wantsIcon) <==> PlaceFor(c1, c1.disk, u, wantsIcon)
    ensures EntryFor(c, u, wantsIcon) == EntryFor(c1, u, wantsIcon)
    ensures DirsFor(c, u, wantsIcon) == DirsFor(c1, u, wantsIcon)
  {
    hide Text, CStr, FileName, CommandLine, Creatable, GroupFits, GroupDir, Key, ExeArgs;
  }

  lemma FreshOrEqual(c: Client, u: UpdatePdu, wantsIcon: bool)
    requires c.db.Some? && HintsAndKeyFit(c, u, wantsIcon)
    ensures Added(c.db.value, EntryFor(c, u, wantsIcon)).1
  {
    hide Find, Insert, Key, LinkPath, IconPath, ExeArgs, CStr, Text;
  }

  lemma PlacesWritable(c: Client, u: UpdatePdu, wantsIcon: bool)
    requires PlaceFor(c, c.disk, u, wantsIcon)
    ensures var d := c.disk.(dirs := c.disk.dirs + DirsFor(c, u, wantsIcon));
            && Writable(d, FileName(c.menuPath, u.appGroup, u.desc, ".lnk"))
            && (wantsIcon ==> Writable(d, FileName(c.iconPath, u.appGroup, u.appId, ".ico")))
  {
    hide Text, FileName, Creatable, GroupFits, GroupDir, HasParent, Parent, Leaf;
    FilePlace(c.menuPath, u.appGroup, u.desc);
    if wantsIcon {
      FilePlace(c.iconPath, u.appGroup, u.appId);
    }
  }

  // A file where the menu should be

  /**
   * The client asks whether something of the menu directory's name is there, not what: with a file in its place an
   * update is accepted all the same. The database then names a link that could not be written.
   */
  lemma FileForMenu(c: Client, u: UpdatePdu)
    requires Valid(c) && !c.closed && Reliable(c.disk) && NamesClean(u) && WordsFit(c, u, false)
    requires HintsAndKeyFit(c, u, false) && u.appGroup.length == 0 && SEP !in Text(u.desc)
    requires c.menuPath in c.disk.files && !Has(u.flags, HINT_SYNC_END)
    ensures var (c', r) := OnUpdate(c, u, None);
            && r == Accepted(FileName(c.menuPath, u.appGroup, u.desc, ".lnk"), [], false, false)
            && c'.disk.files == c.disk.files && r.link !in c'.disk.files
            && c'.db.Some? && Find(c'.db.value, Key(u.appGroup, u.appId)).Some?
            && Find(c'.db.value, Key(u.appGroup, u.appId)).value.link == r.link
  {
    hide Has, WellFormed, Sorted, Ids, DbOk, Admit, Complete, WriteFiles, NamesClean, FileName, WordsFit;
    hide Insert, Find, Reliable, SyncStart, Key, LinkPath, IconPath, ExeArgs, CStr, Text, HintsAndKeyFit, GroupDir;
    hide Writable, CommandLine, Under, Candidates;
    StartRecords(c, u);
    var c1 := Started(c, u);
    TargetsAre(c, u, false);
    AdmitAtFile(c, u);
    SessionThere(c, u, false);
    var (c2, plan) := Admit(c, u, false);
    FilePlace(c.menuPath, u.appGroup, u.desc);
    GroupDirIs(c.menuPath, u.appGroup);
    ReliableDisk(c1.disk, c2.disk);
    NotInFile(c2.disk, c.menuPath, LinkPath(c, u));
    NoLinkMade(c2.disk, plan.value);
    CompleteMade(c2, u, None, plan.value);
    AcceptedEntryOf(c, u);
  }

  lemma AcceptedEntryOf(c: Client, u: UpdatePdu)
    requires Valid(c) && !c.closed && OnUpdate(c, u, None).1.Accepted?
    ensures var (c', r) := OnUpdate(c, u, None);
            && c'.db.Some? && Find(c'.db.value, Key(u.appGroup, u.appId)).Some?
            && Find(c'.db.value, Key(u.appGroup, u.appId)).value.link == r.link
  {
    hide Has, WellFormed, Sorted, Ids, DbOk, Insert, Find, LinkPath, IconPath, Key, OnUpdate, Text, CStr, ExeArgs;
    hide Candidates;
    UpdateEffect(c, u, None);
  }

  lemma NotInFile(d: Disk, base: Path, p: Path)
    requires WellFormed(d) && base in d.files && HasParent(p) && Parent(p) == base
    ensures p !in d.files && !Writable(d, p)
  {
    hide HasParent, Parent, Leaf;
  }

  lemma NoLinkMade(d: Disk, plan: Plan)
    requires Reliable(d) && !Writable(d, plan.link)
    ensures WriteFiles(d, plan, None) == (d, false, false)
  {
    hide Writable;
  }

  lemma AdmitAtFile(c: Client, u: UpdatePdu)
    requires Valid(c) && !c.closed && Reliable(c.disk) && NamesClean(u) && WordsFit(c, u, false)
    requires HintsAndKeyFit(c, u, false) && u.appGroup.length == 0 && c.menuPath in c.disk.files
    ensures var (c1, (c2, plan)) := (Started(c, u), Admit(c, u, false));
            && plan == Some(Plan(LinkPath(c, u), [], EntryFor(c, u, false)))
            && c2.disk == c1.disk && c2.sync == c1.sync
  {
    hide Has, WellFormed, Sorted, Ids, DbOk, Prepare, Screened, NamesClean, Text, CStr, Key, ExeArgs;
    hide LinkPath, FileName, WordsFit, Insert, Find, Reliable, Walk, GroupDir;
    StartRecords(c, u);
    ScreenedExactly(u);
    var c1 := Started(c, u);
    SameWords(c, c1, u, false);
    SamePlaces(c, c1, u, false);
    PreparedAtFile(c1, u);
    FreshOrEqual(c, u, false);
  }

  lemma PreparedAtFile(c: Client, u: UpdatePdu)
    requires Reliable(c.disk) && c.menuPath in c.disk.files && u.appGroup.length == 0 && WordsFit(c, u, false)
    ensures Prepare(c, u, false) == (c.disk, Some(Plan(LinkPath(c, u), [], EntryFor(c, u, false))))
  {
    hide Text, CStr, FileName, CommandLine, ExeArgs, Key, HasParent, Parent, Leaf;
    FileNameIs(c.menuPath, u.appGroup, u.desc);
    CommandLineIs(CStr(c.provider), u.workingDir, Text(u.execPath));
    KeyFits(u);
    assert EnsureDir(c.disk, c.menuPath) == (c.disk, true);
  }
}
