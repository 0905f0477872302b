/** Runs from a fresh client, in full, in which a session leaves what one would not expect. */
module ExampleRuns {
  import opened Bytes
  import opened Protocol
  import opened ClientRead
  import opened Paths
  import opened FileEntries
  import opened FileSys
  import opened Client
  import opened ClientLaws
  import opened SessionLaws
  import opened SyncLaws
  import opened AcceptedLaws
  import opened WalkLaws
  import opened PlainReports
  import ProviderName
  import ServerLoop

  const DRIVE: Path := [67]
  const APPS: Path := [67, 92, 80, 114, 111, 103, 114, 97, 109, 115]  // C\Programs
  const MENU: Path := Join(APPS, [112])
  const ROOT: Path := [84] + PLUGIN
  const ICONS: Path := Join(ROOT, [112])

  const DISK := Disk(map[], {DRIVE, APPS, MENU, ROOT, ICONS}, [])
  const GUIDS: map<WStr, u32> := map[[71] := 7]
  const LANG: ServerLoop.Lang := seq(LANG_SIZE, _ => 0)
  const HOST := Host(Some(DRIVE), [84], Some(DRIVE), true, GUIDS, LANG, 0)

  function Letter(c: byte): WireString {
    WireString(2, [c, 0])
  }

  const CAPS := CapsPdu(4, Letter(112), Letter(71))

  /** The only report of a session: no group, no icon, one letter for its id and its description. */
  function Report(c: byte): Event {
    Message(UpdateMsg(UpdatePdu(0x70_000D, Letter(c), EMPTY, Letter(120), EMPTY, Letter(c)), None))
  }

  lemma LetterText(c: byte)
    requires c != 0
    ensures Text(Letter(c)) == [c]
  {
    var b: seq<byte> := [c, 0];
    assert b[..2] == b && b[2..] == [] && FromLE16(b) == c;
    assert CStr(b) == [c] + CStr(b[2..]);
  }

  lemma OneLetter(c: u16)
    requires c != DOT && c != QUOTE && c != SPACE
    ensures !Contains([c], DOTS) && !Contains([c], [QUOTE]) && !Contains([c], [SPACE])
  {
    var s: WStr := [c];
    assert s[..1] == s && s[1..] == [];
    assert [QUOTE][0] != s[0] && [SPACE][0] != s[0];
  }

  lemma EmptyText()
    ensures Text(EMPTY) == []
  {
  }

  lemma FlagsOfReport()
    ensures Has(0x70_000D, HINT_SYNC) && Has(0x70_000D, HINT_SYNC_START) && Has(0x70_000D, HINT_SYNC_END)
  {
  }

  lemma NoSeparator(p: Path)
    requires SEP !in p
    ensures !HasParent(p)
  {
  }

  lemma DiskIsTree()
    ensures WellFormed(DISK)
  {
    hide LastSep;
    NoSeparator(DRIVE);
    NoSeparator(ROOT);
    assert APPS == Join(DRIVE, APPS[2..]);
    JoinSplits(DRIVE, APPS[2..]);
    JoinSplits(APPS, [112]);
    JoinSplits(ROOT, [112]);
    assert |APPS[2..]| == 8;
  }

  lemma MenuBuilt()
    ensures BuildMenuPath(HOST, DISK, [], [112]) == (DISK, MENU, true)
  {
    assert DRIVE + PROGRAMS + [112] == MENU;
  }

  lemma IconsBuilt()
    ensures BuildIconPath(HOST, DISK, [], [112]) == (DISK, ICONS, true)
  {
  }

  /** The client once its capabilities are answered. */
  lemma Greeted()
    ensures var c := Step(HOST, Fresh(DISK), Message(CapsMsg(CAPS)));
            && Valid(c) && c.disk == DISK && c.db == Some([]) && c.sync.None? && !c.closed && c.handshake
            && c.menuPath == MENU && c.iconPath == ICONS && CStr(c.provider) == [112]
  {
    hide WellFormed, Overlay, CStr, ServerLoop.Reply, BuildMenuPath, BuildIconPath, DbOk;
    DiskIsTree();
    var c := Fresh(DISK);
    LetterText(112);
    LetterText(71);
    ProviderName.ShownExactly(c.provider, CAPS.name);
    MenuBuilt();
    IconsBuilt();
    OneLetter(112);
    FreshValid(DISK);
    StepKeepsValid(HOST, c, Message(CapsMsg(CAPS)));
  }

  lemma ReportIsPlain(c: Client, letter: byte)
    requires Valid(c) && c.disk == DISK && c.db == Some([]) && c.sync.None? && !c.closed && c.handshake
    requires c.menuPath == MENU && CStr(c.provider) == [112] && 97 <= letter < 123
    ensures Plain(c, Report(letter))
    ensures var u := Report(letter).msg.update;
            Key(u.appGroup, u.appId) == [letter] && LinkPath(c, u) == MENU + [SEP, letter] + LNK
  {
    hide WellFormed, Text, CStr, Has, Sorted, DbOk;
    FlagsOfReport();
    LetterText(letter);
    LetterText(120);
    EmptyText();
    var u := Report(letter).msg.update;
    assert Screened(u) by {
      OneLetter(letter);
    }
    assert LinkPath(c, u) == MENU + [SEP, letter] + LNK;
    assert |MENU| == 12;
  }

  /** The run: after the second report's session the first one's entry names a link that is gone. */
  lemma StaleRun()
    ensures var es := [Message(CapsMsg(CAPS)), Report(97), Report(98)];
            var (c, link) := (Run(HOST, Fresh(DISK), es), MENU + [SEP, 97] + LNK);
            && link in Run(HOST, Fresh(DISK), es[..2]).disk.files
            && c.db.Some? && Find(c.db.value, [97]).Some? && Find(c.db.value, [97]).value.link == link
            && link !in c.disk.files
  {
    hide Step, Plain, Valid, Run, LinkPath, Key, Find, Has;
    var es := [Message(CapsMsg(CAPS)), Report(97), Report(98)];
    Greeted();
    var c := Step(HOST, Fresh(DISK), es[0]);
    ReportIsPlain(c, 97);
    ReportIsPlain(c, 98);
    FlagsOfReport();
    assert (MENU + [SEP, 97] + LNK)[|MENU| + 1] == 97 && (MENU + [SEP, 98] + LNK)[|MENU| + 1] == 98;
    StaleEntry(HOST, c, Report(97), Report(98));
    assert es[1..] == [Report(97), Report(98)] && es[..2][1..] == [Report(97)];
    RunFirst(HOST, Fresh(DISK), es);
    RunFirst(HOST, Fresh(DISK), es[..2]);
  }

  /** A second application under the first one's description, in a session it opens and ends without the sync hint. */
  const RENAMED := Message(UpdateMsg(UpdatePdu(0x60_000D, Letter(98), EMPTY, Letter(120), EMPTY, Letter(97)), None))

  lemma FlagsOfRenamed()
    ensures !Has(0x60_000D, HINT_SYNC) && Has(0x60_000D, HINT_SYNC_START) && Has(0x60_000D, HINT_SYNC_END)
  {
  }

  lemma RenamedIsOrdinary(c: Client)
    requires Valid(c) && !c.closed && c.handshake && c.menuPath == MENU && CStr(c.provider) == [112]
    requires c.db.Some? && Find(c.db.value, [98]).None?
    requires MENU in c.disk.dirs && MENU + [SEP, 97] + LNK !in c.disk.dirs
    ensures Ordinary(c, RENAMED) && LinkPath(c, RENAMED.msg.update) == MENU + [SEP, 97] + LNK
  {
    hide WellFormed, Text, CStr, Has, Sorted, DbOk, Find;
    LetterText(97);
    LetterText(98);
    LetterText(120);
    EmptyText();
    var u := RENAMED.msg.update;
    assert Screened(u) by {
      OneLetter(97);
      OneLetter(98);
    }
    assert Key(u.appGroup, u.appId) == [98];
    assert LinkPath(c, u) == MENU + [SEP, 97] + LNK;
    assert |MENU| == 12;
  }

  /** The run: the last update is accepted and its link is not there afterwards, though it was there before. */
  lemma EndRun()
    ensures var es := [Message(CapsMsg(CAPS)), Report(97), RENAMED];
            var (before, link) := (Run(HOST, Fresh(DISK), es[..2]), MENU + [SEP, 97] + LNK);
            && link in before.disk.files && before.db.Some?
            && var (c, r) := OnUpdate(before, RENAMED.msg.update, None);
            && c == Run(HOST, Fresh(DISK), es)
            && r.Accepted? && r.linked && r.link == link && link !in c.disk.files
  {
    hide Step, Plain, Ordinary, Valid, Run, LinkPath, Key, Find, Has, OnUpdate, LinksBelow;
    var es := [Message(CapsMsg(CAPS)), Report(97), RENAMED];
    Greeted();
    var c := Step(HOST, Fresh(DISK), es[0]);
    ReportIsPlain(c, 97);
    ReportIsPlain(c, 98);
    FlagsOfReport();
    var c1 := Step(HOST, c, Report(97));
    AfterReport(c);
    FlagsOfRenamed();
    RenamedIsOrdinary(c1);
    EndWithoutSyncSweeps(c1, RENAMED);
    assert es[1..] == [Report(97), RENAMED] && es[..2][1..] == [Report(97)];
    RunFirst(HOST, Fresh(DISK), es);
    RunFirst(HOST, Fresh(DISK), es[..2]);
    TwoSteps(HOST, c, Report(97), RENAMED);
    UpdateIsHandled(HOST, c1, RENAMED);
  }

  lemma UpdateIsHandled(host: Host, c: Client, e: Event)
    requires Ordinary(c, e)
    ensures Step(host, c, e) == OnUpdate(c, e.msg.update, None).0
  {
    hide OnUpdate;
  }

  /** What the first report leaves for the last update to find. */
  lemma AfterReport(c: Client)
    requires Valid(c) && Reliable(c.disk) && c.sync.None? && c.menuPath == MENU && CStr(c.provider) == [112]
    requires Plain(c, Report(97)) && Plain(c, Report(98))
    requires LinkPath(c, Report(97).msg.update) == MENU + [SEP, 97] + LNK
    requires Key(Report(97).msg.update.appGroup, Report(97).msg.update.appId) == [97]
    requires Key(Report(98).msg.update.appGroup, Report(98).msg.update.appId) == [98]
    ensures var c1 := Step(HOST, c, Report(97));
            && Valid(c1) && Reliable(c1.disk) && c1.sync.None? && !c1.closed && c1.handshake && c1.db.Some?
            && c1.menuPath == MENU && CStr(c1.provider) == [112] && Find(c1.db.value, [98]).None?
            && MENU in c1.disk.dirs
            && MENU + [SEP, 97] + LNK in c1.disk.files && MENU + [SEP, 97] + LNK !in c1.disk.dirs
  {
    hide WellFormed, DbOk, Sorted, LinkPath, Key, Find, Has, OnUpdate, LinksBelow, Step, CStr, Text, ExeArgs, Screened;
    hide Report;
    var (e1, e2) := (Report(97), Report(98));
    ReportFlags(97);
    OneReportSession(HOST, c, e1);
    PlainAgain(HOST, c, e1, e2);
    PlainSettings(HOST, c, e1);
    var c1 := Step(HOST, c, e1);
    var link := MENU + [SEP, 97] + LNK;
    assert link in LinksBelow(c1.disk, c.menuPath);
    IsThere(c1.disk, c.menuPath, link);
    FilesAreNoDirs(c1.disk);
  }

  lemma ReportFlags(letter: byte)
    ensures Report(letter).Message? && Report(letter).msg.UpdateMsg? && Report(letter).msg.update.flags == 0x70_000D
    ensures Has(Report(letter).msg.update.flags, HINT_SYNC_END)
  {
    FlagsOfReport();
  }

  lemma FilesAreNoDirs(d: Disk)
    requires WellFormed(d)
    ensures d.files.Keys !! d.dirs
  {
  }

  // An application with a group and an icon

  const ICON := IconPdu(0, 1, 1, 4, 32, 0, 4, [1, 2, 3, 4])

  /** Group "g", id "i", description "d", an icon; no session. */
  const GROUPED := UpdatePdu(0x1F, Letter(105), Letter(103), Letter(120), EMPTY, Letter(100))

  lemma NoHintsOfGrouped()
    ensures !Has(0x1F, HINT_SYNC) && !Has(0x1F, HINT_SYNC_START) && !Has(0x1F, HINT_SYNC_END)
  {
  }

  /** The run: on a fresh disk both directories are made and both files written, the link with the icon's path. */
  lemma GroupedRun()
    ensures var es := [Message(CapsMsg(CAPS)), Message(UpdateMsg(GROUPED, Some(ICON)))];
            var d := Run(HOST, Fresh(DISK), es).disk;
            var (link, icon) := (MENU + Wide("\\g\\d.lnk"), ICONS + Wide("\\g\\i.ico"));
            && link in d.files && d.files[link] == Link(icon)
            && icon in d.files && d.files[icon] == Data([1, 2, 3, 4])
  {
    hide Step, Valid, Run, Has, OnUpdate, CStr, Text, GroupDir, NamesClean, HintsAndKeyFit, PlaceFor, WordsFit;
    var e := Message(UpdateMsg(GROUPED, Some(ICON)));
    Greeted();
    var c := Step(HOST, Fresh(DISK), Message(CapsMsg(CAPS)));
    GroupedFits(c);
    NoHintsOfGrouped();
    UpdateIsWritten(c, GROUPED, Some(ICON));
    GroupedWords(c);
    HandledUpdate(HOST, c, e);
    assert [Message(CapsMsg(CAPS)), e][1..] == [e];
    RunFirst(HOST, Fresh(DISK), [Message(CapsMsg(CAPS)), e]);
    assert Run(HOST, c, [e]) == Step(HOST, c, e) by {
      TwoSteps(HOST, c, e, e);
    }
  }

  lemma HandledUpdate(host: Host, c: Client, e: Event)
    requires Updates(c, e) && c.db.Some?
    ensures Step(host, c, e) == OnUpdate(c, e.msg.update, e.msg.icon).0
  {
    hide OnUpdate;
  }

  lemma GroupedWords(c: Client)
    requires c.menuPath == MENU && c.iconPath == ICONS
    ensures FileName(c.menuPath, GROUPED.appGroup, GROUPED.desc, ".lnk") == MENU + Wide("\\g\\d.lnk")
    ensures FileName(c.iconPath, GROUPED.appGroup, GROUPED.appId, ".ico") == ICONS + Wide("\\g\\i.ico")
  {
    hide Text;
    LetterText(100);
    LetterText(103);
    LetterText(105);
  }

  lemma GroupedFits(c: Client)
    requires Valid(c) && c.disk == DISK && c.db == Some([]) && c.sync.None? && !c.closed && c.handshake
    requires c.menuPath == MENU && c.iconPath == ICONS && CStr(c.provider) == [112]
    ensures NamesClean(GROUPED) && WordsFit(c, GROUPED, true) && HintsAndKeyFit(c, GROUPED, true)
    ensures PlaceFor(c, Started(c, GROUPED).disk, GROUPED, true) && Started(c, GROUPED) == c
  {
    hide WellFormed, CStr, Text, Has, Sorted, DbOk, FileName, HasParent, Parent, Leaf;
    NoHintsOfGrouped();
    LetterText(100);
    LetterText(103);
    LetterText(105);
    LetterText(120);
    EmptyText();
    GroupedWords(c);
    assert |MENU| == 12 && |ICONS| == 15;
    assert |GroupDir(MENU, GROUPED.appGroup)| == 14 && |GroupDir(ICONS, GROUPED.appGroup)| == 17;
    assert forall p | p in DISK.dirs + DirsFor(c, GROUPED, true) :: |p| <= 17;
    assert |MENU + Wide("\\g\\d.lnk")| == 20 && |ICONS + Wide("\\g\\i.ico")| == 20 + 3;
    assert Wide(".") != Text(Letter(103)) && Wide("..") != Text(Letter(103)) by {
      assert Wide(".")[0] == 46 && Wide("..")[0] == 46;
    }
  }
}
