/** Which applications the database tells apart, and what that means for updates, deletes and associations. */
module KeyLaws {
  import opened Bytes
  import opened Protocol
  import opened ClientRead
  import opened Paths
  import opened FileEntries
  import opened FileSys
  import opened Client
  import opened ClientLaws
  import opened SessionLaws
  import opened AcceptedLaws
  import HistoryLaws

  /** The same application: the same id, and the same group or none for both. */
  predicate SameApp(g1: WireString, i1: WireString, g2: WireString, i2: WireString) {
    && Text(i1) == Text(i2)
    && (g1.length > 0 <==> g2.length > 0)
    && (g1.length > 0 ==> Text(g1) == Text(g2))
  }

  /** The id holds no backslash; the group may. */
  predicate OnePart(i: WireString) {
    92 !in Text(i)
  }

  lemma KeyIs(g: WireString, i: WireString)
    ensures Key(g, i) == if g.length > 0 then Text(g) + [92] + Text(i) else Text(i)
  {
    hide Text;
  }

  /**
   * Two applications are taken for one without being one: the second has in its id what the first has in its group,
   * all of it or the part behind a backslash.
   */
  ghost predicate Shifted(g1: WireString, i1: WireString, g2: WireString, i2: WireString) {
    g1.length > 0
    && if g2.length > 0 then exists x :: Text(g1) == Text(g2) + [92] + x && Text(i2) == x + [92] + Text(i1)
       else Text(i2) == Text(g1) + [92] + Text(i1)
  }

  /** What the client takes for one application: the same one, or one shifted against the other. */
  ghost predicate TakenForOne(g1: WireString, i1: WireString, g2: WireString, i2: WireString) {
    SameApp(g1, i1, g2, i2) || Shifted(g1, i1, g2, i2) || Shifted(g2, i2, g1, i1)
  }

  /** When two applications share a key, for any names. */
  lemma KeysShareExactly(g1: WireString, i1: WireString, g2: WireString, i2: WireString)
    ensures Key(g1, i1) == Key(g2, i2) <==> TakenForOne(g1, i1, g2, i2)
  {
    hide Text;
    KeyIs(g1, i1);
    KeyIs(g2, i2);
    if g1.length > 0 && g2.length > 0 {
      SplitsOf(Text(g1), Text(i1), Text(g2), Text(i2));
    }
  }

  /** Two ways to cut one string at a backslash: the same, or one cut stands behind the other. */
  lemma SplitsOf(a: WStr, b: WStr, c: WStr, d: WStr)
    ensures a + [92] + b == c + [92] + d
            <==> || (a == c && b == d)
                 || (exists x :: a == c + [92] + x && d == x + [92] + b)
                 || (exists x :: c == a + [92] + x && b == x + [92] + d)
  {
    if a + [92] + b == c + [92] + d {
      if |a| == |c| {
        assert a == (a + [92] + b)[..|a|] == c && b == (a + [92] + b)[|a| + 1..] == d;
      } else if |a| > |c| {
        LaterSplit(a, b, c, d);
      } else {
        LaterSplit(c, d, a, b);
      }
    }
    if x :| a == c + [92] + x && d == x + [92] + b {
      assert c + [92] + x + [92] + b == c + [92] + (x + [92] + b);
    }
    if x :| c == a + [92] + x && b == x + [92] + d {
      assert a + [92] + x + [92] + d == a + [92] + (x + [92] + d);
    }
  }

  lemma LaterSplit(a: WStr, b: WStr, c: WStr, d: WStr)
    requires a + [92] + b == c + [92] + d && |a| > |c|
    ensures exists x :: a == c + [92] + x && d == x + [92] + b
  {
    var s := a + [92] + b;
    var x := a[|c| + 1..];
    assert a == s[..|a|] && s[..|c|] == c && s[|c|] == 92;
    assert a == c + [92] + x;
    assert d == s[|c| + 1..] == x + [92] + b;
  }

  /** Ids without a backslash have the same key only for the same application, whatever the groups hold. */
  lemma KeysTellApps(g1: WireString, i1: WireString, g2: WireString, i2: WireString)
    requires OnePart(i1) && OnePart(i2)
    ensures Key(g1, i1) == Key(g2, i2) <==> SameApp(g1, i1, g2, i2)
  {
    hide Text, Key, SameApp;
    KeysShareExactly(g1, i1, g2, i2);
    ShiftNeedsBackslash(g1, i1, g2, i2);
    ShiftNeedsBackslash(g2, i2, g1, i1);
  }

  lemma ShiftNeedsBackslash(g1: WireString, i1: WireString, g2: WireString, i2: WireString)
    ensures Shifted(g1, i1, g2, i2) ==> 92 in Text(i2)
  {
    hide Text;
    if Shifted(g1, i1, g2, i2) {
      if g2.length > 0 {
        var x :| Text(g1) == Text(g2) + [92] + x && Text(i2) == x + [92] + Text(i1);
        assert Text(i2)[|x|] == 92;
      } else {
        assert Text(i2)[|Text(g1)|] == 92;
      }
    }
  }

  lemma AcceptedEntry(c: Client, u: UpdatePdu, icon: Option<IconPdu>)
    requires Valid(c) && !c.closed && OnUpdate(c, u, icon).1.Accepted?
    ensures var (c', r) := OnUpdate(c, u, icon);
            && Valid(c') && !c'.closed && c'.db.Some? && Fits(Key(u.appGroup, u.appId))
            && Find(c'.db.value, Key(u.appGroup, u.appId)).Some?
            && var e := Find(c'.db.value, Key(u.appGroup, u.appId)).value;
            && e.link == r.link && e.icon == r.icon && e.exe == c.exePath && Fits(e.icon) && Fits(e.args)
            && e.args == CommandLine(CStr(c.provider), u.workingDir, Text(u.execPath))
            && c'.db.value == Insert(c.db.value, e) && e.id == Key(u.appGroup, u.appId)
  {
    hide Has, WellFormed, Sorted, Ids, Insert, Find, Complete, LinkPath, IconPath, Key, Fits, SyncStart;
    hide Text, CStr, ExeArgs, CommandLine, Less, Candidates;
    AdmitEffect(c, u, icon.Some?);
    var (c1, plan) := Admit(c, u, icon.Some?);
    UpdateEffect(c, u, icon);
    CompleteEffect(c1, u, icon, plan.value);
    CommandLineIs(CStr(c.provider), u.workingDir, Text(u.execPath));
  }

  /**
   * A delete after the first update of a database succeeds if and only if it names what is taken for its application;
   * with ids without a backslash, if and only if it names that application.
   */
  lemma DeleteNamesExactly(c: Client, u: UpdatePdu, icon: Option<IconPdu>, d: DeletePdu)
    requires Valid(c) && c.db == Some([]) && OnUpdate(c, u, icon).1.Accepted?
    ensures OnUpdate(c, u, icon).0.db.Some?
    ensures OnDelete(OnUpdate(c, u, icon).0, d).1.Deleted? <==> TakenForOne(u.appGroup, u.appId, d.appGroup, d.appId)
    ensures OnePart(u.appId) && OnePart(d.appId)
            ==> (OnDelete(OnUpdate(c, u, icon).0, d).1.Deleted? <==> SameApp(u.appGroup, u.appId, d.appGroup, d.appId))
  {
    hide Has, WellFormed, Sorted, Ids, Insert, Find, OnUpdate, OnDelete, Key, Fits, TakenForOne, OnePart, SameApp;
    hide Text, CStr;
    hide CommandLine, PathsFit, AsMap, Lost;
    AcceptedEntry(c, u, icon);
    var (c1, r) := OnUpdate(c, u, icon);
    KeysShareExactly(u.appGroup, u.appId, d.appGroup, d.appId);
    if OnePart(u.appId) && OnePart(d.appId) {
      KeysTellApps(u.appGroup, u.appId, d.appGroup, d.appId);
    }
    DeleteEffect(c1, d);
    var e := Find(c1.db.value, Key(u.appGroup, u.appId)).value;
    OnlyEntry(e, Key(d.appGroup, d.appId));
  }

  lemma OnlyEntry(e: FileEntry, key: WStr)
    ensures Find(Insert([], e), key).Some? <==> key == e.id
  {
    LessTotal(e.id, key);
  }

  /**
   * In any database, accepting an update leaves the entry of what is not taken for its application as it was, found
   * or not.
   */
  lemma OtherAppsKept(c: Client, u: UpdatePdu, icon: Option<IconPdu>, g: WireString, i: WireString)
    requires Valid(c) && !c.closed && !TakenForOne(u.appGroup, u.appId, g, i)
    ensures OnUpdate(c, u, icon).0.db.Some?
    ensures Find(OnUpdate(c, u, icon).0.db.value, Key(g, i)) == Find(c.db.value, Key(g, i))
  {
    hide Has, WellFormed, Sorted, Ids, Insert, Find, OnUpdate, Key, Fits, TakenForOne, OnePart, SameApp, Text, CStr;
    hide LinkPath, IconPath, ExeArgs, PathsFit, Candidates;
    UpdateEffect(c, u, icon);
    KeysShareExactly(u.appGroup, u.appId, g, i);
    DbSorted(c);
    var (c', r) := OnUpdate(c, u, icon);
    if r.Accepted? {
      var e: FileEntry :| e.id == Key(u.appGroup, u.appId) && c'.db.value == Insert(c.db.value, e);
      HistoryLaws.InsertKeepsOthers(c.db.value, e, Key(g, i));
    }
  }

  /** A delete leaves every application it is not taken for as it was. */
  lemma DeleteKeepsOtherApps(c: Client, d: DeletePdu, g: WireString, i: WireString)
    requires Valid(c) && !c.closed && !TakenForOne(d.appGroup, d.appId, g, i)
    ensures OnDelete(c, d).0.db.Some?
    ensures Find(OnDelete(c, d).0.db.value, Key(g, i)) == Find(c.db.value, Key(g, i))
  {
    hide Sorted, Erase, Find, Key, Fits, TakenForOne, OnePart, SameApp, Text, PathsFit, DeleteIfNamed;
    KeysShareExactly(d.appGroup, d.appId, g, i);
    DbSorted(c);
    HistoryLaws.EraseKeepsOthers(c.db.value, Key(d.appGroup, d.appId), Key(g, i));
  }

  /**
   * With a backslash in an id two applications can be one: after an update for id "b\c" in group "a" is accepted, a
   * delete for id "c" in group "a\b" deletes it.
   */
  lemma BackslashConfuses(c: Client, u: UpdatePdu, icon: Option<IconPdu>, d: DeletePdu)
    requires Valid(c) && !c.closed && OnUpdate(c, u, icon).1.Accepted?
    requires u.appGroup.length > 0 && Text(u.appGroup) == Wide("a") && Text(u.appId) == Wide("b\\c")
    requires d.appGroup.length > 0 && Text(d.appGroup) == Wide("a\\b") && Text(d.appId) == Wide("c")
    ensures OnUpdate(c, u, icon).0.db.Some? && OnDelete(OnUpdate(c, u, icon).0, d).1.Deleted?
    ensures !SameApp(u.appGroup, u.appId, d.appGroup, d.appId)
  {
    hide Has, WellFormed, Sorted, Ids, Insert, Find, OnUpdate, OnDelete, Fits, Text, CStr, CommandLine, PathsFit, AsMap;
    hide Lost;
    AcceptedEntry(c, u, icon);
    KeyIs(u.appGroup, u.appId);
    KeyIs(d.appGroup, d.appId);
    assert Wide("a") + [92] + Wide("b\\c") == Wide("a\\b\\c") == Wide("a\\b") + [92] + Wide("c");
    assert |Wide("c")| == 1 && |Wide("b\\c")| == 3;
    DeleteEffect(OnUpdate(c, u, icon).0, d);
  }

  // Which applications share a link

  /** One group, or none for both, and one description. */
  predicate SameLabel(u1: UpdatePdu, u2: UpdatePdu) {
    && (u1.appGroup.length > 0 <==> u2.appGroup.length > 0)
    && (u1.appGroup.length > 0 ==> Text(u1.appGroup) == Text(u2.appGroup))
    && Text(u1.desc) == Text(u2.desc)
  }

  /**
   * The link bears the description, not the id: two applications of one group and description share it. Deleting the
   * first of them deletes the link of the second, whose entry stays.
   */
  lemma SharedLink(c: Client, u1: UpdatePdu, icon1: Option<IconPdu>, u2: UpdatePdu, icon2: Option<IconPdu>,
      d: DeletePdu)
    requires Valid(c) && !c.closed && Reliable(c.disk) && OnUpdate(c, u1, icon1).1.Accepted?
    requires OnUpdate(c, u1, icon1).0.db.Some? && OnUpdate(OnUpdate(c, u1, icon1).0, u2, icon2).1.Accepted?
    requires SameLabel(u1, u2) && !TakenForOne(u1.appGroup, u1.appId, u2.appGroup, u2.appId)
    requires SameApp(u1.appGroup, u1.appId, d.appGroup, d.appId)
    ensures OnUpdate(OnUpdate(c, u1, icon1).0, u2, icon2).0.db.Some?
    ensures var (c1, r1) := OnUpdate(c, u1, icon1);
            var (c2, r2) := OnUpdate(c1, u2, icon2);
            var (c3, r3) := OnDelete(c2, d);
            && r1.link == r2.link && r3.Deleted? && r3.link == r2.link && r2.link !in c3.disk.files
            && c3.db.Some? && Find(c3.db.value, Key(u2.appGroup, u2.appId)).Some?
            && Find(c3.db.value, Key(u2.appGroup, u2.appId)).value.link == r2.link
  {
    hide Has, WellFormed, Sorted, DbOk, Ids, Insert, Find, OnUpdate, OnDelete, Key, Fits, TakenForOne, SameApp, Text;
    hide CStr, CommandLine, PathsFit, AsMap, Candidates, LinkPath, IconPath, ExeArgs, NamesClean;
    var (c1, r1) := OnUpdate(c, u1, icon1);
    var (c2, r2) := OnUpdate(c1, u2, icon2);
    TwoAccepted(c, u1, icon1, u2, icon2);
    OnlyOneOf(u1.appGroup, u1.appId, u2.appGroup, u2.appId, d.appGroup, d.appId);
    OtherAppsKept(c1, u2, icon2, u1.appGroup, u1.appId);
    DeleteEffect(c2, d);
    DeleteKeepsOtherApps(c2, d, u2.appGroup, u2.appId);
  }

  lemma OnlyOneOf(g1: WireString, i1: WireString, g2: WireString, i2: WireString, g: WireString, i: WireString)
    requires SameApp(g1, i1, g, i) && !TakenForOne(g1, i1, g2, i2)
    ensures Key(g1, i1) == Key(g, i) && !TakenForOne(g, i, g2, i2) && !TakenForOne(g2, i2, g1, i1)
  {
    hide Key, TakenForOne, SameApp;
    KeysShareExactly(g1, i1, g, i);
    KeysShareExactly(g1, i1, g2, i2);
    KeysShareExactly(g, i, g2, i2);
    KeysShareExactly(g2, i2, g1, i1);
    assert TakenForOne(g1, i1, g, i) by {
      SameIsTaken(g1, i1, g, i);
    }
  }

  lemma SameIsTaken(g1: WireString, i1: WireString, g2: WireString, i2: WireString)
    requires SameApp(g1, i1, g2, i2)
    ensures TakenForOne(g1, i1, g2, i2)
  {
    hide SameApp, Shifted;
  }

  /** Two accepted updates of one label: their links are one, and each has its entry. */
  lemma TwoAccepted(c: Client, u1: UpdatePdu, icon1: Option<IconPdu>, u2: UpdatePdu, icon2: Option<IconPdu>)
    requires Valid(c) && !c.closed && OnUpdate(c, u1, icon1).1.Accepted? && SameLabel(u1, u2)
    requires OnUpdate(c, u1, icon1).0.db.Some? && OnUpdate(OnUpdate(c, u1, icon1).0, u2, icon2).1.Accepted?
    ensures var (c1, r1) := OnUpdate(c, u1, icon1);
            var (c2, r2) := OnUpdate(c1, u2, icon2);
            && Valid(c1) && !c1.closed && Valid(c2) && !c2.closed && c2.db.Some?
            && (Reliable(c.disk) ==> Reliable(c2.disk)) && r1.link == r2.link
            && Fits(Key(u1.appGroup, u1.appId))
            && Find(c1.db.value, Key(u1.appGroup, u1.appId)).Some?
            && Find(c1.db.value, Key(u1.appGroup, u1.appId)).value.link == r1.link
            && Find(c2.db.value, Key(u2.appGroup, u2.appId)).Some?
            && Find(c2.db.value, Key(u2.appGroup, u2.appId)).value.link == r2.link
  {
    hide Has, WellFormed, Sorted, DbOk, Ids, Insert, Find, OnUpdate, Key, Fits, Text, CStr, CommandLine, Candidates;
    hide LinkPath, IconPath, ExeArgs, NamesClean, Lost, Reliable;
    var (c1, r1) := OnUpdate(c, u1, icon1);
    AcceptedEntry(c, u1, icon1);
    AcceptedMeans(c, u1, icon1);
    UpdateEffect(c, u1, icon1);
    AcceptedEntry(c1, u2, icon2);
    AcceptedMeans(c1, u2, icon2);
    UpdateEffect(c1, u2, icon2);
  }

  // Associations

  /**
   * An association for the application of an accepted update succeeds if and only if the server is of version 4 or
   * later, the full window id is not 0, and the program's path and its command line fit one buffer together.
   */
  lemma AssociateKnown(host: Host, c: Client, u: UpdatePdu, icon: Option<IconPdu>, a: AssociatePdu)
    requires Valid(c) && !c.closed && c.handshake && OnUpdate(c, u, icon).1.Accepted? && |c.exePath| < 260
    requires SameApp(u.appGroup, u.appId, a.appGroup, a.appId)
    ensures var c1 := OnUpdate(c, u, icon).0;
            && c1.db.Some?
            && var (c2, ok) := Deliver(host, c1, AssociateMsg(a));
            && c2 == c1
            && (ok <==> c.version >= 4 && !(c.guid == 0 && a.windowId == 0)
                        && |c.exePath| + 1 + |CommandLine(CStr(c.provider), u.workingDir, Text(u.execPath))| < 260)
  {
    hide Has, WellFormed, DbOk, Sorted, Ids, Insert, Find, OnUpdate, Text, CStr, ExeArgs, CommandLine, LinkPath;
    hide IconPath;
    hide Candidates, Lost;
    AcceptedEntry(c, u, icon);
    UpdateEffect(c, u, icon);
    KeyIs(u.appGroup, u.appId);
    KeyIs(a.appGroup, a.appId);
  }

  /** For an unknown application it is the server's own command line that has to fit, if one came. */
  lemma AssociateUnknown(host: Host, c: Client, a: AssociatePdu)
    requires c.db.Some? && c.handshake && Find(c.db.value, Key(a.appGroup, a.appId)).None?
    ensures var (c', ok) := Deliver(host, c, AssociateMsg(a));
            var words := CommandLine(CStr(c.provider), EMPTY, Text(a.execPath));
            && c' == c
            && (ok <==> c.version >= 4 && !(c.guid == 0 && a.windowId == 0)
                        && |Text(a.appId)| + (if a.appGroup.length > 0 then |Text(a.appGroup)| + 1 else 0) < 260
                        && (Text(a.execPath) == [] || |c.exePath| + 1 + |words| < 260))
  {
    hide Text, CStr, ExeArgs, CommandLine, Find;
    CommandLineIs(CStr(c.provider), EMPTY, Text(a.execPath));
    KeyIs(a.appGroup, a.appId);
  }

  // What ends the receive loop

  /**
   * A message is reported as failed, which ends the receive loop, exactly when its handler could do nothing with it:
   * a delete whose key is unknown, an update that is not accepted, as any with an unclean name is.
   */
  lemma FailuresReported(host: Host, c: Client, u: UpdatePdu, icon: Option<IconPdu>, d: DeletePdu)
    requires Valid(c) && !c.closed && c.handshake
    ensures Deliver(host, c, UpdateMsg(u, icon)).1 ==> NamesClean(u)
    ensures !Deliver(host, c, UpdateMsg(u, icon)).1
            ==> Deliver(host, c, UpdateMsg(u, icon)).0.disk.files == c.disk.files
                && Deliver(host, c, UpdateMsg(u, icon)).0.db == c.db
    ensures Deliver(host, c, DeleteMsg(d)).1
            <==> Fits(Key(d.appGroup, d.appId)) && Find(c.db.value, Key(d.appGroup, d.appId)).Some?
    ensures !Deliver(host, c, DeleteMsg(d)).1 ==> Deliver(host, c, DeleteMsg(d)).0 == c
    ensures Deliver(host, c, ProviderMsg) == (c, true)
  {
    hide Has, WellFormed, Sorted, DbOk, Ids, Insert, Find, OnUpdate, OnDelete, Key, Fits, Text, NamesClean, AsMap, Lost;
    hide LinkPath, IconPath, ExeArgs, CStr, Candidates, FileName, CommandLine;
    UpdateEffect(c, u, icon);
    DeleteEffect(c, d);
    assert OnDelete(c, d).1.Deleted? || OnDelete(c, d).1 == NotFound;
    if OnUpdate(c, u, icon).1.Accepted? {
      AcceptedMeans(c, u, icon);
    }
  }
}
