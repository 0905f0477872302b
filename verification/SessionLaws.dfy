/** What holds over every run of the client, whatever messages come and whichever file operations fail. */
module SessionLaws {
  import opened Bytes
  import opened Protocol
  import opened ClientRead
  import opened Paths
  import opened FileEntries
  import opened FileSys
  import opened WalkLaws
  import opened Sweeping
  import opened Client
  import opened ClientLaws
  import ServerLoop

  /** A message, capabilities that could not be read past their version, or the channel closing. */
  datatype Event = Message(msg: Msg) | BadCaps(version: u16) | Closing

  function Step(host: Host, c: Client, e: Event): Client {
    if c.closed || c.db.None? then c
    else
      match e
      case Message(msg) => Deliver(host, c, msg).0
      case BadCaps(version) => c.(version := version)
      case Closing => OnClose(c)
  }

  function Run(host: Host, c: Client, es: seq<Event>): Client
    decreases |es|
  {
    if es == [] then c else Run(host, Step(host, c, es[0]), es[1..])
  }

  // What single messages come to

  /** Files that were there before and are not any more. */
  function Lost(c: Client, c': Client): set<Path> {
    c.disk.files.Keys - c'.disk.files.Keys
  }

  ghost predicate UpdateCame(c: Client, u: UpdatePdu, icon: Option<IconPdu>, c': Client, r: UpdateResult)
    requires c.db.Some?
  {
    var s := Started(c, u).sync;
    && Valid(c') && SameSettings(c, c') && c'.db.Some?
    && (r.Rejected? ==> c'.disk.files == c.disk.files && c'.db == c.db && c'.sync == s)
    && (r.Accepted? ==>
          && r.link == LinkPath(c, u) && r.icon == IconPath(c, u, icon.Some?)
          && exists e: FileEntry :: e.id == Key(u.appGroup, u.appId) && e.link == r.link && e.icon == r.icon
               && e.exe == c.exePath && e.args == ExeArgs(CStr(c.provider), u.workingDir, Text(u.execPath))
               && c'.db.value == Insert(c.db.value, e) && Find(c'.db.value, e.id) == Some(e))
    && (c'.sync.Some? ==> s.Some? && Ids(c'.sync.value) == Ids(s.value) - Unmarked(u, r))
    && (s.Some? && c'.sync.None? ==> r.Accepted? && Has(u.flags, HINT_SYNC_END))
    && (r.Accepted? && (Has(u.flags, HINT_SYNC) || Has(u.flags, HINT_SYNC_END)) ==> s.Some?)
    && Lost(c, c') <= Swept(u, r, s)
    && (Reliable(c.disk) ==> Reliable(c'.disk) && Lost(c, c') == c.disk.files.Keys * Swept(u, r, s))
    && KeptBut(c, c', Touched(r, icon))
  }

  /** The files an accepted update may write. */
  function Touched(r: UpdateResult, icon: Option<IconPdu>): set<Path> {
    if r.Rejected? then {} else if icon.Some? then {r.link, r.icon} else {r.link}
  }

  /** Every other file that is there was there before, with the same content. */
  predicate KeptBut(c: Client, c': Client, touched: set<Path>) {
    forall p | p in c'.disk.files && p !in touched :: p in c.disk.files && c'.disk.files[p] == c.disk.files[p]
  }

  /** What an update that ends a session sweeps: what is left on the list it found. */
  function Swept(u: UpdatePdu, r: UpdateResult, s: Option<Entries>): set<Path> {
    if r.Accepted? && Has(u.flags, HINT_SYNC_END) && s.Some? then Ids(s.value) - Unmarked(u, r) else {}
  }

  lemma UpdateEffect(c: Client, u: UpdatePdu, icon: Option<IconPdu>)
    requires Valid(c) && !c.closed
    ensures var (c', r) := OnUpdate(c, u, icon); UpdateCame(c, u, icon, c', r)
  {
    hide Has, WellFormed, Sorted, Ids, DbOk, Insert, Find, Sweep, WriteFiles, Admit, Complete, LinkPath, IconPath;
    hide Key, PathsFit;
    hide SyncStart, Reliable;
    AdmitEffect(c, u, icon.Some?);
    StartRecords(c, u);
    var (c1, plan) := Admit(c, u, icon.Some?);
    if plan.Some? {
      CompleteEffect(c1, u, icon, plan.value);
      CompleteLoses(c1, u, icon, plan.value);
    }
  }

  /** Writing loses nothing; the sweep at a session's end loses what is listed, all of it when nothing fails. */
  lemma CompleteLoses(c: Client, u: UpdatePdu, icon: Option<IconPdu>, plan: Plan)
    requires Valid(c) && (Has(u.flags, HINT_SYNC) ==> c.sync.Some?)
    ensures var (c', r) := Complete(c, u, icon, plan);
            && Lost(c, c') <= Swept(u, r, c.sync)
            && (Reliable(c.disk) ==> Reliable(c'.disk) && Lost(c, c') == c.disk.files.Keys * Swept(u, r, c.sync))
            && KeptBut(c, c', Touched(r, icon))
  {
    hide Has, WellFormed, Sorted, Ids, DbOk, Sweep, WriteFiles, Complete, Unmarked, Reliable;
    CompleteEffect(c, u, icon, plan);
    WriteFilesEffect(c.disk, plan, icon);
    var (c', r) := Complete(c, u, icon, plan);
    var d := WriteFiles(c.disk, plan, icon).0;
    if Has(u.flags, HINT_SYNC_END) && c.sync.Some? {
      var marked :| Ids(marked) == Ids(c.sync.value) - Unmarked(u, r) && c'.disk == Sweep(d, marked);
      SweepSafe(d, marked);
      if Reliable(c.disk) {
        SweepExact(d, marked);
      }
    }
  }

  lemma DeleteFileEffect(d: Disk, p: Path)
    requires WellFormed(d)
    ensures var d' := DeleteIfNamed(d, p);
            && WellFormed(d') && d'.dirs == d.dirs && (Reliable(d) ==> Reliable(d'))
            && (d'.files == d.files || d'.files == d.files - {p})
            && (Reliable(d) ==> d'.files == d.files - {p})
  {
    hide WellFormed;
    NoNamelessFile(d);
    DeleteKeepsWellFormed(d, p);
  }

  lemma NoNamelessFile(d: Disk)
    requires WellFormed(d)
    ensures [] !in d.files
  {
  }

  /** A delete removes the key's entry and at most the two files it names; it succeeds exactly when the key is there. */
  lemma DeleteEffect(c: Client, d: DeletePdu)
    requires Valid(c) && !c.closed
    ensures var (c', r) := OnDelete(c, d);
            var key := Key(d.appGroup, d.appId);
            && Valid(c') && SameSettings(c, c') && c'.sync == c.sync && c'.db.Some?
            && (r.Deleted? <==> Fits(key) && Find(c.db.value, key).Some?)
            && (r.NotFound? ==> c' == c)
            && (r.Deleted? ==>
                  var e := Find(c.db.value, key).value;
                  && r == Deleted(key, e.link, e.icon)
                  && AsMap(c'.db.value) == AsMap(c.db.value) - {key}
                  && Lost(c, c') <= {e.link, e.icon}
                  && (forall p | p in c'.disk.files :: p in c.disk.files && c'.disk.files[p] == c.disk.files[p])
                  && (Reliable(c.disk) ==> Lost(c, c') == c.disk.files.Keys * {e.link, e.icon}))
            && (Reliable(c.disk) ==> Reliable(c'.disk))
  {
    hide WellFormed, Sorted, AsMap, Fits, Key, Erase, DeleteIfNamed;
    var key := Key(d.appGroup, d.appId);
    FoundIsMember(c.db.value, key);
    var found := Find(c.db.value, key);
    if Fits(key) && found.Some? {
      var e := found.value;
      EraseRefines(c.db.value, key);
      EraseSorted(c.db.value, key);
      DeleteFileEffect(c.disk, e.link);
      DeleteFileEffect(DeleteIfNamed(c.disk, e.link), e.icon);
    }
  }

  lemma FoundIsMember(db: Entries, key: WStr)
    requires Sorted(db)
    ensures Find(db, key).Some? ==> Find(db, key).value in db && Find(db, key).value.id == key
  {
    FindRefines(db, key);
    AsMapIs(db);
    FindsKey(db, key);
  }

  /** Capabilities touch directories and settings only; the handshake is made exactly by the ones that are answered. */
  ghost predicate CapsCame(host: Host, c: Client, p: CapsPdu, c': Client, ok: bool) {
    && c'.db == c.db && c'.sync == c.sync && c'.closed == c.closed && OnlyMoreDirs(c.disk, c'.disk)
    && (ok ==> p.version >= 4 && c'.handshake
               && c'.sent == c.sent + ServerLoop.Reply(ServerLoop.ClientCaps(CHANNEL_VERSION, host.language)))
    && (!ok ==> c'.sent == c.sent && (c'.handshake ==> c.handshake))
  }

  lemma CapsEffect(host: Host, c: Client, p: CapsPdu)
    requires Valid(c)
    ensures var (c', ok) := OnCaps(host, c, p); CapsCame(host, c, p, c', ok) && Valid(c')
  {
    hide WellFormed, DbOk, Sorted, Overlay, ProviderOk, Text, CStr, ServerLoop.Reply, Locate;
    var c0 := c.(version := p.version, provider := Overlay(c.provider, p.name));
    if ProviderOk(CStr(c0.provider)) && (p.version >= 4 ==> Text(p.uniqueId) in host.guids) {
      var c1 := if p.version >= 4 then c0.(guid := host.guids[Text(p.uniqueId)]) else c0;
      LocateAdds(host, c1);
      var d := Locate(host, c1).0.disk;
      SameTree(d, Asked(d));
    }
  }

  lemma LocateAdds(host: Host, c: Client)
    requires WellFormed(c.disk)
    ensures var c' := Locate(host, c).0;
            OnlyMoreDirs(c.disk, c'.disk)
                && c' == c.(disk := c'.disk, menuPath := c'.menuPath, iconPath := c'.iconPath, exePath := c'.exePath)
  {
    hide WellFormed, CStr, BuildMenuPath, BuildIconPath;
    var name := CStr(c.provider);
    BuildMenuAdds(host, c.disk, c.menuPath, name);
    BuildIconAdds(host, BuildMenuPath(host, c.disk, c.menuPath, name).0, c.iconPath, name);
  }

  lemma BuildMenuAdds(host: Host, d: Disk, previous: Path, provider: WStr)
    requires WellFormed(d)
    ensures OnlyMoreDirs(d, BuildMenuPath(host, d, previous, provider).0)
  {
    hide WellFormed, EnsureDir;
    if host.startMenu.Some? {
      EnsureDirAdds(d, host.startMenu.value + PROGRAMS + provider);
    }
  }

  lemma BuildIconAdds(host: Host, d: Disk, previous: Path, provider: WStr)
    requires WellFormed(d)
    ensures OnlyMoreDirs(d, BuildIconPath(host, d, previous, provider).0)
  {
    hide WellFormed, EnsureDir;
    var root := host.tempDir + PLUGIN;
    EnsureDirAdds(d, root);
    EnsureDirAdds(EnsureDir(d, root).0, Join(root, provider));
  }

  // Every step

  /** An update that reaches its handler, with what it was. */
  predicate Updates(c: Client, e: Event) {
    !c.closed && c.handshake && e.Message? && e.msg.UpdateMsg?
  }

  predicate Deletes(c: Client, e: Event) {
    !c.closed && c.handshake && e.Message? && e.msg.DeleteMsg?
  }

  /** Any other event touches neither database nor file, except that closing drops the databases. */
  lemma OtherEffect(host: Host, c: Client, e: Event)
    requires Valid(c) && !Updates(c, e) && !Deletes(c, e)
    ensures var c' := Step(host, c, e);
            && Valid(c') && c'.disk.files == c.disk.files && c'.sync == (if c'.closed then None else c.sync)
            && (!c'.closed ==> c'.db == c.db) && (c'.closed <==> c.closed || e.Closing?)
            && (Reliable(c.disk) ==> Reliable(c'.disk))
  {
    hide WellFormed, DbOk, Sorted, OnCaps, OnUpdate, OnDelete, Associates;
    if !c.closed && e.Message? && e.msg.CapsMsg? {
      CapsEffect(host, c, e.msg.caps);
    }
  }

  lemma StepKeepsValid(host: Host, c: Client, e: Event)
    requires Valid(c)
    ensures Valid(Step(host, c, e))
  {
    hide Valid, OnCaps, OnUpdate, OnDelete, Associates;
    ClosedIsDbless(c);
    if Updates(c, e) {
      UpdateEffect(c, e.msg.update, e.msg.icon);
    } else if Deletes(c, e) {
      DeleteEffect(c, e.msg.delete);
    } else {
      OtherEffect(host, c, e);
    }
  }

  lemma ClosedIsDbless(c: Client)
    requires Valid(c)
    ensures c.closed <==> c.db.None?
  {
  }

  lemma {:induction false} RunKeepsValid(host: Host, c: Client, es: seq<Event>)
    requires Valid(c)
    ensures Valid(Run(host, c, es))
    decreases |es|
  {
    hide Valid, Step;
    if es != [] {
      StepKeepsValid(host, c, es[0]);
      RunKeepsValid(host, Step(host, c, es[0]), es[1..]);
    }
  }

  lemma {:induction false} RunConcat(host: Host, c: Client, es: seq<Event>, fs: seq<Event>)
    ensures Run(host, c, es + fs) == Run(host, Run(host, c, es), fs)
    decreases |es|
  {
    hide Step;
    if es == [] {
      assert es + fs == fs;
    } else {
      assert (es + fs)[1..] == es[1..] + fs;
      RunConcat(host, Step(host, c, es[0]), es[1..], fs);
    }
  }

  /**
   * The ledger of a session: the links and icons under the menu when it started, those of them that were recorded,
   * and what accepted sync updates have taken off since.
   */
  datatype Ledger = Ledger(found: set<Path>, recorded: set<Path>, unmarked: set<Path>)

  function Note(c: Client, e: Event, l: Ledger): Ledger
    requires Updates(c, e) ==> c.db.Some?
  {
    if !Updates(c, e) then l
    else
      var u := e.msg.update;
      var opens := Has(u.flags, HINT_SYNC_START) && c.sync.None?;
      var l0 := if opens then Ledger(Candidates(c), Ids(SyncStart(c).0.sync.value), {}) else l;
      l0.(unmarked := l0.unmarked + Unmarked(u, OnUpdate(c, u, e.msg.icon).1))
  }

  /** A client and the ledger of its session, if one is open. */
  datatype Books = Books(c: Client, l: Ledger)

  ghost predicate Balanced(b: Books) {
    && Valid(b.c) && b.l.recorded <= b.l.found
    && (b.c.sync.Some? ==> Ids(b.c.sync.value) == b.l.recorded - b.l.unmarked)
  }

  function Turn(host: Host, b: Books, e: Event): Books
    requires Updates(b.c, e) ==> b.c.db.Some?
  {
    Books(Step(host, b.c, e), Note(b.c, e, b.l))
  }

  /** What one event may cost: the files of a deleted application, or what a session's end still had on its list. */
  function MayLose(host: Host, b: Books, e: Event): set<Path>
    requires Updates(b.c, e) || Deletes(b.c, e) ==> b.c.db.Some?
  {
    if Updates(b.c, e) then
      var r := OnUpdate(b.c, e.msg.update, e.msg.icon).1;
      if r.Accepted? && Has(e.msg.update.flags, HINT_SYNC_END)
      then var l := Note(b.c, e, b.l); l.recorded - l.unmarked else {}
    else if Deletes(b.c, e) then
      var r := OnDelete(b.c, e.msg.delete).1;
      if r.Deleted? then {r.link, r.icon} else {}
    else {}
  }

  /** What one event may write. */
  function MayWrite(b: Books, e: Event): set<Path>
    requires Updates(b.c, e) ==> b.c.db.Some?
  {
    if Updates(b.c, e) then Touched(OnUpdate(b.c, e.msg.update, e.msg.icon).1, e.msg.icon) else {}
  }

  /**
   * The balance is kept by every event, and with it sweep safety: no event loses a file but those `MayLose`
   * names, in particular a session ended by closing loses none, and one ended by an update none that was
   * written for an accepted sync update. On a disk that fails nothing it loses exactly those of them that are there.
   */
  lemma TurnKeepsBalance(host: Host, b: Books, e: Event)
    requires Balanced(b)
    ensures Balanced(Turn(host, b, e)) && Lost(b.c, Step(host, b.c, e)) <= MayLose(host, b, e)
    ensures Reliable(b.c.disk) ==> Reliable(Step(host, b.c, e).disk)
                                   && Lost(b.c, Step(host, b.c, e)) == b.c.disk.files.Keys * MayLose(host, b, e)
    ensures KeptBut(b.c, Step(host, b.c, e), MayWrite(b, e))
  {
    hide Has, Ids, WellFormed, DbOk, Sorted, OnCaps, OnUpdate, OnDelete, Associates, Insert, Find, AsMap, Fits, Key;
    hide LinkPath, IconPath, Candidates, Reliable;
    if Updates(b.c, e) {
      StartRecords(b.c, e.msg.update);
      UpdateEffect(b.c, e.msg.update, e.msg.icon);
    } else if Deletes(b.c, e) {
      DeleteEffect(b.c, e.msg.delete);
    } else {
      OtherEffect(host, b.c, e);
    }
  }

  function Kept(host: Host, b: Books, es: seq<Event>): Books
    requires Valid(b.c)
    decreases |es|
  {
    if es == [] then b
    else
      StepKeepsValid(host, b.c, es[0]);
      Kept(host, Turn(host, b, es[0]), es[1..])
  }

  lemma FreshValid(disk: Disk)
    requires WellFormed(disk)
    ensures Valid(Fresh(disk))
  {
  }

  lemma {:induction false} KeptBalanced(host: Host, b: Books, es: seq<Event>)
    requires Balanced(b)
    ensures Balanced(Kept(host, b, es)) && Kept(host, b, es).c == Run(host, b.c, es)
    decreases |es|
  {
    hide Note, Step, Ids, MayLose, Lost, WellFormed, DbOk, Sorted;
    if es != [] {
      ClosedIsDbless(b.c);
      TurnKeepsBalance(host, b, es[0]);
      KeptBalanced(host, Turn(host, b, es[0]), es[1..]);
    }
  }

  const NO_SESSION := Ledger({}, {}, {})

  /**
   * Over every run from a fresh client: the list of an open session is exactly what was recorded at its start minus
   * what accepted sync updates unmarked since, and whatever comes next loses no file beyond what `MayLose` names;
   * from where on nothing fails, it loses all of those. It changes the content of no file but those an accepted update
   * writes.
   */
  lemma SweepSafety(host: Host, disk: Disk, es: seq<Event>, e: Event)
    requires WellFormed(disk)
    ensures Valid(Fresh(disk))
    ensures var b := Kept(host, Books(Fresh(disk), NO_SESSION), es);
            && b.c == Run(host, Fresh(disk), es)
            && (b.c.sync.Some? ==> Ids(b.c.sync.value) == b.l.recorded - b.l.unmarked) && b.l.recorded <= b.l.found
            && (b.c.closed <==> b.c.db.None?)
            && Lost(b.c, Step(host, b.c, e)) <= MayLose(host, b, e)
            && (Reliable(b.c.disk) ==> Lost(b.c, Step(host, b.c, e)) == b.c.disk.files.Keys * MayLose(host, b, e))
            && KeptBut(b.c, Step(host, b.c, e), MayWrite(b, e))
  {
    hide Step, MayLose, Lost, Run, MayWrite, KeptBut;
    FreshValid(disk);
    var b := Books(Fresh(disk), NO_SESSION);
    KeptBalanced(host, b, es);
    TurnKeepsBalance(host, Kept(host, b, es), e);
  }
}
