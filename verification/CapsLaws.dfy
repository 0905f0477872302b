/** What capabilities have to be to be answered, and where the client puts things once they are. */
module CapsLaws {
  import opened ClientRead
  import opened Paths
  import opened FileSys
  import opened Client
  import opened AcceptedLaws
  import ServerLoop

  /** The provider's name as the client sees it once these capabilities have stored it. */
  function NameSeen(c: Client, p: CapsPdu): WStr {
    CStr(Overlay(c.provider, p.name))
  }

  lemma ProviderOkExactly(name: WStr)
    ensures ProviderOk(name) <==> Clean(name) && 32 !in name
  {
    hide Contains, Clean;
    CleanExactly(name);
    ContainsUnit(name, SPACE);
  }

  /** Menu, icons and program, in words. */
  function MenuFor(host: Host, name: WStr): Path
    requires host.startMenu.Some?
  {
    host.startMenu.value + Wide("\\Programs\\") + name
  }

  function IconRoot(host: Host): Path {
    host.tempDir + Wide("WSLDVCPlugin")
  }

  function IconsFor(host: Host, name: WStr): Path {
    IconRoot(host) + Wide("\\") + name
  }

  function ProgramFor(host: Host): Path
    requires host.installLocation.Some?
  {
    host.installLocation.value + Wide("\\wslg.exe")
  }

  /** The machine has the places, and they and the words fit. */
  predicate HostReady(host: Host, name: WStr) {
    && host.startMenu.Some? && |MenuFor(host, name)| < 260
    && host.tempDir != [] && |IconsFor(host, name)| < 260
    && host.installLocation.Some? && |ProgramFor(host)| < 260 && host.workingDirOk
  }

  lemma WordsAre(host: Host, name: WStr)
    ensures host.startMenu.Some? ==> host.startMenu.value + PROGRAMS + name == MenuFor(host, name)
    ensures host.tempDir + PLUGIN == IconRoot(host) && Join(IconRoot(host), name) == IconsFor(host, name)
    ensures host.installLocation.Some? ==> host.installLocation.value + WSLG_EXE == ProgramFor(host)
    ensures |IconsFor(host, name)| == |host.tempDir| + |PLUGIN| + 1 + |name|
  {
    Spelled();
    assert Wide("\\") == [SEP];
  }

  /** The settings after capabilities that were answered. */
  ghost predicate Settled(host: Host, c: Client, p: CapsPdu, c': Client) {
    var name := NameSeen(c, p);
    && Clean(name) && 32 !in name && HostReady(host, name)
    && p.version >= 4 && Text(p.uniqueId) in host.guids
    && c'.version == p.version && c'.guid == host.guids[Text(p.uniqueId)] && CStr(c'.provider) == name
    && c'.menuPath == MenuFor(host, name) && c'.iconPath == IconsFor(host, name) && c'.exePath == ProgramFor(host)
    && c'.handshake && c'.sent == c.sent + ServerLoop.Reply(ServerLoop.ClientCaps(4, host.language))
  }

  /**
   * Whatever can fail did not: capabilities that are answered have a clean name and a known id, and settle
   * everything.
   */
  lemma AnsweredSettles(host: Host, c: Client, p: CapsPdu)
    requires OnCaps(host, c, p).1
    ensures Settled(host, c, p, OnCaps(host, c, p).0)
  {
    hide Clean, Overlay, CStr, ProviderOk, Text, MenuFor, IconRoot, IconsFor, ProgramFor, EnsureDir, ServerLoop.Reply;
    hide Locate;
    var name := NameSeen(c, p);
    ProviderOkExactly(name);
    var c0 := c.(version := p.version, provider := Overlay(c.provider, p.name));
    LocatedVersion(host, c0);
    LocatedMeans(host, c0.(guid := host.guids[Text(p.uniqueId)]));
  }

  lemma LocatedVersion(host: Host, c: Client)
    ensures Locate(host, c).0.version == c.version
  {
    hide CStr, BuildMenuPath, BuildIconPath;
  }

  lemma LocatedMeans(host: Host, c: Client)
    requires Locate(host, c).1
    ensures var (c', name) := (Locate(host, c).0, CStr(c.provider));
            && HostReady(host, name)
            && c'.menuPath == MenuFor(host, name) && c'.iconPath == IconsFor(host, name)
            && c'.exePath == ProgramFor(host)
            && c' == c.(disk := c'.disk, menuPath := c'.menuPath, iconPath := c'.iconPath, exePath := c'.exePath)
  {
    hide CStr, EnsureDir, MenuFor, IconRoot, IconsFor, ProgramFor;
    WordsAre(host, CStr(c.provider));
  }

  /**
   * On a disk that fails nothing and where the directories can be made, capabilities are answered if and only if the
   * name is clean and without spaces, the version is 4 or later, the id is a GUID, and the machine is ready.
   */
  lemma AnsweredExactly(host: Host, c: Client, p: CapsPdu)
    requires Reliable(c.disk)
    requires HostReady(host, NameSeen(c, p)) ==> CanPlace(host, c.disk, NameSeen(c, p))
    ensures OnCaps(host, c, p).1
            <==> && Clean(NameSeen(c, p)) && 32 !in NameSeen(c, p)
                 && p.version >= 4 && Text(p.uniqueId) in host.guids && HostReady(host, NameSeen(c, p))
  {
    hide Clean, Overlay, CStr, ProviderOk, Text, HostReady, CanPlace, ServerLoop.Reply, Locate;
    var name := NameSeen(c, p);
    ProviderOkExactly(name);
    if OnCaps(host, c, p).1 {
      AnsweredSettles(host, c, p);
    }
    if p.version >= 4 && Text(p.uniqueId) in host.guids && HostReady(host, name) {
      var c1 := c.(version := p.version, provider := Overlay(c.provider, p.name), guid := host.guids[Text(p.uniqueId)]);
      LocatedWhenReady(host, c1);
    }
  }

  /** The menu directory, the icons' root and the icons' directory are there or can be made, one after the other. */
  predicate CanPlace(host: Host, d: Disk, name: WStr)
    requires host.startMenu.Some?
  {
    && Creatable(d, MenuFor(host, name))
    && Creatable(d.(dirs := d.dirs + {MenuFor(host, name)}), IconRoot(host))
    && Creatable(d.(dirs := d.dirs + {MenuFor(host, name)} + {IconRoot(host)}), IconsFor(host, name))
  }

  lemma LocatedWhenReady(host: Host, c: Client)
    requires Reliable(c.disk) && HostReady(host, CStr(c.provider)) && CanPlace(host, c.disk, CStr(c.provider))
    ensures var (c', ok) := Locate(host, c); ok && Reliable(c'.disk) && c'.version == c.version
  {
    hide CStr, EnsureDir, MenuFor, IconRoot, IconsFor, ProgramFor, Creatable;
    var (d, name) := (c.disk, CStr(c.provider));
    WordsAre(host, name);
    EnsureMakes(d, MenuFor(host, name));
    var d1 := d.(dirs := d.dirs + {MenuFor(host, name)});
    EnsureMakes(d1, IconRoot(host));
    var d2 := d1.(dirs := d1.dirs + {IconRoot(host)});
    EnsureMakes(d2, IconsFor(host, name));
  }

  /** Capabilities that get as far as the answer: everything before it is in order. */
  ghost predicate ReachesAnswer(host: Host, c: Client, p: CapsPdu) {
    var name := NameSeen(c, p);
    && Clean(name) && 32 !in name && (p.version >= 4 ==> Text(p.uniqueId) in host.guids)
    && HostReady(host, name) && CanPlace(host, c.disk, name)
  }

  /**
   * The handshake is decided anew by all capabilities that get as far as the answer: a server older than version 4
   * loses the one it had. Those refused for their name or id leave it, and everything else but version and name, alone.
   */
  lemma HandshakeDecided(host: Host, c: Client, p: CapsPdu)
    ensures var (c', ok) := OnCaps(host, c, p);
            var (name, stored) := (NameSeen(c, p), c.(version := p.version, provider := Overlay(c.provider, p.name)));
            && c'.version == p.version && c'.provider == stored.provider
            && (Reliable(c.disk) && ReachesAnswer(host, c, p) ==> c'.handshake == ok && (ok <==> p.version >= 4))
            && (!Clean(name) || 32 in name || (p.version >= 4 && Text(p.uniqueId) !in host.guids)
                ==> !ok && c' == stored)
  {
    hide Clean, Overlay, CStr, ProviderOk, Text, HostReady, CanPlace, ServerLoop.Reply, Locate;
    var name := NameSeen(c, p);
    ProviderOkExactly(name);
    var c0 := c.(version := p.version, provider := Overlay(c.provider, p.name));
    LocatedKeeps(host, c0);
    if p.version >= 4 && Text(p.uniqueId) in host.guids {
      LocatedKeeps(host, c0.(guid := host.guids[Text(p.uniqueId)]));
    }
    if Reliable(c.disk) && ReachesAnswer(host, c, p) {
      LocatedWhenReady(host, if p.version >= 4 then c0.(guid := host.guids[Text(p.uniqueId)]) else c0);
    }
  }

  lemma LocatedKeeps(host: Host, c: Client)
    ensures var c' := Locate(host, c).0;
            c'.version == c.version && c'.provider == c.provider && c'.handshake == c.handshake
  {
    hide CStr, BuildMenuPath, BuildIconPath;
  }

  /**
   * A reply the channel does not take ends the handshake there was: the file system did its part, the write did not.
   */
  lemma LostReplyEndsHandshake(host: Host, c: Client, p: CapsPdu)
    requires c.disk.tape == [true, true, true, false] && ReachesAnswer(host, c, p)
    ensures var (c', ok) := OnCaps(host, c, p); !ok && !c'.handshake && c'.sent == c.sent
  {
    hide Clean, Overlay, CStr, ProviderOk, Text, HostReady, CanPlace, ServerLoop.Reply, Locate;
    var name := NameSeen(c, p);
    ProviderOkExactly(name);
    var c0 := c.(version := p.version, provider := Overlay(c.provider, p.name));
    LocatedOnTape(host, if p.version >= 4 then c0.(guid := host.guids[Text(p.uniqueId)]) else c0);
  }

  lemma LocatedOnTape(host: Host, c: Client)
    requires c.disk.tape == [true, true, true, false]
    requires HostReady(host, CStr(c.provider)) && CanPlace(host, c.disk, CStr(c.provider))
    ensures var (c', ok) := Locate(host, c); ok && c'.disk.tape == [false] && c'.sent == c.sent
  {
    hide CStr, EnsureDir, MenuFor, IconRoot, IconsFor, ProgramFor, HasParent, Parent, Leaf;
    var (d, name) := (c.disk, CStr(c.provider));
    WordsAre(host, name);
    EnsureMakes(d, MenuFor(host, name));
    var d1 := Asked(d).(dirs := d.dirs + {MenuFor(host, name)});
    EnsureMakes(d1, IconRoot(host));
    var d2 := Asked(d1).(dirs := d1.dirs + {IconRoot(host)});
    EnsureMakes(d2, IconsFor(host, name));
    assert d.tape[1..] == [true, true, false] && d1.tape[1..] == [true, false] && d2.tape[1..] == [false];
  }

  /**
   * What the members hold when a path cannot be had: the menu path is empty when it is too long and formatted before
   * its directory is made; the icon path stops at the part that was reached; the program's path is empty when too long.
   */
  lemma PathsLeft(host: Host, c: Client)
    ensures var (c', name) := (Locate(host, c).0, CStr(c.provider));
            && c'.menuPath == (if host.startMenu.None? then c.menuPath
                               else if |MenuFor(host, name)| >= 260 then [] else MenuFor(host, name))
            && (MenuMade(host, c, name) && host.tempDir != [] ==>
                  c'.iconPath == if |IconsFor(host, name)| + 1 > 260 then host.tempDir
                                 else if !EnsureDir(MenuDisk(host, c, name), IconRoot(host)).1
                                 then IconRoot(host) + Wide("\\") else IconsFor(host, name))
            && (!MenuMade(host, c, name) || host.tempDir == [] ==>
                  c'.iconPath == c.iconPath && c'.exePath == c.exePath && !Locate(host, c).1)
            && (c'.exePath != c.exePath ==>
                  host.installLocation.Some?
                  && c'.exePath == if |ProgramFor(host)| < 260 then ProgramFor(host) else [])
  {
    hide CStr, EnsureDir, MenuFor, IconRoot, IconsFor, ProgramFor;
    WordsAre(host, CStr(c.provider));
    assert Wide("\\") == [SEP];
  }

  predicate MenuMade(host: Host, c: Client, name: WStr) {
    host.startMenu.Some? && |MenuFor(host, name)| < 260 && EnsureDir(c.disk, MenuFor(host, name)).1
  }

  function MenuDisk(host: Host, c: Client, name: WStr): Disk
    requires host.startMenu.Some?
  {
    EnsureDir(c.disk, MenuFor(host, name)).0
  }
}
