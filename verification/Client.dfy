/** The application-list client between two messages, and what each message does to it. */
module Client {
  import opened Bytes
  import opened Protocol
  import opened ClientRead
  import opened Paths
  import opened FileEntries
  import opened FileSys
  import opened TreeWalk
  import opened Sweeping
  import ServerLoop

  /**
   * What the host says whenever it is asked: known folders, the registry's install location, the
   * environment, which strings are GUIDs (with their first field), the language, the largest block it can allocate.
   */
  datatype Host = Host(startMenu: Option<Path>, tempDir: Path, installLocation: Option<WStr>, workingDirOk: bool,
                       guids: map<WStr, u32>, language: ServerLoop.Lang, allocLimit: nat)

  /** `sync` is there only during a sync session, `db` until the channel is closed. */
  datatype Client = Client(
    db: Option<Entries>, sync: Option<Entries>, handshake: bool, closed: bool,
    version: u16, provider: seq<byte>, guid: u32, menuPath: Path, iconPath: Path, exePath: Path,
    sent: seq<byte>, disk: Disk)

  const PROVIDER_SIZE := 520

  function Fresh(disk: Disk): Client {
    Client(Some([]), None, false, false, 0, seq(PROVIDER_SIZE, _ => 0), 0, [], [], [], [], disk)
  }

  // "\Programs\", "WSLDVCPlugin", "\wslg.exe", "-d ", " --cd "", "" -- ", "~"
  const PROGRAMS: WStr := [92, 80, 114, 111, 103, 114, 97, 109, 115, 92]
  const PLUGIN: WStr := [87, 83, 76, 68, 86, 67, 80, 108, 117, 103, 105, 110]
  const WSLG_EXE: WStr := [92, 119, 115, 108, 103, 46, 101, 120, 101]
  const ARG_D: WStr := [45, 100, 32]
  const ARG_CD: WStr := [32, 45, 45, 99, 100, 32, 34]
  const ARG_END: WStr := [34, 32, 45, 45, 32]
  const HOME: WStr := [126]

  function Text(w: WireString): WStr {
    CStr(w.content)
  }

  // Capabilities

  /** BuildMenuPath: the path is formatted into the member before the directory is made. */
  function BuildMenuPath(host: Host, d: Disk, previous: Path, provider: WStr): (Disk, Path, bool) {
    if host.startMenu.None? then (d, previous, false)
    else
      var path := host.startMenu.value + PROGRAMS + provider;
      if !Fits(path) then (d, [], false)
      else
        var (d', ok) := EnsureDir(d, path);
        (d', path, ok)
  }

  /** BuildIconPath: the plugin's directory under the temporary one, then the provider's in it. */
  function BuildIconPath(host: Host, d: Disk, previous: Path, provider: WStr): (Disk, Path, bool) {
    if host.tempDir == [] then (d, previous, false)
    else if |host.tempDir| + |PLUGIN| + 2 + |provider| > MAX_PATH then (d, host.tempDir, false)
    else
      var root := host.tempDir + PLUGIN;
      var (d1, ok1) := EnsureDir(d, root);
      if !ok1 then (d1, root + [SEP], false)
      else
        var path := Join(root, provider);
        var (d2, ok2) := EnsureDir(d1, path);
        (d2, path, ok2)
  }

  /** memcpy over the provider buffer: a shorter name leaves the rest of a longer one behind it. */
  function Overlay(buffer: seq<byte>, name: WireString): seq<byte> {
    var raw := name.content + if name.length % 2 == 1 then [0] else [];
    raw + if |raw| <= |buffer| then buffer[|raw|..] else []
  }

  predicate ProviderOk(provider: WStr) {
    !Contains(provider, DOTS) && !Contains(provider, [QUOTE]) && !Contains(provider, [SPACE])
  }

  /** Where things go: the menu and icon directories, made if need be, and the program that starts applications. */
  function Locate(host: Host, c: Client): (Client, bool) {
    var name := CStr(c.provider);
    var (d1, menu, ok1) := BuildMenuPath(host, c.disk, c.menuPath, name);
    var c1 := c.(disk := d1, menuPath := menu);
    if !ok1 then (c1, false)
    else
      var (d2, icon, ok2) := BuildIconPath(host, d1, c.iconPath, name);
      var c2 := c1.(disk := d2, iconPath := icon);
      if !ok2 || host.installLocation.None? then (c2, false)
      else
        var exe := host.installLocation.value + WSLG_EXE;
        if !Fits(exe) then (c2.(exePath := []), false) else (c2.(exePath := exe), host.workingDirOk)
  }

  /** OnCaps once the PDU is read. Members keep what was stored in them before a failing step. */
  function OnCaps(host: Host, c: Client, p: CapsPdu): (Client, bool) {
    var c0 := c.(version := p.version, provider := Overlay(c.provider, p.name));
    if !ProviderOk(CStr(c0.provider)) then (c0, false)
    else if p.version >= 4 && Text(p.uniqueId) !in host.guids then (c0, false)
    else
      var c1 := if p.version >= 4 then c0.(guid := host.guids[Text(p.uniqueId)]) else c0;
      var (c2, ok) := Locate(host, c1);
      if !ok then (c2, false) else FinishCaps(host, c2)
  }

  /** The reply, and with it the handshake: only a server of version 4 or later is answered. */
  function FinishCaps(host: Host, c: Client): (Client, bool) {
    if c.version < CHANNEL_VERSION then (c.(handshake := false), false)
    else if !Says(c.disk) then (c.(disk := Asked(c.disk), handshake := false), false)
    else
      var reply := ServerLoop.Reply(ServerLoop.ClientCaps(CHANNEL_VERSION, host.language));
      (c.(disk := Asked(c.disk), sent := c.sent + reply, handshake := true), true)
  }

  // Sync

  function SyncStart(c: Client): (Client, bool) {
    if c.sync.Some? then (c, false)
    else
      var (d, db) := Walk(c.disk, [], c.menuPath);
      (c.(disk := d, sync := Some(db)), true)
  }

  function SyncEnd(c: Client, cleanupFiles: bool): Client {
    match c.sync
    case None => c
    case Some(db) => c.(disk := if cleanupFiles then Sweep(c.disk, db) else c.disk, sync := None)
  }

  // Update

  /** The names an update may not carry. */
  predicate Screened(u: UpdatePdu) {
    && (u.appGroup.length > 0 ==> !Contains(Text(u.appGroup), DOTS) && !Contains(Text(u.appGroup), [QUOTE]))
    && !Contains(Text(u.appId), DOTS) && !Contains(Text(u.appId), [QUOTE])
    && !Contains(Text(u.desc), DOTS) && !Contains(Text(u.desc), [QUOTE])
    && !Contains(Text(u.workingDir), [QUOTE])
  }

  /** Makes the base directory and the group's directory in it, and names a file there. */
  function Target(d: Disk, base: Path, group: WireString, name: WStr, ext: WStr): (Disk, Option<Path>) {
    var (d1, ok1) := EnsureDir(d, base);
    if !ok1 then (d1, None)
    else if group.length == 0 then (d1, FileIn(base, name, ext))
    else
      var dir := Join(base, Text(group));
      if !Fits(dir) then (d1, None)
      else
        var (d2, ok2) := EnsureDir(d1, dir);
        (d2, if ok2 then FileIn(dir, name, ext) else None)
  }

  function FileIn(dir: Path, name: WStr, ext: WStr): Option<Path> {
    var path := Join(dir, name + ext);
    if Fits(path) then Some(path) else None
  }

  function ExeArgs(provider: WStr, workingDir: WireString, execPath: WStr): WStr {
    ARG_D + provider + ARG_CD + (if workingDir.length > 0 then Text(workingDir) else HOME) + ARG_END + execPath
  }

  /** The key of an application: its group, if it has one, and its id. */
  function Key(group: WireString, appId: WireString): WStr {
    (if group.length > 0 then Text(group) + [SEP] else []) + Text(appId)
  }

  datatype Plan = Plan(link: Path, icon: Path, entry: FileEntry)

  /** Everything up to the database: directories are made even when a later step gives up. */
  function Prepare(c: Client, u: UpdatePdu, wantsIcon: bool): (Disk, Option<Plan>) {
    var (d1, icon) := if wantsIcon then Target(c.disk, c.iconPath, u.appGroup, Text(u.appId), ICO)
        else (c.disk, Some([]));
    if icon.None? then (d1, None)
    else
      var (d2, link) := Target(d1, c.menuPath, u.appGroup, Text(u.desc), LNK);
      var args := ExeArgs(CStr(c.provider), u.workingDir, Text(u.execPath));
      var key := Key(u.appGroup, u.appId);
      if link.None? || !Fits(args) || !Fits(key) then (d2, None)
      else (d2, Some(Plan(link.value, icon.value, FileEntry(key, link.value, icon.value, c.exePath, args))))
  }

  /** How an update ends. `hasIcon` and `linked` tell whether the two files could be written. */
  datatype UpdateResult = Rejected | Accepted(link: Path, icon: Path, hasIcon: bool, linked: bool)

  /** Takes what was written off the list of files to sweep. */
  function Unmark(sync: Entries, link: Path, icon: Path, hasIcon: bool): Entries {
    var rest := Erase(sync, link);
    if hasIcon then Erase(rest, icon) else rest
  }

  /** The two files of an application: the icon, which is optional, then the link. */
  function WriteFiles(d: Disk, plan: Plan, icon: Option<IconPdu>): (Disk, bool, bool) {
    var (d1, hasIcon) := if icon.Some? then SaveIcon(d, plan.icon, icon.value.file) else (d, false);
    var (d2, linked) := SaveLink(d1, plan.link, if hasIcon then plan.icon else []);
    (d2, hasIcon, linked)
  }

  /** An update up to the point where it is accepted: session flags, screening, paths, and the database. */
  function Admit(c: Client, u: UpdatePdu, wantsIcon: bool): (Client, Option<Plan>)
    requires c.db.Some?
  {
    var (c1, ok1) := if Has(u.flags, HINT_SYNC_START) then SyncStart(c) else (c, true);
    if !ok1 then (c1, None)
    else if (Has(u.flags, HINT_SYNC) || Has(u.flags, HINT_SYNC_END)) && c1.sync.None? then (c1, None)
    else if !Screened(u) then (c1, None)
    else
      var (d2, plan) := Prepare(c1, u, wantsIcon);
      var c2 := c1.(disk := d2);
      if plan.None? then (c2, None)
      else
        var (db3, ok3) := Added(c2.db.value, plan.value.entry);
        (c2.(db := Some(db3)), if ok3 then plan else None)
  }

  /** The rest of an accepted update: its files, and what its session flags ask for. */
  function Complete(c: Client, u: UpdatePdu, icon: Option<IconPdu>, plan: Plan): (Client, UpdateResult)
    requires Has(u.flags, HINT_SYNC) ==> c.sync.Some?
  {
    var (d, hasIcon, linked) := WriteFiles(c.disk, plan, icon);
    var sync := if Has(u.flags, HINT_SYNC) then Some(Unmark(c.sync.value, plan.link, plan.icon, hasIcon)) else c.sync;
    var c' := c.(disk := d, sync := sync);
    (if Has(u.flags, HINT_SYNC_END) then SyncEnd(c', true) else c', Accepted(plan.link, plan.icon, hasIcon, linked))
  }

  function OnUpdate(c: Client, u: UpdatePdu, icon: Option<IconPdu>): (Client, UpdateResult)
    requires c.db.Some?
  {
    var (c1, plan) := Admit(c, u, icon.Some?);
    if plan.None? then (c1, Rejected) else Complete(c1, u, icon, plan.value)
  }

  // Delete and associate

  datatype DeleteResult = NotFound | Deleted(key: WStr, link: Path, icon: Path)

  function DeleteIfNamed(d: Disk, p: Path): Disk {
    if p == [] then d else DeleteFile(d, p).0
  }

  predicate PathsFit(e: FileEntry) {
    Fits(e.link) && Fits(e.icon)
  }

  function OnDelete(c: Client, d: DeletePdu): (Client, DeleteResult)
    requires c.db.Some?
  {
    var key := Key(d.appGroup, d.appId);
    var e := Find(c.db.value, key);
    if !Fits(key) || e.None? || !PathsFit(e.value) then (c, NotFound)
    else
      (c.(disk := DeleteIfNamed(DeleteIfNamed(c.disk, e.value.link), e.value.icon), db := Some(Erase(c.db.value, key))),
       Deleted(key, e.value.link, e.value.icon))
  }

  /** OnAssociateWindowId changes nothing of the client's own; this is whether it reports success. */
  predicate Associates(c: Client, a: AssociatePdu)
    requires c.db.Some?
  {
    var key := Key(a.appGroup, a.appId);
    var e := Find(c.db.value, key);
    && c.version >= 4
    && c.guid * U32_RANGE + a.windowId != 0
    && Fits(key)
    && (if e.Some? && Fits(e.value.icon) && Fits(e.value.exe) && Fits(e.value.args)
        then Fits(e.value.exe + [SPACE] + e.value.args)
        else Text(a.execPath) != [] ==> Fits(c.exePath + [SPACE] + ExeArgs(CStr(c.provider), EMPTY, Text(a.execPath))))
  }

  // Messages

  datatype Msg =
    | CapsMsg(caps: CapsPdu)
    | UpdateMsg(update: UpdatePdu, icon: Option<IconPdu>)
    | DeleteMsg(delete: DeletePdu)
    | AssociateMsg(associate: AssociatePdu)
    | ProviderMsg  // DELETE_APPLIST_PROVIDER: nothing to do

  /** One message in the receive loop: its handler, or the refusal of anything but capabilities before the handshake. */
  function Deliver(host: Host, c: Client, msg: Msg): (Client, bool)
    requires c.db.Some?
  {
    if msg.CapsMsg? then OnCaps(host, c, msg.caps)
    else if !c.handshake then (c, false)
    else
      match msg
      case UpdateMsg(u, icon) => var (c', r) := OnUpdate(c, u, icon); (c', r.Accepted?)
      case DeleteMsg(d) => var (c', r) := OnDelete(c, d); (c', r.Deleted?)
      case AssociateMsg(a) => (c, Associates(c, a))
      case ProviderMsg => (c, true)
  }

  /** OnClose: a session is cancelled without a sweep, and the database is dropped. */
  function OnClose(c: Client): Client {
    SyncEnd(c, false).(closed := true, db := None)
  }
}
