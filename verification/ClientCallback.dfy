/** The client's channel callback as the object it is: its members, its handlers, and the loop over received data. */
module ClientCallback {
  import opened Bytes
  import opened Protocol
  import opened ClientRead
  import opened Paths
  import opened FileEntries
  import opened FileSys
  import opened FileDB
  import C = Client
  import ClientStream
  import ServerLoop

  class Callback {
    const host: C.Host
    const fs: FileSystem
    const provider: array<byte>
    var fileDB: FileDatabase?
    var fileDBSync: FileDatabase?  // there only during a sync session
    var handshake: bool
    var closed: bool
    var version: u16
    var guid: u32
    var menuPath: Path
    var iconPath: Path
    var exePath: Path
    var sent: seq<byte>

    ghost predicate Valid()
      reads this, fileDB, fileDBSync
    {
      && provider.Length == C.PROVIDER_SIZE
      && (fileDB != null ==> fileDB.Valid())
      && (fileDBSync != null ==> fileDBSync.Valid() && fileDBSync != fileDB)
      && (!closed ==> fileDB != null)
    }

    ghost function State(): C.Client
      reads this, fs, provider, fileDB, fileDBSync
    {
      C.Client.Client(
        if fileDB == null then None else Some(fileDB.entries),
        if fileDBSync == null then None else Some(fileDBSync.entries),
        handshake, closed, version, provider[..], guid, menuPath, iconPath, exePath, sent, fs.disk)
    }

    constructor (host: C.Host, fs: FileSystem)
      ensures this.host == host && this.fs == fs && Valid() && fresh(provider) && fresh(fileDB) && fileDBSync == null
      ensures State() == C.Fresh(fs.disk)
    {
      this.host, this.fs := host, fs;
      provider := new byte[C.PROVIDER_SIZE](_ => 0);
      fileDB := new FileDatabase();
      fileDBSync, handshake, closed, version, guid := null, false, false, 0, 0;
      menuPath, iconPath, exePath, sent := [], [], [], [];
      new;
      assert provider[..] == seq(C.PROVIDER_SIZE, _ => 0);
    }

    // Capabilities

    /** memcpy: the buffer keeps what lies behind a shorter name. */
    method CopyProvider(name: WireString)
      requires |name.content| < provider.Length
      modifies provider
      ensures provider[..] == C.Overlay(old(provider[..]), name)
    {
      var raw: seq<byte> := name.content;
      if name.length % 2 == 1 {
        raw := raw + [0];
      }
      forall i | 0 <= i < |raw| {
        provider[i] := raw[i];
      }
      assert provider[..] == raw + old(provider[..])[|raw|..];
    }

    method BuildMenuPath(name: WStr) returns (ok: bool)
      modifies this`menuPath, fs
      ensures (fs.disk, menuPath, ok) == C.BuildMenuPath(host, old(fs.disk), old(menuPath), name)
    {
      if host.startMenu.None? {
        return false;
      }
      menuPath := host.startMenu.value + C.PROGRAMS + name;
      if !Fits(menuPath) {
        menuPath := [];
        return false;
      }
      ok := fs.CreateDirectory(menuPath);
    }

    method BuildIconPath(name: WStr) returns (ok: bool)
      modifies this`iconPath, fs
      ensures (fs.disk, iconPath, ok) == C.BuildIconPath(host, old(fs.disk), old(iconPath), name)
    {
      if host.tempDir == [] {
        return false;
      }
      iconPath := host.tempDir;
      if |iconPath| + |C.PLUGIN| + 2 + |name| > MAX_PATH {
        return false;
      }
      iconPath := iconPath + C.PLUGIN;
      ok := fs.CreateDirectory(iconPath);
      iconPath := iconPath + [SEP];
      if ok {
        iconPath := iconPath + name;
        ok := fs.CreateDirectory(iconPath);
      }
    }

    method Locate() returns (ok: bool)
      requires Valid()
      modifies this`menuPath, this`iconPath, this`exePath, fs
      ensures Valid() && (State(), ok) == C.Locate(host, old(State()))
    {
      hide C.BuildMenuPath, C.BuildIconPath, CStr;
      var name := CStr(provider[..]);
      ok := BuildMenuPath(name);
      if ok {
        ok := BuildIconPath(name);
      }
      if !ok || host.installLocation.None? {
        return false;
      }
      exePath := host.installLocation.value + C.WSLG_EXE;
      if !Fits(exePath) {
        exePath := [];
        return false;
      }
      ok := host.workingDirOk;
    }

    method OnCaps(p: CapsPdu) returns (ok: bool)
      requires Valid() && |p.name.content| < provider.Length
      modifies this`version, this`guid, this`menuPath, this`iconPath, this`exePath, this`handshake, this`sent,
          provider, fs
      ensures Valid() && (State(), ok) == C.OnCaps(host, old(State()), p)
    {
      hide C.Overlay, C.Text, C.Locate, C.FinishCaps, CStr, Contains;
      version := p.version;
      CopyProvider(p.name);
      var name := CStr(provider[..]);
      if Contains(name, DOTS) || Contains(name, [QUOTE]) || Contains(name, [SPACE]) {
        return false;
      }
      if p.version >= 4 {
        if C.Text(p.uniqueId) !in host.guids {
          return false;
        }
        guid := host.guids[C.Text(p.uniqueId)];
      }
      ok := Locate();
      if ok {
        ok := FinishCaps();
      }
    }

    method FinishCaps() returns (ok: bool)
      requires Valid()
      modifies this`handshake, this`sent, fs
      ensures Valid() && (State(), ok) == C.FinishCaps(host, old(State()))
    {
      hide ServerLoop.Reply;
      ok := version >= CHANNEL_VERSION;
      if ok {
        ok := fs.Ask();
        if ok {
          sent := sent + ServerLoop.Reply(ServerLoop.ClientCaps(CHANNEL_VERSION, host.language));
        }
      }
      handshake := ok;
    }

    // Sync

    method OnSyncStart() returns (ok: bool)
      requires Valid()
      modifies this`fileDBSync, fs
      ensures Valid() && (State(), ok) == C.SyncStart(old(State()))
      ensures fileDBSync == old(fileDBSync) || fresh(fileDBSync)
      ensures ok ==> fileDBSync != null
    {
      if fileDBSync != null {
        return false;
      }
      fileDBSync := new FileDatabase();
      fileDBSync.AddAllSubFolderFiles(fs, menuPath);
      ok := true;
    }

    method OnSyncEnd(cleanupFiles: bool)
      requires Valid()
      modifies this`fileDBSync, fileDBSync, fs
      ensures Valid() && State() == C.SyncEnd(old(State()), cleanupFiles)
      ensures fileDBSync == null && (fileDB != null ==> fileDB.entries == old(fileDB.entries))
    {
      if fileDBSync != null {
        if cleanupFiles {
          fileDBSync.DeleteAllFileIdFiles(fs);
        }
        fileDBSync.OnClose();
        fileDBSync := null;
      }
    }

    // Update

    /** Creates the base directory and the group's directory in it, and names a file there. */
    method MakeTarget(base: Path, group: WireString, name: WStr, ext: WStr) returns (target: Option<Path>)
      modifies fs
      ensures (fs.disk, target) == C.Target(old(fs.disk), base, group, name, ext)
    {
      hide C.Text;
      var path := base;
      var ok := fs.CreateDirectory(path);
      if !ok {
        return None;
      }
      if group.length > 0 {
        path := path + [SEP] + C.Text(group);
        if !Fits(path) {
          return None;
        }
        ok := fs.CreateDirectory(path);
        if !ok {
          return None;
        }
      }
      assert Join(path, name + ext) == path + [SEP] + name + ext;
      path := path + [SEP] + name + ext;
      target := if Fits(path) then Some(path) else None;
    }

    method Prepare(u: UpdatePdu, wantsIcon: bool) returns (plan: Option<C.Plan>)
      requires Valid()
      modifies fs
      ensures (fs.disk, plan) == C.Prepare(old(State()), u, wantsIcon)
    {
      hide C.Text, C.Target, CStr;
      var icon: Option<Path> := Some([]);
      if wantsIcon {
        icon := MakeTarget(iconPath, u.appGroup, C.Text(u.appId), ICO);
        if icon.None? {
          return None;
        }
      }
      var link := MakeTarget(menuPath, u.appGroup, C.Text(u.desc), LNK);
      if link.None? {
        return None;
      }
      var args := C.ExeArgs(CStr(provider[..]), u.workingDir, C.Text(u.execPath));
      if !Fits(args) {
        return None;
      }
      var key := if u.appGroup.length > 0 then C.Text(u.appGroup) + [SEP] else [];
      key := key + C.Text(u.appId);
      if !Fits(key) {
        return None;
      }
      plan := Some(C.Plan.Plan(link.value, icon.value, FileEntry(key, link.value, icon.value, exePath, args)));
    }

    method Admit(u: UpdatePdu, wantsIcon: bool) returns (plan: Option<C.Plan>)
      requires Valid() && fileDB != null
      modifies this`fileDBSync, fileDB, fs
      ensures Valid() && (State(), plan) == C.Admit(old(State()), u, wantsIcon)
      ensures fileDBSync == old(fileDBSync) || fresh(fileDBSync)
      ensures plan.Some? && (Has(u.flags, HINT_SYNC) || Has(u.flags, HINT_SYNC_END)) ==> fileDBSync != null
    {
      hide Has, C.Screened, C.Prepare, C.SyncStart, Sorted, Insert, Find;
      if Has(u.flags, HINT_SYNC_START) {
        var ok := OnSyncStart();
        if !ok {
          return None;
        }
      }
      if (Has(u.flags, HINT_SYNC) || Has(u.flags, HINT_SYNC_END)) && fileDBSync == null {
        return None;
      }
      if !C.Screened(u) {
        return None;
      }
      plan := Prepare(u, wantsIcon);
      if plan.Some? {
        var e := plan.value.entry;
        var ok := fileDB.OnFileAdded(e.id, e.link, e.icon, e.exe, e.args);
        if !ok {
          plan := None;
        }
      }
    }

    /** The icon is optional, and a failed link is ignored. */
    method Complete(u: UpdatePdu, icon: Option<IconPdu>, plan: C.Plan) returns (r: C.UpdateResult)
      requires Valid() && fileDB != null && (Has(u.flags, HINT_SYNC) ==> fileDBSync != null)
      modifies this`fileDBSync, fileDBSync, fs
      ensures Valid() && (State(), r) == C.Complete(old(State()), u, icon, plan) && r.Accepted?
      ensures fileDBSync == old(fileDBSync) || fileDBSync == null
    {
      hide Has, Sorted, Erase, C.SyncEnd, SaveIcon, SaveLink;
      var hasIcon := false;
      if icon.Some? {
        hasIcon := fs.CreateIconFile(plan.icon, icon.value.file);
      }
      var linked := fs.CreateShellLink(plan.link, if hasIcon then plan.icon else []);
      if Has(u.flags, HINT_SYNC) {
        var _ := fileDBSync.OnFileRemoved(plan.link);
        if hasIcon {
          var _ := fileDBSync.OnFileRemoved(plan.icon);
        }
      }
      if Has(u.flags, HINT_SYNC_END) {
        OnSyncEnd(true);
      }
      r := C.Accepted(plan.link, plan.icon, hasIcon, linked);
    }

    method OnUpdateAppList(buf: array<byte>, c: Cursor) returns (ok: bool, c': Cursor)
      requires Valid() && fileDB != null && handshake && c.In(buf) && buf != provider
      modifies this`fileDBSync, fileDB, fileDBSync, fs
      ensures Valid() && c.MovedTo(c') && handshake
      ensures ClientStream.Handles(host, CMDID_UPDATE_APPLIST, old(State()), c.Rest(buf), State(), ok, c'.Rest(buf))
      ensures fileDBSync == null || fileDBSync == old(fileDBSync) || fresh(fileDBSync)
    {
      hide Has, DecUpdate, DecIcon, C.Admit, C.Complete, Sorted;
      var u, pdu, cur;
      var icon: Option<IconPdu> := None;
      ok, u, cur := ReadAppListUpdate(buf, c);
      if !ok {
        return false, c;
      }
      if Has(u.flags, FIELD_ICON) {
        ok, pdu, cur := ReadAppListIconData(buf, cur, host.allocLimit);
        if !ok {
          return false, c;
        }
        icon := Some(pdu);
      }
      c' := cur;
      var plan := Admit(u, icon.Some?);
      if plan.None? {
        return false, c';
      }
      var _ := Complete(u, icon, plan.value);
    }

    method OnDeleteAppList(buf: array<byte>, c: Cursor) returns (ok: bool, c': Cursor)
      requires Valid() && fileDB != null && handshake && c.In(buf)
      modifies fileDB, fs
      ensures Valid() && c.MovedTo(c')
      ensures ClientStream.Handles(host, CMDID_DELETE_APPLIST, old(State()), c.Rest(buf), State(), ok, c'.Rest(buf))
    {
      hide Has, DecDelete, Sorted, C.OnDelete;
      var d;
      ok, d, c' := ReadAppListDelete(buf, c);
      if ok {
        var r := Delete(d);
        ok := r.Deleted?;
      }
    }

    method Delete(d: DeletePdu) returns (r: C.DeleteResult)
      requires Valid() && fileDB != null
      modifies fileDB, fs
      ensures Valid() && (State(), r) == C.OnDelete(old(State()), d)
    {
      hide Sorted, Erase, Find, C.Text, Ids;
      var key := if d.appGroup.length > 0 then C.Text(d.appGroup) + [SEP] else [];
      key := key + C.Text(d.appId);
      if !Fits(key) {
        return C.NotFound;
      }
      var found, link, icon, exe, args := fileDB.FindFiles(key, MAX_PATH, MAX_PATH, 0, 0);
      if !found {
        return C.NotFound;
      }
      if link != [] {
        var _ := fs.Delete(link);
      }
      if icon != [] {
        var _ := fs.Delete(icon);
      }
      var _ := fileDB.OnFileRemoved(key);
      r := C.Deleted(key, link, icon);
    }

    method OnAssociateWindowId(buf: array<byte>, c: Cursor) returns (ok: bool, c': Cursor)
      requires Valid() && fileDB != null && handshake && c.In(buf)
      ensures c.MovedTo(c')
      ensures if version < 4 then !ok && c' == c
              else ClientStream.Handles(host, CMDID_ASSOCIATE_WINDOW_ID, State(), c.Rest(buf), State(), ok,
                  c'.Rest(buf))
    {
      hide Has, DecAssociate, Sorted, C.Associates;
      if version < 4 {
        return false, c;
      }
      var a;
      ok, a, c' := ReadAssociateWindowId(buf, c);
      if ok {
        ok := Associate(a);
      }
    }

    /** Only whether it reports success; what it does to a window is not part of the state. */
    method Associate(a: AssociatePdu) returns (ok: bool)
      requires Valid() && fileDB != null && version >= 4
      ensures ok == C.Associates(State(), a)
    {
      hide Sorted, Find, C.Text, CStr, C.ExeArgs;
      if guid * U32_RANGE + a.windowId == 0 {
        return false;
      }
      var key := if a.appGroup.length > 0 then C.Text(a.appGroup) + [SEP] else [];
      key := key + C.Text(a.appId);
      if !Fits(key) {
        return false;
      }
      var found, link, icon, exe, args := fileDB.FindFiles(key, 0, MAX_PATH, MAX_PATH, MAX_PATH);
      ok := true;
      if found {
        ok := Fits(exe + [SPACE] + args);
      } else if C.Text(a.execPath) != [] {
        ok := Fits(exePath + [SPACE] + C.ExeArgs(CStr(provider[..]), EMPTY, C.Text(a.execPath)));
      }
    }

    // The channel

    /** A version that was read is stored even when the rest of the capabilities could not be. */
    method OnCapsData(buf: array<byte>, c: Cursor) returns (ok: bool, c': Cursor)
      requires Valid() && fileDB != null && c.In(buf) && buf != provider
      modifies this`version, this`guid, this`menuPath, this`iconPath, this`exePath, this`handshake, this`sent,
          provider, fs
      ensures Valid() && c.MovedTo(c')
      ensures ClientStream.Handles(host, CMDID_CAPS, old(State()), old(c.Rest(buf)), State(), ok, c'.Rest(buf))
    {
      hide DecCaps, C.OnCaps, Sorted, FromLE16;
      var v, p;
      ok, v, p, c' := ReadAppListServerCaps(buf, c, version);
      version := v;
      VersionIsReplaced(host, old(State()), v, p);
      if ok {
        ok := OnCaps(p);
      }
    }

    /** What the loop does with one command. */
    method Dispatch(cmdId: u32, buf: array<byte>, c: Cursor) returns (ok: bool, c': Cursor, ghost msgs: seq<C.Msg>)
      requires Valid() && !closed && c.In(buf) && buf != provider
      modifies this, provider, fileDB, fileDBSync, fs
      ensures Valid() && fileDB == old(fileDB) && c.MovedTo(c')
      ensures fileDBSync == null || fileDBSync == old(fileDBSync) || fresh(fileDBSync)
      ensures (State(), ok, c'.Rest(buf), msgs) == ClientStream.Pass(host, old(State()), cmdId, old(c.Rest(buf)))
    {
      hide Has, Sorted, ClientStream.Handles, ClientStream.Pass;
      ghost var (before, b) := (State(), c.Rest(buf));
      msgs := ClientStream.Pass(host, before, cmdId, b).3;
      ok, c' := true, c;
      if cmdId == CMDID_CAPS {
        ok, c' := OnCapsData(buf, c);
      } else if !handshake {
        ok := false;
      } else if cmdId == CMDID_UPDATE_APPLIST {
        ok, c' := OnUpdateAppList(buf, c);
      } else if cmdId == CMDID_DELETE_APPLIST {
        ok, c' := OnDeleteAppList(buf, c);
      } else if cmdId == CMDID_DELETE_APPLIST_PROVIDER {
        ClientStream.ProviderHandled(host, before, b);
      } else if cmdId == CMDID_ASSOCIATE_WINDOW_ID {
        ok, c' := OnAssociateWindowId(buf, c);
      } else {
        ok := false;
        ClientStream.UnknownFails(host, cmdId, before, b);
      }
      ClientStream.HandledPasses(host, cmdId, before, b, State(), ok, c'.Rest(buf));
    }

    /** The receive loop does to the object what its specification says, on whatever bytes arrive. */
    method OnDataReceived(buf: array<byte>) returns (ok: bool, ghost left: seq<byte>, ghost handled: seq<C.Msg>)
      requires Valid() && buf != provider
      modifies this, provider, fileDB, fileDBSync, fs
      ensures Valid() && fileDB == old(fileDB)
      ensures fileDBSync == null || fileDBSync == old(fileDBSync) || fresh(fileDBSync)
      ensures ClientStream.Received(State(), ok, left, handled)
          == ClientStream.Receive(host, old(State()), old(buf[..]))
    {
      hide Sorted, ClientStream.Pass, ClientStream.Receive, ClientStream.Continues, DecHeader;
      ghost var total := ClientStream.Receive(host, State(), buf[..]);
      ok, handled, left := true, [], buf[..];
      ClientStream.ReceiveUnfolds(host, State(), left);
      if closed {
        return;
      }
      var cur := Cursor(0, buf.Length);
      assert cur.Rest(buf) == buf[..];
      ClientStream.ContinuesFromStart(total);
      while cur.len > 0
        invariant ok && cur.In(buf) && left == cur.Rest(buf)
        invariant Valid() && !closed && fileDB == old(fileDB)
        invariant fileDBSync == null || fileDBSync == old(fileDBSync) || fresh(fileDBSync)
        invariant ClientStream.Continues(total, handled, ClientStream.Receive(host, State(), left))
        decreases cur.len
      {
        ClientStream.ReceiveUnfolds(host, State(), left);
        var cmdId, length;
        ghost var msgs := [];
        ok, cmdId, length, cur := ReadAppListHeader(buf, cur);
        if ok {
          ok, cur, msgs := Dispatch(cmdId, buf, cur);
        }
        left := cur.Rest(buf);
        ghost var rest := if ok then ClientStream.Receive(host, State(), left)
            else ClientStream.Received(State(), false, left, []);
        assert msgs + [] == msgs;
        ClientStream.ContinuesOn(total, handled, msgs, rest);
        handled := handled + msgs;
        if !ok {
          ClientStream.ContinuesToEnd(total, handled, rest);
          return;
        }
      }
      ClientStream.ReceiveUnfolds(host, State(), left);
      ClientStream.ContinuesToEnd(total, handled, ClientStream.Receive(host, State(), left));
    }

    method OnClose()
      requires Valid() && fileDB != null
      modifies this, fileDB, fileDBSync, fs
      ensures Valid() && State() == C.OnClose(old(State()))
    {
      closed := true;
      OnSyncEnd(false);
      fileDB.OnClose();
      fileDB := null;
    }
  }

  /** OnCaps stores the version anew, so it does not matter that the read has stored it before. */
  lemma VersionIsReplaced(host: C.Host, c: C.Client, v: u16, p: CapsPdu)
    ensures C.OnCaps(host, c.(version := v), p) == C.OnCaps(host, c, p)
  {
    hide C.Overlay, C.Text, C.Locate, C.FinishCaps;
  }
}
