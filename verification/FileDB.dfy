/** The file database object: the ordered set, the walk and the sweep over a shared file system. */
module FileDB {
  import opened Bytes
  import opened Paths
  import opened FileEntries
  import opened FileSys
  import opened TreeWalk
  import opened Sweeping

  /** One output buffer of FindFiles: its size in characters, 0 when the caller passes none. */
  function CopyOut(s: WStr, size: nat): (WStr, bool) {
    if size == 0 then ([], true)
    else if |s| < size then (s, true)
    else ([], false)
  }

  /** Whether every buffer the caller passed can hold its string. */
  predicate RoomFor(e: FileEntry, linkSize: nat, iconSize: nat, exeSize: nat, argsSize: nat) {
    && CopyOut(e.link, linkSize).1 && CopyOut(e.icon, iconSize).1
    && CopyOut(e.exe, exeSize).1 && CopyOut(e.args, argsSize).1
  }

  class FileDatabase {
    var entries: Entries

    ghost predicate Valid()
      reads this
    {
      Sorted(entries)
    }

    constructor ()
      ensures Valid() && entries == []
    {
      entries := [];
    }

    method OnLnkFileAdded(fs: FileSystem, lnk: Path)
      requires Valid()
      modifies this, fs
      ensures Valid() && (fs.disk, entries) == AddLink(old(fs.disk), old(entries), lnk)
    {
      hide Insert, Sorted;
      InsertSorted(entries, Bare(lnk));
      entries := Insert(entries, Bare(lnk));
      var icon := fs.IconOfShellLink(lnk);
      if icon.Some? {
        InsertSorted(entries, Bare(icon.value));
        entries := Insert(entries, Bare(icon.value));
      }
    }

    /** True when the key now stands for exactly this data; a differing entry that is there is kept. */
    method OnFileAdded(key: WStr, link: Path, icon: Path, exe: Path, args: WStr) returns (ok: bool)
      requires Valid()
      modifies this
      ensures Valid() && (entries, ok) == Added(old(entries), FileEntry(key, link, icon, exe, args))
      ensures ok <==> Find(entries, key) == Some(FileEntry(key, link, icon, exe, args))
    {
      var e := FileEntry(key, link, icon, exe, args);
      ReAdd(entries, e);
      var at := LowerBound(entries, key);
      if at < |entries| && !Less(key, entries[at].id) {
        var p := entries[at];
        assert Find(entries, key) == Some(p);
        FindsKey(entries, key);
        ok := p.link == link && p.icon == icon && p.exe == exe && p.args == args;
      } else {
        entries := entries[..at] + [e] + entries[at..];
        ok := true;
      }
    }

    method OnFileRemoved(key: WStr) returns (ok: bool)
      requires Valid()
      modifies this
      ensures Valid() && entries == Erase(old(entries), key)
      ensures ok <==> key in Ids(old(entries))
      ensures Ids(entries) == Ids(old(entries)) - {key}
    {
      EraseSorted(entries, key);
      FindsKey(entries, key);
      var at := LowerBound(entries, key);
      ok := at < |entries| && !Less(key, entries[at].id);
      if ok {
        entries := entries[..at] + entries[at + 1..];
      }
    }

    /** Fills the buffers in turn; the first that is too small ends the call. */
    method FindFiles(key: WStr, linkSize: nat, iconSize: nat, exeSize: nat, argsSize: nat)
        returns (ok: bool, link: Path, icon: Path, exe: Path, args: WStr)
      requires Valid()
      ensures ok
              <==> (&& Find(entries, key).Some?
                    && RoomFor(Find(entries, key).value, linkSize, iconSize, exeSize, argsSize))
      ensures ok ==> var e := Find(entries, key).value;
                     && e.id == key
                     && link == CopyOut(e.link, linkSize).0 && icon == CopyOut(e.icon, iconSize).0
                     && exe == CopyOut(e.exe, exeSize).0 && args == CopyOut(e.args, argsSize).0
      ensures Find(entries, key).None? ==> link == icon == exe == args == []
    {
      link, icon, exe, args := [], [], [], [];
      FindsKey(entries, key);
      var at := LowerBound(entries, key);
      if at == |entries| || Less(key, entries[at].id) {
        return false, link, icon, exe, args;
      }
      var it := entries[at];
      link, ok := CopyOut(it.link, linkSize).0, CopyOut(it.link, linkSize).1;
      if !ok {
        return;
      }
      icon, ok := CopyOut(it.icon, iconSize).0, CopyOut(it.icon, iconSize).1;
      if !ok {
        return;
      }
      exe, ok := CopyOut(it.exe, exeSize).0, CopyOut(it.exe, exeSize).1;
      if !ok {
        return;
      }
      args, ok := CopyOut(it.args, argsSize).0, CopyOut(it.args, argsSize).1;
    }

    /** The directory walk; it recurses into subdirectories and removes the empty ones it comes to. */
    method AddAllSubFolderFiles(fs: FileSystem, path: Path)
      requires Valid()
      modifies this, fs
      ensures Valid() && (fs.disk, entries) == Walk(old(fs.disk), old(entries), path)
      decreases DirsBelow(fs.disk, path)
    {
      hide Listing, DirsBelow, Sorted, AddLink;
      var data := Listing(fs.disk, path);
      var i := 0;
      while i < |data|
        invariant 0 <= i <= |data| && Valid()
        invariant fs.disk.dirs <= old(fs.disk).dirs
        invariant WalkEntries(fs.disk, entries, path, data[i..]) == WalkEntries(old(fs.disk), old(entries), path, data)
      {
        var name := data[i].name;
        var sub := Join(path, name);
        if data[i].isDir {
          if name == [DOT] || name == DOTS {
          } else if IsEmpty(fs.disk, sub) {
            var _ := fs.RemoveDirectory(sub);
          } else if sub in fs.disk.dirs {
            Smaller(fs.disk, path, name);
            FewerBelow(old(fs.disk), fs.disk, path);
            AddAllSubFolderFiles(fs, sub);
          }
        } else if EndsWith(name, LNK) {
          OnLnkFileAdded(fs, sub);
        }
        assert data[i..][1..] == data[i + 1..];
        i := i + 1;
      }
    }

    /** The sweep: it deletes the file of the first entry and erases the entry, until none is left. */
    method DeleteAllFileIdFiles(fs: FileSystem)
      requires Valid()
      modifies this, fs
      ensures Valid() && entries == [] && fs.disk == Sweep(old(fs.disk), old(entries))
    {
      while entries != []
        invariant Valid()
        invariant Sweep(fs.disk, entries) == Sweep(old(fs.disk), old(entries))
        decreases |entries|
      {
        var id := entries[0].id;
        var ok := fs.Delete(id);
        if ok {
          if HasParent(id) {
            var dir := Parent(id);
            if IsEmpty(fs.disk, dir) {
              var _ := fs.RemoveDirectory(dir);
            }
          }
        }
        entries := entries[1..];
      }
    }

    method OnClose()
      modifies this
      ensures Valid() && entries == []
    {
      entries := [];
    }
  }

  lemma FewerBelow(d: Disk, d': Disk, path: Path)
    requires d'.dirs <= d.dirs
    ensures DirsBelow(d', path) <= DirsBelow(d, path)
  {
  }

  /** RemoveAppProvider: nothing to do without a menu directory; otherwise one database object walks it and sweeps. */
  method RemoveAppProvider(fs: FileSystem, menu: Path)
    modifies fs
    ensures fs.disk == RemoveProvider(old(fs.disk), menu)
  {
    if menu !in fs.disk.dirs {
      return;
    }
    var db := new FileDatabase();
    db.AddAllSubFolderFiles(fs, menu);
    db.DeleteAllFileIdFiles(fs);
    db.OnClose();
  }
}
