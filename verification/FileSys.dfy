/**
 * The file system as the client sees it. Every call that reaches it may fail for reasons of its own: `tape` is the
 * list of answers it has in store, taken one per call; once it is used up, calls succeed whenever they can.
 */
module FileSys {
  import opened Bytes
  import opened Paths

  /** A shell link with the icon location stored in it, or any other content. */
  datatype File = Link(icon: Path) | Data(bytes: seq<byte>)

  datatype Disk = Disk(files: map<Path, File>, dirs: set<Path>, tape: seq<bool>)

  predicate Says(d: Disk) {
    d.tape == [] || d.tape[0]
  }

  function Asked(d: Disk): Disk {
    if d.tape == [] then d else d.(tape := d.tape[1..])
  }

  /** The file system fails no call that could be done. */
  predicate Reliable(d: Disk) {
    d.tape == []
  }

  predicate Exists(d: Disk, p: Path) {
    p in d.files || p in d.dirs
  }

  /**
   * Where a path may stand: in a directory that is there, under a name a listing does not skip. A drive stands
   * anywhere.
   */
  ghost predicate Placed(d: Disk, p: Path) {
    HasParent(p) ==> Parent(p) in d.dirs && Leaf(p) != [DOT] && Leaf(p) != DOTS
  }

  /** Files and directories are different things, and lie in directories. */
  ghost predicate WellFormed(d: Disk) {
    && d.files.Keys !! d.dirs
    && (forall p | p in d.files :: HasParent(p) && Placed(d, p))
    && (forall p | p in d.dirs :: Placed(d, p))
  }

  function Children(d: Disk, dir: Path): set<Path> {
    set p | p in d.files.Keys + d.dirs && IsChild(dir, p)
  }

  /** PathIsDirectoryEmptyW. */
  predicate IsEmpty(d: Disk, dir: Path) {
    dir in d.dirs && Children(d, dir) == {}
  }

  /** DeleteFileW. */
  function DeleteFile(d: Disk, p: Path): (Disk, bool) {
    if Says(d) && p in d.files then (Asked(d).(files := d.files - {p}), true) else (Asked(d), false)
  }

  /** RemoveDirectory. */
  function RemoveDir(d: Disk, p: Path): (Disk, bool) {
    if Says(d) && IsEmpty(d, p) then (Asked(d).(dirs := d.dirs - {p}), true) else (Asked(d), false)
  }

  /** CreateDirectoryW as its callers take it: true when the directory is made or something of that name exists. */
  function EnsureDir(d: Disk, p: Path): (Disk, bool) {
    if !Says(d) then (Asked(d), false)
    else if Exists(d, p) then (Asked(d), true)
    else if HasParent(p) && Parent(p) in d.dirs then
      if Leaf(p) == [DOT] || Leaf(p) == DOTS then (Asked(d), true) else (Asked(d).(dirs := d.dirs + {p}), true)
    else (Asked(d), false)
  }

  /** A file can be written here: its directory exists, and it is not itself a directory. */
  predicate Writable(d: Disk, p: Path) {
    HasParent(p) && Parent(p) in d.dirs && p !in d.dirs && Leaf(p) != [DOT] && Leaf(p) != DOTS
  }

  /** CreateShellLink. */
  function SaveLink(d: Disk, p: Path, icon: Path): (Disk, bool) {
    if Says(d) && Writable(d, p) then (Asked(d).(files := d.files[p := Link(icon)]), true) else (Asked(d), false)
  }

  /** CreateIconFile: CreateFileW empties or makes the file, then WriteFile fills it; the second may fail alone. */
  function SaveIcon(d: Disk, p: Path, bytes: seq<byte>): (Disk, bool) {
    if Says(d) && Writable(d, p) then
      var made := Asked(d).(files := d.files[p := Data([])]);
      if Says(made) then (Asked(made).(files := made.files[p := Data(bytes)]), true) else (Asked(made), false)
    else (Asked(d), false)
  }

  /** GetIconFileFromShellLink; a link without an icon yields the empty path. */
  function LoadIcon(d: Disk, p: Path): (Disk, Option<Path>) {
    if Says(d) && p in d.files && d.files[p].Link? then (Asked(d), Some(d.files[p].icon)) else (Asked(d), None)
  }

  /** WIN32_FIND_DATA. */
  datatype FindData = FindData(name: WStr, isDir: bool)

  function Found(d: Disk, ps: seq<Path>): (r: seq<FindData>)
    ensures |r| == |ps| && forall i | 0 <= i < |ps| :: r[i] == FindData(Leaf(ps[i]), ps[i] in d.dirs)
  {
    if ps == [] then [] else [FindData(Leaf(ps[0]), ps[0] in d.dirs)] + Found(d, ps[1..])
  }

  /**
   * What the do/while over FindFirstFile and FindNextFile sees: the two dot entries and then the children in
   * name order. Where there is no directory it sees one zeroed entry.
   */
  function Listing(d: Disk, dir: Path): seq<FindData> {
    if dir !in d.dirs then [FindData([], false)]
    else [FindData([DOT], true), FindData(DOTS, true)] + Found(d, Ordered(Children(d, dir)))
  }

  /** The file system as the object its callers share. */
  class FileSystem {
    var disk: Disk

    constructor (disk: Disk)
      ensures this.disk == disk
    {
      this.disk := disk;
    }

    /** One call reaches the file system and gets its answer. */
    method Ask() returns (yes: bool)
      modifies this
      ensures yes == Says(old(disk)) && disk == Asked(old(disk))
    {
      yes := true;
      if disk.tape != [] {
        yes := disk.tape[0];
        disk := disk.(tape := disk.tape[1..]);
      }
    }

    method Delete(p: Path) returns (ok: bool)
      modifies this
      ensures (disk, ok) == DeleteFile(old(disk), p)
    {
      ok := Ask();
      ok := ok && p in disk.files;
      if ok {
        disk := disk.(files := disk.files - {p});
      }
    }

    method RemoveDirectory(p: Path) returns (ok: bool)
      modifies this
      ensures (disk, ok) == RemoveDir(old(disk), p)
    {
      ok := Ask();
      ok := ok && IsEmpty(disk, p);
      if ok {
        disk := disk.(dirs := disk.dirs - {p});
      }
    }

    method CreateDirectory(p: Path) returns (ok: bool)
      modifies this
      ensures (disk, ok) == EnsureDir(old(disk), p)
    {
      ok := Ask();
      if ok && !Exists(disk, p) {
        ok := HasParent(p) && Parent(p) in disk.dirs;
        if ok && Leaf(p) != [DOT] && Leaf(p) != DOTS {
          disk := disk.(dirs := disk.dirs + {p});
        }
      }
    }

    method CreateShellLink(p: Path, icon: Path) returns (ok: bool)
      modifies this
      ensures (disk, ok) == SaveLink(old(disk), p, icon)
    {
      ok := Ask();
      ok := ok && Writable(disk, p);
      if ok {
        disk := disk.(files := disk.files[p := Link(icon)]);
      }
    }

    method CreateIconFile(p: Path, bytes: seq<byte>) returns (ok: bool)
      modifies this
      ensures (disk, ok) == SaveIcon(old(disk), p, bytes)
    {
      ok := Ask();
      ok := ok && Writable(disk, p);
      if ok {
        disk := disk.(files := disk.files[p := Data([])]);
        ok := Ask();
        if ok {
          disk := disk.(files := disk.files[p := Data(bytes)]);
        }
      }
    }

    method IconOfShellLink(p: Path) returns (icon: Option<Path>)
      modifies this
      ensures (disk, icon) == LoadIcon(old(disk), p)
    {
      var ok := Ask();
      icon := if ok && p in disk.files && disk.files[p].Link? then Some(disk.files[p].icon) else None;
    }
  }

  // No call damages the tree

  lemma DeleteKeepsWellFormed(d: Disk, p: Path)
    requires WellFormed(d)
    ensures WellFormed(DeleteFile(d, p).0)
  {
    hide HasParent, Parent, Leaf;
  }

  lemma EnsureDirKeepsWellFormed(d: Disk, p: Path)
    requires WellFormed(d)
    ensures WellFormed(EnsureDir(d, p).0)
  {
    hide HasParent, Parent, Leaf;
  }

  lemma SavesKeepWellFormed(d: Disk, p: Path, icon: Path, bytes: seq<byte>)
    requires WellFormed(d)
    ensures WellFormed(SaveLink(d, p, icon).0) && WellFormed(SaveIcon(d, p, bytes).0)
  {
    hide HasParent, Parent, Leaf;
  }

  /** A directory still holding an entry is never removed, and a call that removes one leaves nothing dangling. */
  lemma RemoveDirKeepsWellFormed(d: Disk, p: Path)
    requires WellFormed(d)
    ensures WellFormed(RemoveDir(d, p).0)
    ensures Children(d, p) != {} ==> RemoveDir(d, p).0 == Asked(d)
  {
    hide HasParent, Parent, Leaf;
    var d' := RemoveDir(d, p).0;
    if Children(d, p) == {} {
      forall q | q in d'.files.Keys + d'.dirs
        ensures Placed(d', q)
      {
        assert q !in Children(d, p);
        assert Placed(d, q);
      }
    }
  }
}
