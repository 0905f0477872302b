/**
 * addAllSubFolderFiles: the walk that fills a database with the links under a directory and the icons they point to.
 */
module TreeWalk {
  import opened Paths
  import opened FileEntries
  import opened FileSys

  /** A file the walk takes for a link: PathFindExtensionW of its name is ".lnk". */
  predicate IsLnk(p: Path) {
    EndsWith(Leaf(p), LNK)
  }

  /** OnLnkFileAdded. */
  function AddLink(d: Disk, db: Entries, lnk: Path): (Disk, Entries) {
    var (d', icon) := LoadIcon(d, lnk);
    var db' := Insert(db, Bare(lnk));
    (d', if icon.Some? then Insert(db', Bare(icon.value)) else db')
  }

  function DirsBelow(d: Disk, dir: Path): set<Path> {
    set x | x in d.dirs && Under(dir, x)
  }

  function Walk(d: Disk, db: Entries, dir: Path): (r: (Disk, Entries))
    ensures r.0.dirs <= d.dirs
    decreases DirsBelow(d, dir), 1, 0
  {
    WalkEntries(d, db, dir, Listing(d, dir))
  }

  /** One pass of the loop: a subdirectory is removed when empty and walked otherwise, a link is recorded. */
  function WalkEntry(d: Disk, db: Entries, dir: Path, e: FindData): (r: (Disk, Entries))
    ensures r.0.dirs <= d.dirs
    decreases DirsBelow(d, dir), 0, 0
  {
    var sub := Join(dir, e.name);
    if e.isDir then
      if e.name == [DOT] || e.name == DOTS then (d, db)
      else if IsEmpty(d, sub) then (RemoveDir(d, sub).0, db)
      else if sub !in d.dirs then (d, db)
      else
        Smaller(d, dir, e.name);
        Walk(d, db, sub)
    else if EndsWith(e.name, LNK) then AddLink(d, db, sub)
    else (d, db)
  }

  function WalkEntries(d: Disk, db: Entries, dir: Path, es: seq<FindData>): (r: (Disk, Entries))
    ensures r.0.dirs <= d.dirs
    decreases DirsBelow(d, dir), 0, |es|
  {
    if es == [] then (d, db)
    else
      var (d1, db1) := WalkEntry(d, db, dir, es[0]);
      assert DirsBelow(d1, dir) <= DirsBelow(d, dir);
      WalkEntries(d1, db1, dir, es[1..])
  }

  /** What makes the recursion end: a subdirectory has fewer directories below it. */
  lemma Smaller(d: Disk, dir: Path, name: WStr)
    requires Join(dir, name) in d.dirs
    ensures DirsBelow(d, Join(dir, name)) < DirsBelow(d, dir)
  {
    var sub := Join(dir, name);
    assert sub[..|dir|] == dir && sub[|dir|] == SEP;
    assert sub in DirsBelow(d, dir) && sub !in DirsBelow(d, sub);
    forall x | x in DirsBelow(d, sub)
      ensures x in DirsBelow(d, dir)
    {
      UnderTransitive(dir, sub, x);
    }
  }
}
