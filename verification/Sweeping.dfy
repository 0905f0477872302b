/** deleteAllFileIdFiles: the sweep that deletes every file a database names, and the directories this leaves empty. */
module Sweeping {
  import opened Paths
  import opened FileEntries
  import opened FileSys
  import opened TreeWalk
  import opened WalkLaws

  function SweepOne(d: Disk, id: Path): Disk {
    var (d1, ok) := DeleteFile(d, id);
    if ok && HasParent(id) && IsEmpty(d1, Parent(id)) then RemoveDir(d1, Parent(id)).0 else d1
  }

  /** The loop, in the order of the ids. */
  function Sweep(d: Disk, db: Entries): Disk
    decreases |db|
  {
    if db == [] then d else Sweep(SweepOne(d, db[0].id), db[1..])
  }

  // One file

  /** What one turn may do to the tree; `id` is the only file at stake, its parent the only directory. */
  lemma OneTurn(d: Disk, id: Path)
    requires WellFormed(d)
    ensures var d' := SweepOne(d, id);
            && WellFormed(d')
            && d'.dirs <= d.dirs
            && (d'.files == d.files || d'.files == d.files - {id})
            && (Reliable(d) ==> Reliable(d') && d'.files == d.files - {id})
            && (forall x | x in d.dirs && x !in d'.dirs :: id in d.files && IsChild(x, id))
  {
    hide HasParent, Parent, Leaf, Children;
    DeleteKeepsWellFormed(d, id);
    var (d1, ok) := DeleteFile(d, id);
    if HasParent(id) {
      RemoveDirKeepsWellFormed(d1, Parent(id));
    }
  }

  lemma ChildrenAfterDelete(d: Disk, id: Path, x: Path)
    requires WellFormed(d) && id in d.files && Says(d)
    ensures Children(DeleteFile(d, id).0, x) == Children(d, x) - {id}
  {
    hide IsChild;
  }

  /** A directory whose last entry is deleted goes with it. */
  lemma LastEntry(d: Disk, id: Path, x: Path)
    requires WellFormed(d) && Reliable(d) && x in d.dirs && Children(d, x) == {id} && id in d.files
    ensures x !in SweepOne(d, id).dirs
  {
    var d1 := DeleteFile(d, id).0;
    assert id in Children(d, x);
    ChildrenAfterDelete(d, id, x);
  }

  // Safety, whatever fails

  /**
   * Under any failures: no file goes that the database does not name, no directory goes but the parent of such
   * a file, what stands stays well placed (so no directory with an entry in it was removed), and nothing new appears.
   */
  lemma {:induction false} SweepSafe(d: Disk, db: Entries)
    requires WellFormed(d)
    ensures var d' := Sweep(d, db);
            && WellFormed(d')
            && d'.dirs <= d.dirs
            && (forall p | p in d'.files :: p in d.files && d'.files[p] == d.files[p])
            && (forall p | p in d.files && p !in d'.files :: p in Ids(db))
            && (forall x | x in d.dirs && x !in d'.dirs :: exists p :: p in Ids(db) && p in d.files && IsChild(x, p))
    decreases |db|
  {
    if db != [] {
      hide WellFormed, SweepOne, IsChild, Ids;
      IdsCons(db);
      OneTurn(d, db[0].id);
      SweepSafe(SweepOne(d, db[0].id), db[1..]);
    }
  }

  // Exactness, when calls succeed

  lemma {:induction false} SweepExact(d: Disk, db: Entries)
    requires WellFormed(d) && Reliable(d)
    ensures Sweep(d, db).files == d.files - Ids(db) && Reliable(Sweep(d, db))
    decreases |db|
  {
    if db != [] {
      hide WellFormed, SweepOne, Ids;
      IdsCons(db);
      OneTurn(d, db[0].id);
      SweepExact(SweepOne(d, db[0].id), db[1..]);
      assert d.files - {db[0].id} - Ids(db[1..]) == d.files - Ids(db);
    } else {
      assert d.files - {} == d.files;
    }
  }

  /** A directory that has entries, all of them swept files, is removed itself. */
  lemma {:induction false} SweepCleansUp(d: Disk, db: Entries, x: Path)
    requires WellFormed(d) && Reliable(d) && x in d.dirs
    requires Children(d, x) != {} && Children(d, x) <= d.files.Keys && Children(d, x) <= Ids(db)
    ensures x !in Sweep(d, db).dirs
    decreases |db|
  {
    var id := db[0].id;
    var d1 := SweepOne(d, id);
    OneTurn(d, id);
    IdsCons(db);
    if Children(d, x) == {id} {
      LastEntry(d, id, x);
      SweepSafe(d1, db[1..]);
    } else {
      StillThere(d, id, x);
      SweepCleansUp(d1, db[1..], x);
    }
  }

  /** As long as another entry is left the directory stays, and loses at most the swept file. */
  lemma StillThere(d: Disk, id: Path, x: Path)
    requires WellFormed(d) && Reliable(d) && x in d.dirs && Children(d, x) != {} && Children(d, x) != {id}
    requires Children(d, x) <= d.files.Keys
    ensures var d1 := SweepOne(d, id);
            x in d1.dirs && Children(d1, x) == Children(d, x) - {id} && Children(d1, x) != {}
  {
    hide HasParent, Parent, Leaf;
    OneTurn(d, id);
    var d1 := SweepOne(d, id);
    var c :| c in Children(d, x) && c != id;
    var d0 := DeleteFile(d, id).0;
    assert c in Children(d0, x);
    assert x in d1.dirs;
    assert Children(d1, x) == Children(d, x) - {id};
  }

  /**
   * For a directory without subdirectories that is the whole story: it goes exactly when it had entries and all were
   * swept.
   */
  lemma CleanUpExactly(d: Disk, db: Entries, x: Path)
    requires WellFormed(d) && Reliable(d) && x in d.dirs && Children(d, x) <= d.files.Keys
    ensures x !in Sweep(d, db).dirs <==> Children(d, x) != {} && Children(d, x) <= Ids(db)
  {
    if Children(d, x) == {} {
      EmptyStays(d, db, x);
    } else if Children(d, x) <= Ids(db) {
      SweepCleansUp(d, db, x);
    } else {
      var c :| c in Children(d, x) && c !in Ids(db);
      SweepExact(d, db);
      SweepSafe(d, db);
      HoldsItsDirectory(Sweep(d, db), c);
    }
  }

  lemma EmptyStays(d: Disk, db: Entries, x: Path)
    requires WellFormed(d) && x in d.dirs && Children(d, x) == {}
    ensures x in Sweep(d, db).dirs
  {
    hide IsChild, Ids;
    SweepSafe(d, db);
    forall p | p in d.files && IsChild(x, p)
      ensures p in Children(d, x)
    {
    }
  }

  lemma HoldsItsDirectory(d: Disk, c: Path)
    requires WellFormed(d) && c in d.files
    ensures HasParent(c) && Parent(c) in d.dirs
  {
    assert Placed(d, c);
  }

  // Which directories go, exactly

  /** No id comes twice, as in any sorted set. */
  ghost predicate IdsDiffer(db: Entries) {
    forall i, j | 0 <= i < j < |db| :: db[i].id != db[j].id
  }

  lemma SortedIdsDiffer(db: Entries)
    requires Sorted(db)
    ensures IdsDiffer(db)
  {
    forall i, j | 0 <= i < j < |db|
      ensures db[i].id != db[j].id
    {
      LessTotal(db[i].id, db[j].id);
    }
  }

  /** Turn k of the sweep deletes a file that lies directly in x. */
  predicate HitsIn(d: Disk, db: Entries, x: Path, k: int) {
    0 <= k < |db| && db[k].id in d.files && IsChild(x, db[k].id)
  }

  /** The last turn that does, -1 when none does. */
  function LastHit(d: Disk, db: Entries, x: Path, upTo: nat): (k: int)
    requires upTo <= |db|
    ensures -1 <= k < upTo && (k >= 0 ==> HitsIn(d, db, x, k))
    ensures forall j | k < j < upTo :: !HitsIn(d, db, x, j)
  {
    if upTo == 0 then -1 else if HitsIn(d, db, x, upTo - 1) then upTo - 1 else LastHit(d, db, x, upTo - 1)
  }

  /**
   * The reference: a directory is looked at only when a file in it is deleted. So it goes if a file in it is swept,
   * all files in it are, and each subdirectory goes too and has its own last file swept before this one's.
   */
  ghost predicate Goes(d: Disk, db: Entries, x: Path)
    decreases DirsBelow(d, x)
  {
    var k := LastHit(d, db, x, |db|);
    && k >= 0
    && (forall c | c in Children(d, x) && c in d.files :: c in Ids(db))
    && (forall c | c in Children(d, x) && c in d.dirs ::
          (SubdirSmaller(d, x, c); Goes(d, db, c)) && LastHit(d, db, c, |db|) < k)
  }

  lemma SubdirSmaller(d: Disk, x: Path, c: Path)
    requires c in Children(d, x) && c in d.dirs
    ensures DirsBelow(d, c) < DirsBelow(d, x)
  {
    SplitJoins(c);
    Smaller(d, x, Leaf(c));
  }

  lemma {:induction false} SweepOneMore(d: Disk, db: Entries, k: nat)
    requires k < |db|
    ensures Sweep(d, db[..k + 1]) == SweepOne(Sweep(d, db[..k]), db[k].id)
    decreases k
  {
    hide SweepOne;
    if k == 0 {
      assert db[..1][1..] == [];
    } else {
      assert db[..k + 1][1..] == db[1..][..k] && db[..k][1..] == db[1..][..k - 1];
      SweepOneMore(SweepOne(d, db[0].id), db[1..], k - 1);
    }
  }

  /** The state before turn k: the files of earlier turns are gone, and the directories whose time had come. */
  ghost predicate SweptTo(d: Disk, db: Entries, k: nat, dk: Disk)
    requires k <= |db|
  {
    && WellFormed(dk) && Reliable(dk) && dk.files == d.files - Ids(db[..k]) && dk.dirs <= d.dirs
    && forall x | x in d.dirs :: x !in dk.dirs <==> Goes(d, db, x) && LastHit(d, db, x, |db|) < k
  }

  lemma IdsUpTo(db: Entries, k: nat, j: nat)
    requires IdsDiffer(db) && k <= |db| && j < |db|
    ensures db[j].id in Ids(db[..k]) <==> j < k
  {
    if j < k {
      assert db[..k][j] == db[j];
    }
    if db[j].id in Ids(db[..k]) {
      var e :| e in db[..k] && e.id == db[j].id;
      var i :| 0 <= i < k && db[..k][i] == e;
      assert db[i].id == db[j].id;
    }
  }

  /** Before turn k, x holds nothing but the file of that turn exactly if this is the turn x waits for. */
  lemma TimeHasCome(d: Disk, db: Entries, k: nat, dk: Disk, x: Path)
    requires WellFormed(d) && IdsDiffer(db) && k < |db| && SweptTo(d, db, k, dk) && x in d.dirs
    ensures db[k].id in dk.files && Children(dk, x) == {db[k].id} <==> Goes(d, db, x) && LastHit(d, db, x, |db|) == k
  {
    hide IsChild, Ids, Goes, SweptTo, Children, WellFormed;
    if db[k].id in dk.files && Children(dk, x) == {db[k].id} {
      OnlyOneLeft(d, db, k, dk, x);
    }
    if Goes(d, db, x) && LastHit(d, db, x, |db|) == k {
      OthersGone(d, db, k, dk, x);
    }
  }

  lemma OthersGone(d: Disk, db: Entries, k: nat, dk: Disk, x: Path)
    requires WellFormed(d) && IdsDiffer(db) && k < |db| && SweptTo(d, db, k, dk) && x in d.dirs
    requires Goes(d, db, x) && LastHit(d, db, x, |db|) == k
    ensures db[k].id in dk.files && Children(dk, x) == {db[k].id}
  {
    hide IsChild, Ids, Goes, WellFormed;
    var id := db[k].id;
    IdsUpTo(db, k, k);
    assert id in Children(dk, x);
    forall c | c in Children(dk, x)
      ensures c == id
    {
      assert c in Children(d, x);
      if c != id {
        if c in dk.files {
          SweptBefore(d, db, k, x, c);
        } else {
          GoesNeedsDirs(d, db, x, c);
        }
      }
    }
  }

  /** Another file of a directory whose last turn is this one is swept already. */
  lemma SweptBefore(d: Disk, db: Entries, k: nat, x: Path, c: Path)
    requires IdsDiffer(db) && k < |db| && Goes(d, db, x) && LastHit(d, db, x, |db|) == k
    requires c in Children(d, x) && c in d.files && c != db[k].id
    ensures c in Ids(db[..k])
  {
    hide DirsBelow, IdsDiffer;
    assert c in Ids(db);
    var e :| e in db && e.id == c;
    var j :| 0 <= j < |db| && db[j] == e;
    assert HitsIn(d, db, x, j);
    IdsUpTo(db, k, j);
  }

  lemma GoesNeedsDirs(d: Disk, db: Entries, x: Path, c: Path)
    requires Goes(d, db, x) && c in Children(d, x) && c in d.dirs
    ensures Goes(d, db, c) && LastHit(d, db, c, |db|) < LastHit(d, db, x, |db|)
  {
    hide DirsBelow, Ids;
  }

  lemma GoesIsHit(d: Disk, db: Entries, x: Path)
    ensures Goes(d, db, x) ==> LastHit(d, db, x, |db|) >= 0
  {
    hide DirsBelow, Ids, Children;
  }

  lemma OnlyOneLeft(d: Disk, db: Entries, k: nat, dk: Disk, x: Path)
    requires WellFormed(d) && IdsDiffer(db) && k < |db| && SweptTo(d, db, k, dk) && x in d.dirs
    requires db[k].id in dk.files && Children(dk, x) == {db[k].id}
    ensures Goes(d, db, x) && LastHit(d, db, x, |db|) == k
  {
    hide IsChild, Ids, Goes, WellFormed, DirsBelow, HitsIn, IdsDiffer;
    var id := db[k].id;
    LastIsNow(d, db, k, dk, x);
    forall c | c in Children(d, x) && c in d.files
      ensures c in Ids(db)
    {
      if c != id {
        assert c !in Children(dk, x);
        EarlierIds(db, k, c);
      } else {
        IdsOf(db, k);
      }
    }
    forall c | c in Children(d, x) && c in d.dirs
      ensures Goes(d, db, c) && LastHit(d, db, c, |db|) < k
    {
      FileIsNoDir(d, id, c);
      assert c !in Children(dk, x);
    }
    GoesIf(d, db, x);
  }

  /** No later turn deletes a file in a directory that holds nothing but this turn's. */
  lemma LastIsNow(d: Disk, db: Entries, k: nat, dk: Disk, x: Path)
    requires IdsDiffer(db) && k < |db| && dk.files == d.files - Ids(db[..k])
    requires db[k].id in dk.files && Children(dk, x) == {db[k].id}
    ensures LastHit(d, db, x, |db|) == k
  {
    hide Ids, IsChild, LastHit, IdsDiffer;
    ChildOf(dk, x, db[k].id);
    var n := LastHit(d, db, x, |db|);
    assert HitsIn(d, db, x, k);
    IdsUpTo(db, k, n);
    ChildOf(dk, x, db[n].id);
    SameIdSameTurn(db, k, n);
  }

  lemma ChildOf(d: Disk, x: Path, p: Path)
    requires p in d.files
    ensures p in Children(d, x) <==> IsChild(x, p)
  {
    hide IsChild;
  }

  lemma SameIdSameTurn(db: Entries, k: nat, n: nat)
    requires IdsDiffer(db) && k < |db| && n < |db|
    ensures db[k].id == db[n].id ==> k == n
  {
  }

  lemma GoesIf(d: Disk, db: Entries, x: Path)
    requires LastHit(d, db, x, |db|) >= 0
    requires forall c | c in Children(d, x) && c in d.files :: c in Ids(db)
    requires forall c | c in Children(d, x) && c in d.dirs ::
               Goes(d, db, c) && LastHit(d, db, c, |db|) < LastHit(d, db, x, |db|)
    ensures Goes(d, db, x)
  {
    hide Ids, DirsBelow, Children;
  }

  lemma FileIsNoDir(d: Disk, p: Path, c: Path)
    requires WellFormed(d) && p in d.files && c in d.dirs
    ensures p != c
  {
  }

  lemma EarlierIds(db: Entries, k: nat, c: Path)
    requires k <= |db| && c in Ids(db[..k])
    ensures c in Ids(db)
  {
  }

  lemma IdsOf(db: Entries, k: nat)
    requires k < |db|
    ensures db[k].id in Ids(db)
  {
  }

  /** One turn removes a directory exactly if the file was the only thing left in it. */
  lemma TurnRemoves(d: Disk, id: Path, x: Path)
    requires WellFormed(d) && Reliable(d) && x in d.dirs
    ensures x !in SweepOne(d, id).dirs <==> id in d.files && Children(d, x) == {id}
  {
    hide HasParent, Parent, Leaf;
    if id in d.files && Children(d, x) == {id} {
      LastEntry(d, id, x);
    } else if id in d.files && IsChild(x, id) {
      assert id in Children(d, x);
      var c :| c in Children(d, x) && c != id;
      assert c in Children(DeleteFile(d, id).0, x);
    }
  }

  lemma {:induction false} SweepsTo(d: Disk, db: Entries, k: nat)
    requires WellFormed(d) && Reliable(d) && IdsDiffer(db) && k <= |db|
    ensures SweptTo(d, db, k, Sweep(d, db[..k]))
    decreases k
  {
    hide WellFormed, Ids, Goes, SweepOne, Children;
    SweepExact(d, db[..k]);
    SweepSafe(d, db[..k]);
    if k == 0 {
      assert db[..0] == [];
      NothingIsNamed(d);
      forall x
        ensures !(Goes(d, db, x) && LastHit(d, db, x, |db|) < 0)
      {
        GoesIsHit(d, db, x);
      }
    } else {
      SweepsTo(d, db, k - 1);
      var before := Sweep(d, db[..k - 1]);
      SweepOneMore(d, db, k - 1);
      OneTurn(before, db[k - 1].id);
      forall x | x in d.dirs
        ensures x !in Sweep(d, db[..k]).dirs <==> Goes(d, db, x) && LastHit(d, db, x, |db|) < k
      {
        TimeHasCome(d, db, k - 1, before, x);
        if x in before.dirs {
          TurnRemoves(before, db[k - 1].id, x);
        }
      }
    }
  }

  lemma NothingIsNamed(d: Disk)
    ensures d.files - Ids([]) == d.files
  {
  }

  /** On any tree, when calls succeed, the directories that go are exactly those the reference says. */
  lemma DirsGoneExactly(d: Disk, db: Entries, x: Path)
    requires WellFormed(d) && Reliable(d) && Sorted(db) && x in d.dirs
    ensures x !in Sweep(d, db).dirs <==> Goes(d, db, x)
  {
    hide Goes, Sweep, Sorted, WellFormed;
    SortedIdsDiffer(db);
    SweepsTo(d, db, |db|);
    assert db[..|db|] == db;
  }

  // RemoveAppProvider

  /** The walk over the provider's menu, then the sweep of what it collected. */
  function RemoveProvider(d: Disk, menu: Path): Disk {
    if menu !in d.dirs then d
    else
      var (d1, db) := Walk(d, [], menu);
      Sweep(d1, db)
  }

  /**
   * When calls succeed: no link is left under the provider's menu, no icon such a link pointed to is left anywhere,
   * and every other file of the disk is as it was.
   */
  lemma ProviderRemoved(d: Disk, menu: Path)
    requires WellFormed(d) && Reliable(d)
    ensures var d' := RemoveProvider(d, menu);
            && WellFormed(d') && LinksBelow(d', menu) == {}
            && d'.files == d.files - (LinksBelow(d, menu) + IconsBelow(d, menu))
            && d'.dirs <= d.dirs - EmptyBelow(d, menu)
  {
    hide IsLnk, Under;
    if menu !in d.dirs {
      NothingBelow(d, menu);
      assert d.files - ({} + {}) == d.files;
    } else {
      WalkAccounts(d, [], menu);
      var (d1, db) := Walk(d, [], menu);
      SweepExact(d1, db);
      SweepSafe(d1, db);
      assert Ids([]) == {};
      assert Ids(db) == LinksBelow(d, menu) + IconsBelow(d, menu);
    }
  }

  /** Whatever fails, only those files can go, and nothing else changes. */
  lemma ProviderRemovalSafe(d: Disk, menu: Path)
    requires WellFormed(d)
    ensures var d' := RemoveProvider(d, menu);
            && WellFormed(d')
            && (forall p | p in d'.files :: p in d.files && d'.files[p] == d.files[p])
            && (forall p | p in d.files && p !in d'.files :: p in LinksBelow(d, menu) + IconsBelow(d, menu))
  {
    hide IsLnk, Under, LinksBelow, IconsBelow, EmptyBelow;
    if menu in d.dirs {
      WalkAccounts(d, [], menu);
      var (d1, db) := Walk(d, [], menu);
      SweepSafe(d1, db);
      assert Ids([]) == {};
    }
  }

  /** A group directory that held nothing but links is gone afterwards. */
  lemma ProviderGroupGone(d: Disk, menu: Path, group: Path)
    requires WellFormed(d) && Reliable(d) && menu in d.dirs
    requires group in d.dirs && InTree(menu, group) && Children(d, group) != {}
    requires forall p | p in Children(d, group) :: p in d.files && IsLnk(p)
    ensures group !in RemoveProvider(d, menu).dirs
  {
    hide IsLnk, HasParent, Parent, Leaf, Ids;
    WalkAccounts(d, [], menu);
    var (d1, db) := Walk(d, [], menu);
    forall p | p in Children(d, group)
      ensures p in Ids(db) && p in d1.files
    {
      UnderChild'(menu, group, p);
    }
    assert Children(d1, group) == Children(d, group) by {
      forall p | p in Children(d1, group)
        ensures p in Children(d, group)
      {
      }
    }
    assert group in d1.dirs;
    SweepCleansUp(d1, db, group);
  }

  lemma UnderChild'(menu: Path, group: Path, p: Path)
    requires InTree(menu, group) && IsChild(group, p)
    ensures Under(menu, p)
  {
    UnderParent(menu, p);
  }
}
