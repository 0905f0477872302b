/** What the walk collects and what it removes, on any finite tree and whatever fails. */
module WalkLaws {
  import opened Paths
  import opened FileEntries
  import opened FileSys
  import opened TreeWalk

  // What lies in a subtree

  function LinksIn(d: Disk, t: Path): set<Path> {
    set p | p in d.files && InTree(t, p) && IsLnk(p)
  }

  /** The icon locations stored in those links. */
  function IconsIn(d: Disk, t: Path): set<Path> {
    set p | p in d.files && InTree(t, p) && IsLnk(p) && d.files[p].Link? :: d.files[p].icon
  }

  function EmptyIn(d: Disk, t: Path): set<Path> {
    set x | x in d.dirs && InTree(t, x) && Children(d, x) == {}
  }

  function LinksBelow(d: Disk, dir: Path): set<Path> {
    set p | p in d.files && Under(dir, p) && IsLnk(p)
  }

  function IconsBelow(d: Disk, dir: Path): set<Path> {
    set p | p in d.files && Under(dir, p) && IsLnk(p) && d.files[p].Link? :: d.files[p].icon
  }

  function EmptyBelow(d: Disk, dir: Path): set<Path> {
    set x | x in d.dirs && Under(dir, x) && Children(d, x) == {}
  }

  /**
   * The account of a walk from (d, db) to (d', db') that was to collect `links` and `icons` and to remove `empty`:
   * links are always collected; icons that could not be read and removals that failed are missing, nothing else is.
   */
  ghost predicate Accounts(d: Disk, db: Entries, d': Disk, db': Entries, links: set<Path>, icons: set<Path>,
      empty: set<Path>) {
    && d'.files == d.files
    && d.dirs - empty <= d'.dirs <= d.dirs
    && WellFormed(d') && Sorted(db')
    && Ids(db) + links <= Ids(db') <= Ids(db) + links + icons
    && (Reliable(d) ==> Reliable(d') && d'.dirs == d.dirs - empty && Ids(db') == Ids(db) + links + icons)
  }

  lemma AccountsNothing(d: Disk, db: Entries)
    requires WellFormed(d) && Sorted(db)
    ensures Accounts(d, db, d, db, {}, {}, {})
  {
  }

  lemma AccountsAdd(d: Disk, db: Entries, d1: Disk, db1: Entries, d2: Disk, db2: Entries,
                    l1: set<Path>, i1: set<Path>, e1: set<Path>, l2: set<Path>, i2: set<Path>, e2: set<Path>)
    requires Accounts(d, db, d1, db1, l1, i1, e1) && Accounts(d1, db1, d2, db2, l2, i2, e2)
    ensures Accounts(d, db, d2, db2, l1 + l2, i1 + i2, e1 + e2)
  {
    hide WellFormed, Sorted, Ids;
  }

  // One entry

  lemma LinkAccounts(d: Disk, db: Entries, p: Path)
    requires WellFormed(d) && Sorted(db) && p in d.files
    ensures var (d', db') := AddLink(d, db, p);
            Accounts(d, db, d', db', {p}, if d.files[p].Link? then {d.files[p].icon} else {}, {})
  {
    hide Insert, Ids, Sorted, Less;
    InsertSorted(db, Bare(p));
    var (d', icon) := LoadIcon(d, p);
    if icon.Some? {
      InsertSorted(Insert(db, Bare(p)), Bare(icon.value));
    }
    assert WellFormed(d') by {
      SameTree(d, d');
    }
  }

  lemma SameTree(d: Disk, d': Disk)
    requires WellFormed(d) && d'.files == d.files && d'.dirs == d.dirs
    ensures WellFormed(d')
  {
    hide HasParent, Parent, Leaf;
    forall p | p in d'.dirs
      ensures Placed(d', p)
    {
      assert Placed(d, p);
    }
    forall p | p in d'.files
      ensures HasParent(p) && Placed(d', p)
    {
      assert Placed(d, p);
    }
  }

  lemma EmptyAccounts(d: Disk, db: Entries, p: Path)
    requires WellFormed(d) && Sorted(db) && IsEmpty(d, p)
    ensures Accounts(d, db, RemoveDir(d, p).0, db, {}, {}, {p})
  {
    RemoveDirKeepsWellFormed(d, p);
  }

  // Below a file or an empty directory there is nothing, and everything below a directory is below one of its children

  lemma {:induction false} AncestorsExist(d: Disk, dir: Path, p: Path)
    requires WellFormed(d) && Exists(d, p) && Under(dir, p)
    ensures dir in d.dirs && Children(d, dir) != {}
    decreases |p|
  {
    UnderParent(dir, p);
    assert Placed(d, p);
    if Parent(p) == dir {
      assert p in Children(d, dir);
    } else {
      AncestorsExist(d, dir, Parent(p));
    }
  }

  lemma {:induction false} TopChild(d: Disk, dir: Path, p: Path) returns (c: Path)
    requires WellFormed(d) && Exists(d, p) && Under(dir, p)
    ensures c in Children(d, dir) && InTree(c, p)
    decreases |p|
  {
    UnderParent(dir, p);
    assert Placed(d, p);
    if Parent(p) == dir {
      c := p;
    } else {
      c := TopChild(d, dir, Parent(p));
      UnderParent(c, p);
    }
  }

  lemma LeafSubtree(d: Disk, p: Path)
    requires WellFormed(d) && (p in d.files || IsEmpty(d, p))
    ensures forall q | Exists(d, q) && InTree(p, q) :: q == p
  {
    forall q | Exists(d, q) && InTree(p, q)
      ensures q == p
    {
      if q != p {
        AncestorsExist(d, p, q);
      }
    }
  }

  /** The subtree at a file or an empty directory, as sets. */
  lemma LeafSets(d: Disk, p: Path)
    requires WellFormed(d)
    ensures p in d.files ==> EmptyIn(d, p) == {} && LinksIn(d, p) == (if IsLnk(p) then {p} else {})
                             && IconsIn(d, p) == (if IsLnk(p) && d.files[p].Link? then {d.files[p].icon} else {})
    ensures IsEmpty(d, p) ==> EmptyIn(d, p) == {p} && LinksIn(d, p) == {} && IconsIn(d, p) == {}
  {
    hide IsLnk, InTree, HasParent, Parent, Leaf;
    assert InTree(p, p) by {
      SelfInTree(p);
    }
    if p in d.files || IsEmpty(d, p) {
      LeafSubtree(d, p);
      forall x | x in EmptyIn(d, p)
        ensures x == p
      {
        assert Exists(d, x);
      }
      forall x | x in LinksIn(d, p)
        ensures x == p
      {
        assert Exists(d, x);
      }
    }
  }

  lemma SelfInTree(p: Path)
    ensures InTree(p, p)
  {
  }

  lemma NonEmptyDir(d: Disk, p: Path)
    requires WellFormed(d) && p in d.dirs && !IsEmpty(d, p)
    ensures EmptyIn(d, p) == EmptyBelow(d, p) && LinksIn(d, p) == LinksBelow(d, p) && IconsIn(d, p) == IconsBelow(d, p)
  {
    hide IsLnk, HasParent, Parent, Leaf, Under;
  }

  // A directory is its children

  function LinksOf(d: Disk, ps: seq<Path>): set<Path> {
    if ps == [] then {} else LinksIn(d, ps[0]) + LinksOf(d, ps[1..])
  }

  function IconsOf(d: Disk, ps: seq<Path>): set<Path> {
    if ps == [] then {} else IconsIn(d, ps[0]) + IconsOf(d, ps[1..])
  }

  function EmptyOf(d: Disk, ps: seq<Path>): set<Path> {
    if ps == [] then {} else EmptyIn(d, ps[0]) + EmptyOf(d, ps[1..])
  }

  lemma {:induction false} OfMembers(d: Disk, ps: seq<Path>, x: Path)
    ensures x in LinksOf(d, ps) <==> exists c :: c in ps && x in LinksIn(d, c)
    ensures x in IconsOf(d, ps) <==> exists c :: c in ps && x in IconsIn(d, c)
    ensures x in EmptyOf(d, ps) <==> exists c :: c in ps && x in EmptyIn(d, c)
    decreases |ps|
  {
    hide LinksIn, IconsIn, EmptyIn;
    if ps != [] {
      OfMembers(d, ps[1..], x);
      assert ps == [ps[0]] + ps[1..];
    }
  }

  lemma BelowIsChildren(d: Disk, dir: Path)
    requires WellFormed(d)
    ensures var ps := Ordered(Children(d, dir));
            LinksBelow(d, dir) == LinksOf(d, ps) && IconsBelow(d, dir) == IconsOf(d, ps)
                && EmptyBelow(d, dir) == EmptyOf(d, ps)
  {
    hide IsLnk, Ordered;
    var ps := Ordered(Children(d, dir));
    forall x
      ensures x in LinksBelow(d, dir) <==> x in LinksOf(d, ps)
    {
      OfMembers(d, ps, x);
      if x in LinksBelow(d, dir) {
        var c := TopChild(d, dir, x);
        assert x in LinksIn(d, c);
      }
      if x in LinksOf(d, ps) {
        var c :| c in ps && x in LinksIn(d, c);
        UnderChild(dir, c, x);
      }
    }
    forall x
      ensures x in EmptyBelow(d, dir) <==> x in EmptyOf(d, ps)
    {
      OfMembers(d, ps, x);
      if x in EmptyBelow(d, dir) {
        var c := TopChild(d, dir, x);
        assert x in EmptyIn(d, c);
      }
      if x in EmptyOf(d, ps) {
        var c :| c in ps && x in EmptyIn(d, c);
        UnderChild(dir, c, x);
      }
    }
    forall i
      ensures i in IconsBelow(d, dir) <==> i in IconsOf(d, ps)
    {
      OfMembers(d, ps, i);
      if i in IconsBelow(d, dir) {
        var x :| x in d.files && Under(dir, x) && IsLnk(x) && d.files[x].Link? && d.files[x].icon == i;
        var c := TopChild(d, dir, x);
        assert i in IconsIn(d, c);
      }
      if i in IconsOf(d, ps) {
        var c :| c in ps && i in IconsIn(d, c);
        var x :| x in d.files && InTree(c, x) && IsLnk(x) && d.files[x].Link? && d.files[x].icon == i;
        UnderChild(dir, c, x);
      }
    }
  }

  lemma UnderChild(dir: Path, c: Path, x: Path)
    requires IsChild(dir, c) && InTree(c, x)
    ensures Under(dir, x)
  {
    UnderParent(dir, c);
    UnderTransitive(dir, c, x);
  }

  // What happens in one child's subtree does not concern another's

  lemma Elsewhere(d: Disk, d1: Disk, dir: Path, p: Path, q: Path)
    requires d1.files == d.files && d.dirs - EmptyIn(d, p) <= d1.dirs <= d.dirs
    requires IsChild(dir, p) && IsChild(dir, q) && p != q
    ensures q in d.dirs <==> q in d1.dirs
    ensures LinksIn(d1, q) == LinksIn(d, q) && IconsIn(d1, q) == IconsIn(d, q) && EmptyIn(d1, q) == EmptyIn(d, q)
  {
    hide InTree, IsLnk, HasParent, Parent, Leaf;
    forall x | x in d.dirs && InTree(q, x)
      ensures x in d1.dirs && Children(d1, x) == Children(d, x)
    {
      NotInSibling(d, dir, p, q, x);
      forall c | c in Children(d, x)
        ensures c in Children(d1, x)
      {
        ChildInTree(q, x, c);
        NotInSibling(d, dir, p, q, c);
      }
    }
    if q in d.dirs {
      SelfInTree(q);
    }
  }

  lemma ChildInTree(q: Path, x: Path, c: Path)
    requires InTree(q, x) && IsChild(x, c)
    ensures InTree(q, c)
  {
    UnderParent(q, c);
  }

  lemma NotInSibling(d: Disk, dir: Path, p: Path, q: Path, x: Path)
    requires IsChild(dir, p) && IsChild(dir, q) && p != q && InTree(q, x)
    ensures x !in EmptyIn(d, p)
  {
    if x in EmptyIn(d, p) {
      SiblingsApart(dir, p, q, x);
    }
  }

  lemma {:induction false} AllElsewhere(d: Disk, d1: Disk, dir: Path, p: Path, qs: seq<Path>)
    requires d1.files == d.files && d.dirs - EmptyIn(d, p) <= d1.dirs <= d.dirs
    requires IsChild(dir, p) && forall i | 0 <= i < |qs| :: IsChild(dir, qs[i]) && qs[i] != p
    ensures Found(d1, qs) == Found(d, qs)
    ensures LinksOf(d1, qs) == LinksOf(d, qs) && IconsOf(d1, qs) == IconsOf(d, qs) && EmptyOf(d1, qs) == EmptyOf(d, qs)
    decreases |qs|
  {
    hide EmptyIn, LinksIn, IconsIn, IsChild;
    if qs != [] {
      Elsewhere(d, d1, dir, p, qs[0]);
      AllElsewhere(d, d1, dir, p, qs[1..]);
    }
  }

  // The walk

  lemma WalkAccounts(d: Disk, db: Entries, dir: Path)
    requires WellFormed(d) && Sorted(db)
    ensures var (d', db') := Walk(d, db, dir);
            Accounts(d, db, d', db', LinksBelow(d, dir), IconsBelow(d, dir), EmptyBelow(d, dir))
    decreases DirsBelow(d, dir), 1, 0
  {
    hide Accounts, WellFormed, Sorted, IsLnk, Under;
    if dir !in d.dirs {
      NothingBelow(d, dir);
      AccountsNothing(d, db);
      ZeroEntry(d, db, dir);
    } else {
      var ps := Ordered(Children(d, dir));
      OrderedDistinct(Children(d, dir));
      DotEntries(d, db, dir, Found(d, ps));
      assert forall i | 0 <= i < |ps| :: ps[i] in ps;
      EntriesAccounts(d, db, dir, ps);
      BelowIsChildren(d, dir);
    }
  }

  lemma NothingBelow(d: Disk, dir: Path)
    requires WellFormed(d) && dir !in d.dirs
    ensures LinksBelow(d, dir) == {} && IconsBelow(d, dir) == {} && EmptyBelow(d, dir) == {}
  {
    forall p | Exists(d, p)
      ensures !Under(dir, p)
    {
      if Under(dir, p) {
        AncestorsExist(d, dir, p);
      }
    }
  }

  lemma ZeroEntry(d: Disk, db: Entries, dir: Path)
    ensures WalkEntries(d, db, dir, [FindData([], false)]) == (d, db)
  {
  }

  lemma DotEntries(d: Disk, db: Entries, dir: Path, es: seq<FindData>)
    ensures WalkEntries(d, db, dir, [FindData([DOT], true), FindData(DOTS, true)] + es) == WalkEntries(d, db, dir, es)
  {
    var all := [FindData([DOT], true), FindData(DOTS, true)] + es;
    var some := [FindData(DOTS, true)] + es;
    assert all[1..] == some && some[1..] == es;
    assert WalkEntry(d, db, dir, all[0]) == (d, db) && WalkEntry(d, db, dir, some[0]) == (d, db);
    assert WalkEntries(d, db, dir, all) == WalkEntries(d, db, dir, some);
  }

  lemma EntryAccounts(d: Disk, db: Entries, dir: Path, p: Path)
    requires WellFormed(d) && Sorted(db) && p in Children(d, dir)
    ensures var (d', db') := WalkEntry(d, db, dir, FindData(Leaf(p), p in d.dirs));
            Accounts(d, db, d', db', LinksIn(d, p), IconsIn(d, p), EmptyIn(d, p))
    decreases DirsBelow(d, dir), 0, 0
  {
    hide Accounts, Sorted, LinksIn, IconsIn, EmptyIn, LinksBelow, IconsBelow, EmptyBelow, AddLink, RemoveDir;
    SplitJoins(p);
    LeafSets(d, p);
    assert Placed(d, p);
    if p in d.dirs {
      if IsEmpty(d, p) {
        EmptyAccounts(d, db, p);
      } else {
        NonEmptyDir(d, p);
        Smaller(d, dir, Leaf(p));
        WalkAccounts(d, db, p);
      }
    } else if IsLnk(p) {
      LinkAccounts(d, db, p);
    } else {
      AccountsNothing(d, db);
    }
  }

  /** Children of one directory, each named once. */
  ghost predicate Siblings(d: Disk, dir: Path, ps: seq<Path>) {
    && (forall i | 0 <= i < |ps| :: ps[i] in Children(d, dir))
    && (forall i, j | 0 <= i < j < |ps| :: ps[i] != ps[j])
  }

  lemma SiblingsRest(d: Disk, dir: Path, ps: seq<Path>)
    requires ps != [] && Siblings(d, dir, ps)
    ensures IsChild(dir, ps[0]) && Siblings(d, dir, ps[1..])
    ensures forall i | 0 <= i < |ps[1..]| :: IsChild(dir, ps[1..][i]) && ps[1..][i] != ps[0]
  {
    hide IsChild;
    var rest := ps[1..];
    assert forall i | 0 <= i < |rest| :: rest[i] == ps[i + 1];
  }

  lemma SiblingsStay(d: Disk, d1: Disk, dir: Path, p: Path, qs: seq<Path>)
    requires d1.files == d.files && d.dirs - EmptyIn(d, p) <= d1.dirs <= d.dirs
    requires IsChild(dir, p) && Siblings(d, dir, qs) && forall i | 0 <= i < |qs| :: IsChild(dir, qs[i]) && qs[i] != p
    ensures Siblings(d1, dir, qs)
  {
    hide IsChild, EmptyIn, LinksIn, IconsIn;
    forall i | 0 <= i < |qs|
      ensures qs[i] in Children(d1, dir)
    {
      Elsewhere(d, d1, dir, p, qs[i]);
    }
  }

  /** After one child is done the others are still children, and hold what they held. */
  lemma OneChildDone(d: Disk, db: Entries, d1: Disk, db1: Entries, dir: Path, ps: seq<Path>)
    requires ps != [] && Accounts(d, db, d1, db1, LinksIn(d, ps[0]), IconsIn(d, ps[0]), EmptyIn(d, ps[0]))
    requires Siblings(d, dir, ps)
    ensures WellFormed(d1) && Sorted(db1) && DirsBelow(d1, dir) <= DirsBelow(d, dir)
    ensures Siblings(d1, dir, ps[1..])
    ensures Found(d, ps)[1..] == Found(d1, ps[1..])
    ensures LinksOf(d1, ps[1..]) == LinksOf(d, ps[1..]) && IconsOf(d1, ps[1..]) == IconsOf(d, ps[1..])
    ensures EmptyOf(d1, ps[1..]) == EmptyOf(d, ps[1..])
  {
    hide WellFormed, Sorted, LinksIn, IconsIn, EmptyIn, IsChild, Siblings, Ids, LinksOf, IconsOf, EmptyOf;
    SiblingsRest(d, dir, ps);
    AllElsewhere(d, d1, dir, ps[0], ps[1..]);
    SiblingsStay(d, d1, dir, ps[0], ps[1..]);
    FoundRest(d, ps);
  }

  lemma FoundRest(d: Disk, ps: seq<Path>)
    requires ps != []
    ensures Found(d, ps)[1..] == Found(d, ps[1..])
  {
  }

  /** The loop and the sets it accounts for, taken apart at the first child. */
  lemma FirstChild(d: Disk, db: Entries, dir: Path, ps: seq<Path>)
    requires ps != [] && Siblings(d, dir, ps)
    ensures ps[0] in Children(d, dir)
    ensures var (d1, db1) := WalkEntry(d, db, dir, FindData(Leaf(ps[0]), ps[0] in d.dirs));
            WalkEntries(d, db, dir, Found(d, ps)) == WalkEntries(d1, db1, dir, Found(d, ps)[1..])
    ensures LinksOf(d, ps) == LinksIn(d, ps[0]) + LinksOf(d, ps[1..])
    ensures IconsOf(d, ps) == IconsIn(d, ps[0]) + IconsOf(d, ps[1..])
    ensures EmptyOf(d, ps) == EmptyIn(d, ps[0]) + EmptyOf(d, ps[1..])
  {
    hide WalkEntry, LinksIn, IconsIn, EmptyIn;
  }

  lemma EntriesAccounts(d: Disk, db: Entries, dir: Path, ps: seq<Path>)
    requires WellFormed(d) && Sorted(db)
    requires Siblings(d, dir, ps)
    ensures var (d', db') := WalkEntries(d, db, dir, Found(d, ps));
            Accounts(d, db, d', db', LinksOf(d, ps), IconsOf(d, ps), EmptyOf(d, ps))
    decreases DirsBelow(d, dir), 0, |ps|
  {
    hide WellFormed, Sorted, LinksIn, IconsIn, EmptyIn, IsChild, WalkEntry, Accounts, Children, DirsBelow;
    if ps == [] {
      AccountsNothing(d, db);
    } else {
      hide WalkEntries, LinksOf, IconsOf, EmptyOf, Found, Siblings;
      FirstChild(d, db, dir, ps);
      EntryAccounts(d, db, dir, ps[0]);
      var (d1, db1) := WalkEntry(d, db, dir, FindData(Leaf(ps[0]), ps[0] in d.dirs));
      OneChildDone(d, db, d1, db1, dir, ps);
      EntriesAccounts(d1, db1, dir, ps[1..]);
      var (d2, db2) := WalkEntries(d1, db1, dir, Found(d1, ps[1..]));
      AccountsAdd(d, db, d1, db1, d2, db2, LinksIn(d, ps[0]), IconsIn(d, ps[0]), EmptyIn(d, ps[0]),
                  LinksOf(d1, ps[1..]), IconsOf(d1, ps[1..]), EmptyOf(d1, ps[1..]));
    }
  }
}
