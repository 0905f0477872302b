/** When exactly a folder is in the X server's font path, and what each event does to folders and font path. */
module FontPathLaws {
  import opened FontMonitor

  // Adding a tree

  /** The directories of a tree that X is told about: those with a readable fonts.dir, when `xset +fp` succeeds. */
  function Audible(path: Path, dir: Dir): set<Path>
    decreases dir, 1
  {
    (if dir.probe.fontsDir && dir.probe.addOk then {path} else {}) + AudibleOf(path, dir.kids)
  }

  function AudibleOf(path: Path, kids: seq<Kid>): set<Path>
    decreases kids, 0
  {
    if kids == [] then {} else Audible(path + [kids[0].name], kids[0].dir) + AudibleOf(path, kids[1..])
  }

  lemma AudibleInTree(path: Path, dir: Dir)
    ensures Audible(path, dir) <= Tree(path, dir)
    decreases dir, 1
  {
    AudibleInTreeOf(path, dir.kids);
  }

  lemma AudibleInTreeOf(path: Path, kids: seq<Kid>)
    ensures AudibleOf(path, kids) <= TreeOf(path, kids)
    decreases kids, 0
  {
    if kids != [] {
      AudibleInTree(path + [kids[0].name], kids[0].dir);
      AudibleInTreeOf(path, kids[1..]);
    }
  }

  /**
   * Below a path there is nothing but what begins with it; below it through a list of entries, with one of their
   * names.
   */
  lemma TreeBelow(path: Path, dir: Dir)
    ensures forall p | p in Tree(path, dir) :: path <= p
    decreases dir, 1
  {
    TreeOfBelow(path, dir.kids);
  }

  lemma TreeOfBelow(path: Path, kids: seq<Kid>)
    ensures forall p | p in TreeOf(path, kids) ::
              path < p && exists i :: 0 <= i < |kids| && kids[i].name == p[|path|]
    decreases kids, 0
  {
    if kids != [] {
      TreeBelow(path + [kids[0].name], kids[0].dir);
      TreeOfBelow(path, kids[1..]);
      forall p | p in TreeOf(path, kids)
        ensures path < p && exists i :: 0 <= i < |kids| && kids[i].name == p[|path|]
      {
        if p in Tree(path + [kids[0].name], kids[0].dir) {
          var sub := path + [kids[0].name];
          assert path <= sub <= p && p[|path|] == sub[|path|] == kids[0].name;
        } else {
          var i :| 0 <= i < |kids[1..]| && kids[1..][i].name == p[|path|];
          assert kids[i + 1].name == p[|path|];
        }
      }
    }
  }

  /** Entries of different names have nothing below them in common. */
  lemma FirstKidApart(path: Path, kids: seq<Kid>)
    requires kids != [] && forall i, j | 0 <= i < j < |kids| :: kids[i].name != kids[j].name
    ensures Tree(path + [kids[0].name], kids[0].dir) !! TreeOf(path, kids[1..])
    ensures path !in TreeOf(path, kids)
  {
    var sub := path + [kids[0].name];
    TreeBelow(sub, kids[0].dir);
    TreeOfBelow(path, kids[1..]);
    TreeOfBelow(path, kids);
    forall p | p in TreeOf(path, kids[1..])
      ensures !(sub <= p)
    {
      var i :| 0 <= i < |kids[1..]| && kids[1..][i].name == p[|path|];
      assert kids[i + 1].name == p[|path|] && sub[|path|] == kids[0].name;
    }
  }

  /**
   * What adding a fresh tree does: exactly its directories are tracked, exactly the audible ones are in the font
   * path.
   */
  ghost predicate Gained(s: State, s': State, tree: set<Path>, audible: set<Path>) {
    && s'.folders.Keys == s.folders.Keys + tree
    && (forall p | p in s.folders && p !in tree :: s'.folders[p] == s.folders[p])
    && (forall p | p in tree :: s'.folders[p].added <==> p in audible)
    && s'.x == s.x + audible && s'.leaked == s.leaked
  }

  lemma GainedBoth(s: State, s1: State, s2: State, t1: set<Path>, a1: set<Path>, t2: set<Path>, a2: set<Path>)
    requires Gained(s, s1, t1, a1) && Gained(s1, s2, t2, a2) && t1 !! t2 && a1 <= t1 && a2 <= t2
    ensures Gained(s, s2, t1 + t2, a1 + a2)
  {
  }

  lemma RootGained(s: State, path: Path, dir: Dir)
    requires path !in s.folders && dir.probe.dupOk && dir.probe.watch >= 0
    ensures var (s1, f) := Create(s, path, dir.probe);
            f.wd >= 0 && Gained(s, s1.(folders := s1.folders[path := f]), {path},
                                if dir.probe.fontsDir && dir.probe.addOk then {path} else {})
  {
  }

  /**
   * Adding a fresh tree whose watches succeed: the X server gains exactly the paths of the directories with a readable
   * fonts.dir for which `xset +fp` succeeded, and exactly those folders are flagged.
   */
  lemma AddGains(s: State, path: Path, dir: Dir)
    requires Distinct(dir) && AllWatchable(dir) && !(path <= MOUNT_FONTS) && Tree(path, dir) !! s.folders.Keys
    ensures Gained(s, Add(s, path, dir), Tree(path, dir), Audible(path, dir))
    decreases dir, 1
  {
    assert path in Tree(path, dir);
    var (s1, f) := Create(s, path, dir.probe);
    var s2 := s1.(folders := s1.folders[path := f]);
    RootGained(s, path, dir);
    NotAboveItself(path, dir.kids);
    AddAllGains(s2, path, dir.kids);
    AudibleInTreeOf(path, dir.kids);
    GainedBoth(s, s2, AddAll(s2, path, dir.kids), {path},
               if dir.probe.fontsDir && dir.probe.addOk then {path} else {},
               TreeOf(path, dir.kids), AudibleOf(path, dir.kids));
  }

  lemma NotAboveItself(path: Path, kids: seq<Kid>)
    ensures path !in TreeOf(path, kids)
  {
    TreeOfBelow(path, kids);
  }

  lemma AddAllGains(s: State, path: Path, kids: seq<Kid>)
    requires forall i, j | 0 <= i < j < |kids| :: kids[i].name != kids[j].name
    requires forall i | 0 <= i < |kids| :: Distinct(kids[i].dir) && AllWatchable(kids[i].dir)
    requires !(path <= MOUNT_FONTS) && TreeOf(path, kids) !! s.folders.Keys
    ensures Gained(s, AddAll(s, path, kids), TreeOf(path, kids), AudibleOf(path, kids))
    decreases kids, 0
  {
    if kids != [] {
      hide Gained, Add, Distinct, AllWatchable;
      var sub := path + [kids[0].name];
      assert path <= sub;
      AddGains(s, sub, kids[0].dir);
      var s1 := Add(s, sub, kids[0].dir);
      FirstKidApart(path, kids);
      KeysGained(s, s1, Tree(sub, kids[0].dir), Audible(sub, kids[0].dir));
      AddAllGains(s1, path, kids[1..]);
      AudibleInTree(sub, kids[0].dir);
      AudibleInTreeOf(path, kids[1..]);
      GainedBoth(s, s1, AddAll(s1, path, kids[1..]), Tree(sub, kids[0].dir), Audible(sub, kids[0].dir),
                 TreeOf(path, kids[1..]), AudibleOf(path, kids[1..]));
    } else {
      NothingGained(s);
    }
  }

  lemma KeysGained(s: State, s': State, tree: set<Path>, audible: set<Path>)
    requires Gained(s, s', tree, audible)
    ensures s'.folders.Keys == s.folders.Keys + tree
  {
  }

  lemma NothingGained(s: State)
    ensures Gained(s, s, {}, {})
  {
  }

  /** The same for the mount folder: itself, and of what is in it the X11 subtree alone. */
  lemma AddMountGains(s: State, dir: Dir, i: nat)
    requires Distinct(dir) && dir.probe.dupOk && dir.probe.watch >= 0 && MOUNT_FONTS !in s.folders
    requires i < |dir.kids| && dir.kids[i].name == X11 && AllWatchable(dir.kids[i].dir)
    requires Tree(MOUNT_FONTS + [X11], dir.kids[i].dir) !! s.folders.Keys
    ensures Gained(s, Add(s, MOUNT_FONTS, dir), {MOUNT_FONTS} + Tree(MOUNT_FONTS + [X11], dir.kids[i].dir),
                   (if dir.probe.fontsDir && dir.probe.addOk then {MOUNT_FONTS} else {})
                   + Audible(MOUNT_FONTS + [X11], dir.kids[i].dir))
  {
    var (x11, kid) := (MOUNT_FONTS + [X11], dir.kids[i].dir);
    var (s1, f) := Create(s, MOUNT_FONTS, dir.probe);
    var s2 := s1.(folders := s1.folders[MOUNT_FONTS := f]);
    RootGained(s, MOUNT_FONTS, dir);
    TreeBelow(x11, kid);
    AddGains(s2, x11, kid);
    OnlyX11(s2, dir.kids, i);
    AudibleInTree(x11, kid);
    GainedBoth(s, s2, Add(s2, x11, kid), {MOUNT_FONTS},
               if dir.probe.fontsDir && dir.probe.addOk then {MOUNT_FONTS} else {}, Tree(x11, kid), Audible(x11, kid));
  }

  lemma OnlyX11(s: State, kids: seq<Kid>, i: nat)
    requires forall j, k | 0 <= j < k < |kids| :: kids[j].name != kids[k].name
    requires i < |kids| && kids[i].name == X11
    ensures AddX11(s, MOUNT_FONTS, kids) == Add(s, MOUNT_FONTS + [X11], kids[i].dir)
    decreases kids
  {
    hide Add;
    if i > 0 {
      OnlyX11(s, kids[1..], i - 1);
    }
  }

  /**
   * A folder that cannot be watched is not tracked; if it was added to the font path and the `-fp` of the dropped
   * object fails as well, its path stays in the X server with no folder to remove it.
   */
  lemma UnwatchedFolder(s: State, path: Path, dir: Dir)
    requires path !in s.folders && path !in s.x && !(dir.probe.dupOk && dir.probe.watch >= 0)
    ensures var (s', p) := (Add(s, path, dir), dir.probe);
            && s'.folders == s.folders
            && s'.x - {path} == s.x && (path in s'.x <==> p.fontsDir && p.addOk && !p.dropOk)
            && (path in s'.x ==> path in s'.leaked)
  {
  }

  // Events

  /**
   * A fonts.dir that comes or is written puts its folder into the font path, if it can be read and xset succeeds; one
   * that goes takes the folder out, if xset succeeds. In every other case nothing changes at all.
   */
  lemma FontsDirExactly(s: State, at: Path, kind: Kind, readable: bool, ok: bool)
    requires Agrees(s) && at in s.folders
    ensures var s' := FontsDirEvent(s, at, kind, readable, ok);
            var comes := kind.Created? || kind.CloseWrite? || kind.MovedTo?;
            var goes := kind.Deleted? || kind.MovedFrom?;
            && s'.folders.Keys == s.folders.Keys
            && (forall p | p in s.folders && p != at :: s'.folders[p] == s.folders[p])
            && s'.x - {at} == s.x - {at}
            && (comes && readable && ok ==> at in s'.x && s'.folders[at].added)
            && (goes && ok ==> !s'.folders[at].added && (at in s'.x ==> at in s.leaked))
            && (!ok || (comes && !readable) || (!comes && !goes) ==> s' == s)
  {
    FontsDirAgrees(s, at, kind, readable, ok);
    var s' := FontsDirEvent(s, at, kind, readable, ok);
    assert s.folders[at].added <==> at in Added(s.folders);
    if !ok || !(kind.Created? || kind.CloseWrite? || kind.MovedTo? || kind.Deleted? || kind.MovedFrom?) {
      assert s'.folders == s.folders;
    }
  }

  /**
   * A directory that comes into a watched one is added with all that is reachable in it, except that of the mount
   * folder only X11 is; one that goes is dropped, alone; anything else changes nothing.
   */
  lemma FolderEventExactly(s: State, at: Path, kind: Kind, name: string, dir: Dir, dropOk: bool)
    requires Distinct(dir) && InScope(at) && Agrees(s)
    ensures var (s', sub) := (FolderEvent(s, at, kind, name, dir, dropOk), at + [name]);
            if kind == Created || kind == MovedTo then
              if at == MOUNT_FONTS && name != "X11" then s' == s
              else s'.folders.Keys == s.folders.Keys + Reach(s.folders.Keys, sub, dir)
            else if kind == Deleted || kind == MovedFrom then
              && s'.folders == s.folders - {sub}
              && (dropOk && sub in s.folders ==> s'.leaked <= s.leaked && s'.x - {sub} == s.x - {sub}
                                                 && (sub in s'.x ==> sub in s.leaked))
            else s' == s
  {
    var sub := at + [name];
    if kind == Created || kind == MovedTo {
      if at != MOUNT_FONTS || name == X11 {
        assert |sub| > |MOUNT_FONTS|;
        AddCoversExactly(s, sub, dir);
      }
    } else if kind == Deleted || kind == MovedFrom {
      RemoveAgrees(s, sub, dropOk);
      if sub in s.folders {
        assert s.folders[sub].added <==> sub in Added(s.folders);
        assert s.folders[sub].path == sub;
      } else {
        assert s.folders - {sub} == s.folders;
      }
    }
  }

  // The order in which the loop over the map comes to the folders

  lemma {:induction false} TextJoins(p: Path, q: Path)
    ensures Text(p + q) == Text(p) + Text(q)
    ensures forall name :: Text([name]) == "/" + name
    decreases |p|
  {
    if p == [] {
      assert p + q == q;
    } else {
      TextJoins(p[1..], q);
      assert (p + q)[1..] == p[1..] + q;
      assert "/" + p[0] + (Text(p[1..]) + Text(q)) == "/" + p[0] + Text(p[1..]) + Text(q);
    }
    assert forall name: string :: [name][1..] == [];
  }

  predicate DiffersAt(a: string, b: string, n: nat) {
    n <= |a| && n < |b| && a[..n] == b[..n] && (n < |a| ==> a[n] != b[n])
  }

  /** At the first difference the smaller character, or the end, comes first. */
  ghost predicate Precedes(a: string, b: string) {
    exists n: nat :: DiffersAt(a, b, n) && (n == |a| || a[n] < b[n])
  }

  lemma {:induction false} BeforeExactly(a: string, b: string)
    ensures Before(a, b) <==> Precedes(a, b)
    decreases |a|
  {
    if b != "" && a == "" {
      assert DiffersAt(a, b, 0);
    } else if b != "" && a[0] != b[0] {
      assert a[..0] == b[..0] && DiffersAt(a, b, 0);
      forall n: nat | 0 < n <= |a| && n <= |b|
        ensures a[..n] != b[..n]
      {
        assert a[..n][0] != b[..n][0];
      }
    } else if b != "" {
      BeforeExactly(a[1..], b[1..]);
      forall n: nat | DiffersAt(a[1..], b[1..], n)
        ensures DiffersAt(a, b, n + 1)
      {
        assert a[..n + 1] == [a[0]] + a[1..][..n] && b[..n + 1] == [b[0]] + b[1..][..n];
      }
      forall n: nat | DiffersAt(a, b, n)
        ensures n > 0 && DiffersAt(a[1..], b[1..], n - 1)
      {
        assert a[1..][..n - 1] == a[..n][1..] && b[1..][..n - 1] == b[..n][1..];
      }
      if Precedes(a[1..], b[1..]) {
        var n: nat :| DiffersAt(a[1..], b[1..], n) && (n == |a[1..]| || a[1..][n] < b[1..][n]);
        assert DiffersAt(a, b, n + 1);
      }
      if Precedes(a, b) {
        var n: nat :| DiffersAt(a, b, n) && (n == |a| || a[n] < b[n]);
        assert DiffersAt(a[1..], b[1..], n - 1);
      }
    }
  }
}
