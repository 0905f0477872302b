/** WSLGd's font monitor: the folders it watches, and the X server's font path that has to agree with them. */
module FontMonitor {
  import opened Bytes

  /** An absolute path, name by name. */
  type Path = seq<string>

  const MOUNT_FONTS: Path := ["mnt", "wslg", "distro", "usr", "share", "fonts"]
  const ALT_FONTS: Path := ["mnt", "wslg", "distro", "usr", "share", "X11", "fonts"]
  const X11 := "X11"

  /**
   * What the system answers while one folder is taken up: is its fonts.dir readable, do `xset +fp`, dup
   * and inotify_add_watch succeed, and would `xset -fp` succeed should the new object be dropped again.
   */
  datatype Probe = Probe(fontsDir: bool, addOk: bool, dupOk: bool, watch: int, dropOk: bool)

  /** A directory as it is found: its probe, and the subdirectories its listing delivers. */
  datatype Dir = Dir(probe: Probe, kids: seq<Kid>)
  datatype Kid = Kid(name: string, dir: Dir)

  datatype Folder = Folder(path: Path, wd: int, added: bool)

  /**
   * `x` holds the font paths WSLGd has in the X server, `leaked` those of them whose folder object is
   * gone because the `-fp` of its destructor failed.
   */
  datatype State = State(folders: map<Path, Folder>, x: set<Path>, leaked: set<Path>)

  const EMPTY := State(map[], {}, {})

  // The folder object's own steps

  /** ModifyX11FontPath on one folder: an xset call, and its effect, only when the flag would change. */
  function Modify(s: State, f: Folder, isAdd: bool, ok: bool): (State, Folder) {
    if f.added == isAdd || !ok then (s, f)
    else if isAdd then (s.(x := s.x + {f.path}), f.(added := true))
    else (s.(x := s.x - {f.path}, leaked := s.leaked - {f.path}), f.(added := false))
  }

  function Create(s: State, path: Path, p: Probe): (State, Folder) {
    var (s', f) := if p.fontsDir then Modify(s, Folder(path, -1, false), true, p.addOk)
        else (s, Folder(path, -1, false));
    (s', f.(wd := if p.dupOk then p.watch else -1))
  }

  function Destroy(s: State, f: Folder, ok: bool): State {
    var (s', f') := Modify(s, f, false, ok);
    if f'.added then s'.(leaked := s'.leaked + {f.path}) else s'
  }

  // The monitor's steps

  function Add(s: State, path: Path, dir: Dir): State
    decreases dir
  {
    if path in s.folders then s
    else
      var (s1, f) := Create(s, path, dir.probe);
      if f.wd < 0 then Destroy(s1, f, dir.probe.dropOk)
      else
        var s2 := s1.(folders := s1.folders[path := f]);
        if path == MOUNT_FONTS then AddX11(s2, path, dir.kids) else AddAll(s2, path, dir.kids)
  }

  /** Of the mount folder only X11 is taken up. */
  function AddX11(s: State, path: Path, kids: seq<Kid>): State
    decreases kids
  {
    if kids == [] then s
    else if kids[0].name == X11 then Add(s, path + [X11], kids[0].dir)
    else AddX11(s, path, kids[1..])
  }

  function AddAll(s: State, path: Path, kids: seq<Kid>): State
    decreases kids
  {
    if kids == [] then s
    else AddAll(Add(s, path + [kids[0].name], kids[0].dir), path, kids[1..])
  }

  function Remove(s: State, path: Path, ok: bool): State {
    if path in s.folders then
      var s' := Destroy(s, s.folders[path], ok);
      s'.(folders := s'.folders - {path})
    else s
  }

  /** The clear() of Stop: every folder destroyed; `failing` are the paths whose `-fp` fails. */
  function Clear(s: State, failing: set<Path>): State {
    var added := Added(s.folders);
    State(map[], s.x - (added - failing), (s.leaked - (added - failing)) + (added * failing))
  }

  function Stop(s: State, failing: set<Path>): State {
    var s1 := Remove(s, MOUNT_FONTS, MOUNT_FONTS !in failing);
    var s2 := Remove(s1, ALT_FONTS, ALT_FONTS !in failing);
    Clear(s2, failing)
  }

  function Added(folders: map<Path, Folder>): set<Path> {
    set p | p in folders && folders[p].added
  }

  /** Destroying one folder first makes no difference to destroying them all. */
  lemma RemoveThenClear(s: State, p: Path, failing: set<Path>)
    requires p in s.folders && s.folders[p].path == p
    ensures Clear(Remove(s, p, p !in failing), failing) == Clear(s, failing)
  {
    var f := s.folders[p];
    assert Added(s.folders - {p}) == Added(s.folders) - {p};
    assert f.added <==> p in Added(s.folders);
  }

  datatype Kind = Created | CloseWrite | MovedTo | Deleted | MovedFrom | Otherwise

  /** The key of a folder in the map. */
  function Text(p: Path): string {
    if p == [] then "" else "/" + p[0] + Text(p[1..])
  }

  /** The order of the map's keys. */
  predicate Before(a: string, b: string) {
    b != "" && (a == "" || a[0] < b[0] || (a[0] == b[0] && Before(a[1..], b[1..])))
  }

  lemma {:induction false} BeforeTransitive(a: string, b: string, c: string)
    requires Before(a, b) && Before(b, c)
    ensures Before(a, c) && !Before(c, a)
    decreases |a|
  {
    if a != "" && a[0] == b[0] == c[0] {
      BeforeTransitive(a[1..], b[1..], c[1..]);
    }
  }

  lemma {:induction false} BeforeIrreflexive(a: string)
    ensures !Before(a, a)
    decreases |a|
  {
    if a != "" {
      BeforeIrreflexive(a[1..]);
    }
  }

  /** No key of the set comes before this one. */
  predicate IsFirst(p: Path, ps: set<Path>) {
    p in ps && forall q | q in ps :: !Before(Text(q), Text(p))
  }

  lemma {:induction false} FirstExists(ps: set<Path>)
    requires ps != {}
    ensures exists p :: IsFirst(p, ps)
    decreases |ps|
  {
    var a :| a in ps;
    BeforeIrreflexive(Text(a));
    var others := ps - {a};
    if others == {} {
      assert ps == {a};
      assert IsFirst(a, ps);
    } else {
      FirstExists(others);
      var p :| IsFirst(p, others);
      FirstOfTwo(a, p, ps, others);
    }
  }

  lemma FirstOfTwo(a: Path, p: Path, ps: set<Path>, others: set<Path>)
    requires a in ps && others == ps - {a} && IsFirst(p, others)
    ensures IsFirst(p, ps) || IsFirst(a, ps)
  {
    BeforeIrreflexive(Text(a));
    if Before(Text(a), Text(p)) {
      forall q | q in ps
        ensures !Before(Text(q), Text(a))
      {
        if Before(Text(q), Text(a)) {
          BeforeTransitive(Text(q), Text(a), Text(p));
        }
      }
    }
  }

  /**
   * The loop over the map looks for a folder watched under the event's descriptor: `at` is the one it comes to
   * first, in the order of the keys, None when there is none.
   */
  ghost predicate Finds(s: State, wd: int, at: Option<Path>) {
    match at
    case Some(p) => IsFirst(p, set q | q in s.folders && s.folders[q].wd == wd)
    case None => forall p | p in s.folders :: s.folders[p].wd != wd
  }

  /** A directory event on the watched folder `at`. */
  function FolderEvent(s: State, at: Path, kind: Kind, name: string, dir: Dir, dropOk: bool): State {
    if kind.Created? || kind.MovedTo? then
      if at == MOUNT_FONTS && name != X11 then s else Add(s, at + [name], dir)
    else if kind.Deleted? || kind.MovedFrom? then Remove(s, at + [name], dropOk)
    else s
  }

  /** A fonts.dir event on the watched folder `at`; `readable` is what access says of the file. */
  function FontsDirEvent(s: State, at: Path, kind: Kind, readable: bool, ok: bool): State
    requires at in s.folders
  {
    if kind.Created? || kind.CloseWrite? || kind.MovedTo? then
      if !readable then s
      else
        var (s', f) := Modify(s, s.folders[at], true, ok);
        s'.(folders := s'.folders[at := f])
    else if kind.Deleted? || kind.MovedFrom? then
      var (s', f) := Modify(s, s.folders[at], false, ok);
      s'.(folders := s'.folders[at := f])
    else s
  }

  // The same as objects that change

  class XServer {
    var fontPath: set<Path>
    ghost var leaked: set<Path>

    constructor ()
      ensures fontPath == leaked == {}
    {
      fontPath, leaked := {}, {};
    }

    /** `xset +fp` or `-fp`: an exit status of 0 means the font path changed, any other that it did not. */
    method SetFontPath(isAdd: bool, path: Path, ok: bool)
      modifies this
      ensures fontPath == if !ok then old(fontPath)
                          else if isAdd then old(fontPath) + {path} else old(fontPath) - {path}
      ensures leaked == if ok && !isAdd then old(leaked) - {path} else old(leaked)
    {
      if ok {
        if isAdd {
          fontPath := fontPath + {path};
        } else {
          fontPath, leaked := fontPath - {path}, leaked - {path};
        }
      }
    }
  }

  class FontFolder {
    const path: Path
    var wd: int
    var isPathAdded: bool

    function Value(): Folder
      reads this
    {
      Folder(path, wd, isPathAdded)
    }

    constructor (x: XServer, path: Path, p: Probe)
      modifies x
      ensures this.path == path
      ensures forall folders ::
                (State(folders, x.fontPath, x.leaked), Value())
                    == Create(State(folders, old(x.fontPath), old(x.leaked)), path, p)
    {
      this.path, wd, isPathAdded := path, -1, false;
      new;
      if p.fontsDir {
        ModifyX11FontPath(x, true, p.addOk);
      }
      if p.dupOk {
        wd := p.watch;
      }
    }

    method ModifyX11FontPath(x: XServer, isAdd: bool, ok: bool)
      modifies x, this`isPathAdded
      ensures forall folders ::
                (State(folders, x.fontPath, x.leaked), Value())
                == Modify(State(folders, old(x.fontPath), old(x.leaked)), old(Value()), isAdd, ok)
    {
      if isPathAdded != isAdd {
        x.SetFontPath(isAdd, path, ok);
        if ok {
          isPathAdded := isAdd;
        }
      }
    }

    /** The destructor. */
    method Drop(x: XServer, ok: bool)
      modifies x, this
      ensures forall folders ::
                State(folders, x.fontPath, x.leaked)
                    == Destroy(State(folders, old(x.fontPath), old(x.leaked)), old(Value()), ok)
    {
      ModifyX11FontPath(x, false, ok);
      if isPathAdded {
        x.leaked := x.leaked + {path};
      }
      if wd >= 0 {
        wd := -1;
      }
    }
  }

  class Monitor {
    const x: XServer
    var folders: map<Path, FontFolder>

    ghost predicate Valid()
      reads this
    {
      forall p | p in folders :: folders[p].path == p
    }

    function Values(): map<Path, Folder>
      reads this, folders.Values
    {
      map p | p in folders :: folders[p].Value()
    }

    ghost function Value(): State
      reads this, x, folders.Values
    {
      State(Values(), x.fontPath, x.leaked)
    }

    constructor (x: XServer)
      ensures Valid() && this.x == x && folders == map[]
    {
      this.x, folders := x, map[];
    }

    method AddMonitorFolder(path: Path, dir: Dir)
      requires Valid()
      modifies this, x
      ensures Valid() && fresh(folders.Values - old(folders.Values))
      ensures Value() == Add(old(Value()), path, dir)
      decreases dir, 1
    {
      if path !in folders {
        var folder := new FontFolder(x, path, dir.probe);
        if folder.wd >= 0 {
          ghost var s1 := State(old(Values()), x.fontPath, x.leaked);
          folders := folders[path := folder];
          assert Values() == s1.folders[path := folder.Value()];
          if path == MOUNT_FONTS {
            AddIfX11(path, dir.kids);
          } else {
            AddSubfolders(path, dir.kids);
          }
        } else {
          folder.Drop(x, dir.probe.dropOk);
        }
      }
    }

    method AddIfX11(path: Path, kids: seq<Kid>)
      requires Valid()
      modifies this, x
      ensures Valid() && fresh(folders.Values - old(folders.Values))
      ensures Value() == AddX11(old(Value()), path, kids)
      decreases kids, 0
    {
      var i := 0;
      while i < |kids| && kids[i].name != X11
        invariant 0 <= i <= |kids| && Valid()
        invariant folders == old(folders) && unchanged(x)
        invariant AddX11(Value(), path, kids[i..]) == AddX11(old(Value()), path, kids)
      {
        i := i + 1;
      }
      if i < |kids| {
        AddMonitorFolder(path + [X11], kids[i].dir);
      }
    }

    method AddSubfolders(path: Path, kids: seq<Kid>)
      requires Valid()
      modifies this, x
      ensures Valid() && fresh(folders.Values - old(folders.Values))
      ensures Value() == AddAll(old(Value()), path, kids)
      decreases kids, 0
    {
      for i := 0 to |kids|
        invariant Valid() && fresh(folders.Values - old(folders.Values))
        invariant AddAll(Value(), path, kids[i..]) == AddAll(old(Value()), path, kids)
      {
        AddMonitorFolder(path + [kids[i].name], kids[i].dir);
      }
    }

    method RemoveMonitorFolder(path: Path, ok: bool)
      requires Valid()
      modifies this, x, if path in folders then {folders[path]} else {}
      ensures Valid() && folders == old(folders) - {path}
      ensures Value() == Remove(old(Value()), path, ok)
    {
      if path in folders {
        var folder := folders[path];
        folders := folders - {path};
        assert folder !in folders.Values;
        folder.Drop(x, ok);
      }
    }

    /** The map loop both handlers start with; it takes the keys in order. */
    method Find(wd: int) returns (at: Option<Path>)
      requires Valid()
      ensures Finds(Value(), wd, at) && (at.Some? ==> at.value in folders)
    {
      var left := folders.Keys;
      while left != {}
        invariant left <= folders.Keys
        invariant forall p | p in folders.Keys - left :: folders[p].wd != wd
        decreases |left|
      {
        FirstExists(left);
        var p :| IsFirst(p, left);
        if folders[p].wd == wd {
          return Some(p);
        }
        left := left - {p};
      }
      at := None;
    }

    method HandleFolderEvent(wd: int, kind: Kind, name: string, dir: Dir, dropOk: bool) returns (ghost at: Option<Path>)
      requires Valid()
      modifies this, x, folders.Values
      ensures Valid() && fresh(folders.Values - old(folders.Values))
      ensures Finds(old(Value()), wd, at)
      ensures Value() == if at.None? then old(Value()) else FolderEvent(old(Value()), at.value, kind, name, dir, dropOk)
    {
      hide Finds;
      var it := Find(wd);
      at := it;
      if it.Some? {
        if kind.Created? || kind.MovedTo? {
          if it.value != MOUNT_FONTS || name == X11 {
            AddMonitorFolder(it.value + [name], dir);
          }
        } else if kind.Deleted? || kind.MovedFrom? {
          RemoveMonitorFolder(it.value + [name], dropOk);
        }
      }
    }

    method HandleFontsDirEvent(wd: int, kind: Kind, readable: bool, ok: bool) returns (ghost at: Option<Path>)
      requires Valid()
      modifies x, folders.Values
      ensures Valid() && Finds(old(Value()), wd, at)
      ensures Value() == if at.None? then old(Value()) else FontsDirEvent(old(Value()), at.value, kind, readable, ok)
    {
      hide Finds;
      var it := Find(wd);
      at := it;
      if it.Some? {
        var folder := folders[it.value];
        if kind.Created? || kind.CloseWrite? || kind.MovedTo? {
          if readable {
            folder.ModifyX11FontPath(x, true, ok);
          }
        } else if kind.Deleted? || kind.MovedFrom? {
          folder.ModifyX11FontPath(x, false, ok);
        }
      }
    }

    method ClearFolders(failing: set<Path>)
      requires Valid()
      modifies this, x, folders.Values
      ensures Valid() && folders == map[]
      ensures Value() == Clear(old(Value()), failing)
    {
      ghost var start := Value();
      while folders != map[]
        invariant Valid() && folders.Values <= old(folders.Values)
        invariant Clear(Value(), failing) == Clear(start, failing)
        decreases |folders|
      {
        var p :| p in folders;
        RemoveThenClear(Value(), p, failing);
        RemoveMonitorFolder(p, p !in failing);
      }
      assert Added(Values()) == {};
    }

    method StopMonitor(failing: set<Path>)
      requires Valid()
      modifies this, x, folders.Values
      ensures Valid() && folders == map[]
      ensures Value() == Stop(old(Value()), failing)
    {
      if MOUNT_FONTS in folders {
        RemoveMonitorFolder(MOUNT_FONTS, MOUNT_FONTS !in failing);
      }
      if ALT_FONTS in folders {
        RemoveMonitorFolder(ALT_FONTS, ALT_FONTS !in failing);
      }
      ClearFolders(failing);
    }
  }

  // Agreement with the X server

  /** Keys are the folders' own paths, and the X server holds exactly the added ones and the leaked ones. */
  ghost predicate Agrees(s: State) {
    && (forall p | p in s.folders :: s.folders[p].path == p)
    && s.x == Added(s.folders) + s.leaked
  }

  /** A state in which one folder object exists that is not in the map: it is being built or is on its way out. */
  ghost predicate AgreesWith(s: State, f: Folder) {
    && f.path !in s.folders
    && (forall p | p in s.folders :: s.folders[p].path == p)
    && s.x == Added(s.folders) + s.leaked + if f.added then {f.path} else {}
  }

  lemma CreateAgrees(s: State, path: Path, p: Probe)
    requires Agrees(s) && path !in s.folders
    ensures var (s', f) := Create(s, path, p);
            AgreesWith(s', f) && f.path == path && s'.folders == s.folders && s'.leaked == s.leaked
  {
  }

  lemma InsertAgrees(s: State, f: Folder)
    requires AgreesWith(s, f)
    ensures Agrees(s.(folders := s.folders[f.path := f]))
  {
    var folders := s.folders[f.path := f];
    assert Added(folders) == Added(s.folders) + if f.added then {f.path} else {};
  }

  lemma DestroyAgrees(s: State, f: Folder, ok: bool)
    requires AgreesWith(s, f)
    ensures Agrees(Destroy(s, f, ok))
    ensures ok ==> Destroy(s, f, ok).leaked <= s.leaked
    ensures Destroy(s, f, ok).folders == s.folders
  {
  }

  lemma AddAgrees(s: State, path: Path, dir: Dir)
    requires Agrees(s)
    ensures Agrees(Add(s, path, dir))
    decreases dir, 1
  {
    if path !in s.folders {
      CreateAgrees(s, path, dir.probe);
      var (s1, f) := Create(s, path, dir.probe);
      if f.wd < 0 {
        DestroyAgrees(s1, f, dir.probe.dropOk);
      } else {
        InsertAgrees(s1, f);
        var s2 := s1.(folders := s1.folders[path := f]);
        if path == MOUNT_FONTS {
          AddX11Agrees(s2, path, dir.kids);
        } else {
          AddAllAgrees(s2, path, dir.kids);
        }
      }
    }
  }

  lemma AddX11Agrees(s: State, path: Path, kids: seq<Kid>)
    requires Agrees(s)
    ensures Agrees(AddX11(s, path, kids))
    decreases kids, 0
  {
    if kids != [] {
      if kids[0].name == X11 {
        AddAgrees(s, path + [X11], kids[0].dir);
      } else {
        AddX11Agrees(s, path, kids[1..]);
      }
    }
  }

  lemma AddAllAgrees(s: State, path: Path, kids: seq<Kid>)
    requires Agrees(s)
    ensures Agrees(AddAll(s, path, kids))
    decreases kids, 0
  {
    if kids != [] {
      AddAgrees(s, path + [kids[0].name], kids[0].dir);
      AddAllAgrees(Add(s, path + [kids[0].name], kids[0].dir), path, kids[1..]);
    }
  }

  lemma RemoveAgrees(s: State, path: Path, ok: bool)
    requires Agrees(s)
    ensures Agrees(Remove(s, path, ok))
    ensures ok ==> Remove(s, path, ok).leaked <= s.leaked
    ensures Remove(s, path, ok).folders == s.folders - {path}
  {
    if path in s.folders {
      var f := s.folders[path];
      var out := s.(folders := s.folders - {path});
      assert Added(out.folders) == Added(s.folders) - {path};
      assert AgreesWith(out, f) by {
        assert f.added <==> path in Added(s.folders);
      }
      DestroyAgrees(out, f, ok);
    }
  }

  // Whole runs

  /** One call on the monitor; `at` is any folder the map loop may come to, so runs cover every outcome of it. */
  datatype Op =
    | AddRoot(mount: bool, dir: Dir)
    | OnFolder(at: Path, kind: Kind, name: string, dir: Dir, dropOk: bool)
    | OnFontsDir(at: Path, kind: Kind, readable: bool, ok: bool)
    | OnStop(failing: set<Path>)

  function Step(s: State, op: Op): State {
    match op
    case AddRoot(mount, dir) => Add(s, if mount then MOUNT_FONTS else ALT_FONTS, dir)
    case OnFolder(at, kind, name, dir, dropOk) =>
      if at in s.folders then FolderEvent(s, at, kind, name, dir, dropOk) else s
    case OnFontsDir(at, kind, readable, ok) => if at in s.folders then FontsDirEvent(s, at, kind, readable, ok) else s
    case OnStop(failing) => Stop(s, failing)
  }

  function Run(ops: seq<Op>): State {
    if ops == [] then EMPTY else Step(Run(ops[..|ops| - 1]), ops[|ops| - 1])
  }

  lemma FontsDirAgrees(s: State, at: Path, kind: Kind, readable: bool, ok: bool)
    requires Agrees(s) && at in s.folders
    ensures Agrees(FontsDirEvent(s, at, kind, readable, ok))
    ensures FontsDirEvent(s, at, kind, readable, ok).folders.Keys == s.folders.Keys
    ensures FontsDirEvent(s, at, kind, readable, ok).leaked <= s.leaked
  {
    var s' := FontsDirEvent(s, at, kind, readable, ok);
    if s'.folders[at].added {
      assert Added(s'.folders) == Added(s.folders) + {at};
    } else {
      assert Added(s'.folders) == Added(s.folders) - {at};
      assert !s.folders[at].added ==> at !in Added(s.folders);
    }
  }

  lemma StopAgrees(s: State, failing: set<Path>)
    requires Agrees(s)
    ensures var s' := Stop(s, failing);
            Agrees(s') && s'.folders == map[] && s'.x == s'.leaked && (failing == {} ==> s'.leaked <= s.leaked)
  {
    RemoveAgrees(s, MOUNT_FONTS, MOUNT_FONTS !in failing);
    var s1 := Remove(s, MOUNT_FONTS, MOUNT_FONTS !in failing);
    RemoveAgrees(s1, ALT_FONTS, ALT_FONTS !in failing);
    var s2 := Remove(s1, ALT_FONTS, ALT_FONTS !in failing);
    assert Added(Clear(s2, failing).folders) == {};
  }

  lemma StepAgrees(s: State, op: Op)
    requires Agrees(s)
    ensures Agrees(Step(s, op))
  {
    match op
    case AddRoot(mount, dir) => AddAgrees(s, if mount then MOUNT_FONTS else ALT_FONTS, dir);
    case OnFolder(at, kind, name, dir, dropOk) =>
      AddAgrees(s, at + [name], dir);
      RemoveAgrees(s, at + [name], dropOk);
    case OnFontsDir(at, kind, readable, ok) =>
      if at in s.folders {
        FontsDirAgrees(s, at, kind, readable, ok);
      }
    case OnStop(failing) => StopAgrees(s, failing);
  }

  // A run in which no destructor's -fp fails

  predicate DropsOk(dir: Dir) {
    dir.probe.dropOk && forall i | 0 <= i < |dir.kids| :: DropsOk(dir.kids[i].dir)
  }

  predicate OpDropsOk(op: Op) {
    match op
    case AddRoot(_, dir) => DropsOk(dir)
    case OnFolder(_, _, _, dir, dropOk) => DropsOk(dir) && dropOk
    case OnFontsDir(_, _, _, _) => true
    case OnStop(failing) => failing == {}
  }

  lemma AddLeaksNothing(s: State, path: Path, dir: Dir)
    requires Agrees(s) && DropsOk(dir)
    ensures Add(s, path, dir).leaked <= s.leaked
    decreases dir, 1
  {
    if path !in s.folders {
      CreateAgrees(s, path, dir.probe);
      var (s1, f) := Create(s, path, dir.probe);
      if f.wd < 0 {
        DestroyAgrees(s1, f, true);
      } else {
        InsertAgrees(s1, f);
        var s2 := s1.(folders := s1.folders[path := f]);
        if path == MOUNT_FONTS {
          AddX11LeaksNothing(s2, path, dir.kids);
        } else {
          AddAllLeaksNothing(s2, path, dir.kids);
        }
      }
    }
  }

  lemma AddX11LeaksNothing(s: State, path: Path, kids: seq<Kid>)
    requires Agrees(s) && forall i | 0 <= i < |kids| :: DropsOk(kids[i].dir)
    ensures AddX11(s, path, kids).leaked <= s.leaked
    decreases kids, 0
  {
    if kids != [] {
      if kids[0].name == X11 {
        AddLeaksNothing(s, path + [X11], kids[0].dir);
      } else {
        AddX11LeaksNothing(s, path, kids[1..]);
      }
    }
  }

  lemma AddAllLeaksNothing(s: State, path: Path, kids: seq<Kid>)
    requires Agrees(s) && forall i | 0 <= i < |kids| :: DropsOk(kids[i].dir)
    ensures AddAll(s, path, kids).leaked <= s.leaked
    decreases kids, 0
  {
    if kids != [] {
      AddLeaksNothing(s, path + [kids[0].name], kids[0].dir);
      AddAgrees(s, path + [kids[0].name], kids[0].dir);
      AddAllLeaksNothing(Add(s, path + [kids[0].name], kids[0].dir), path, kids[1..]);
    }
  }

  lemma StepLeaksNothing(s: State, op: Op)
    requires Agrees(s) && OpDropsOk(op)
    ensures Step(s, op).leaked <= s.leaked
  {
    match op
    case AddRoot(mount, dir) => AddLeaksNothing(s, if mount then MOUNT_FONTS else ALT_FONTS, dir);
    case OnFolder(at, kind, name, dir, dropOk) =>
      AddLeaksNothing(s, at + [name], dir);
      RemoveAgrees(s, at + [name], dropOk);
    case OnFontsDir(at, kind, readable, ok) =>
      if at in s.folders {
        FontsDirAgrees(s, at, kind, readable, ok);
      }
    case OnStop(failing) => StopAgrees(s, failing);
  }

  /**
   * After every sequence of calls, whatever the system answered: the X server holds exactly the paths of the
   * tracked folders flagged as added, and besides them only what a failed `-fp` in a destructor left behind.
   * Without such a failure nothing is left behind.
   */
  lemma {:induction false} XServerAgreement(ops: seq<Op>)
    ensures Agrees(Run(ops))
    ensures (forall i | 0 <= i < |ops| :: OpDropsOk(ops[i]))
            ==> Run(ops).leaked == {} && Run(ops).x == Added(Run(ops).folders)
    decreases |ops|
  {
    if ops != [] {
      var front := ops[..|ops| - 1];
      XServerAgreement(front);
      StepAgrees(Run(front), ops[|ops| - 1]);
      if forall i | 0 <= i < |ops| :: OpDropsOk(ops[i]) {
        assert forall i | 0 <= i < |front| :: front[i] == ops[i];
        StepLeaksNothing(Run(front), ops[|ops| - 1]);
      }
    }
  }

  /** After Stop nothing is tracked, and the X server keeps exactly what leaked: nothing, if no `-fp` failed. */
  lemma StopEmpties(ops: seq<Op>, failing: set<Path>)
    ensures var s := Run(ops + [OnStop(failing)]);
            && s.folders == map[] && s.x == s.leaked
            && ((forall i | 0 <= i < |ops| :: OpDropsOk(ops[i])) && failing == {} ==> s.x == {})
  {
    var all := ops + [OnStop(failing)];
    assert all[..|all| - 1] == ops;
    XServerAgreement(ops);
    StopAgrees(Run(ops), failing);
  }

  // Scope

  /** Where the monitor may look: the mount folder itself, its X11 subtree, the alternate subtree. */
  predicate InScope(p: Path) {
    p == MOUNT_FONTS || MOUNT_FONTS + [X11] <= p || ALT_FONTS <= p
  }

  lemma AddInScope(s: State, path: Path, dir: Dir)
    requires (forall p | p in s.folders :: InScope(p)) && InScope(path)
    ensures forall p | p in Add(s, path, dir).folders :: InScope(p)
    decreases dir, 1
  {
    if path !in s.folders {
      var (s1, f) := Create(s, path, dir.probe);
      if f.wd >= 0 {
        var s2 := s1.(folders := s1.folders[path := f]);
        if path == MOUNT_FONTS {
          AddX11InScope(s2, path, dir.kids);
        } else {
          AddAllInScope(s2, path, dir.kids);
        }
      }
    }
  }

  lemma AddX11InScope(s: State, path: Path, kids: seq<Kid>)
    requires (forall p | p in s.folders :: InScope(p)) && path == MOUNT_FONTS
    ensures forall p | p in AddX11(s, path, kids).folders :: InScope(p)
    decreases kids, 0
  {
    if kids != [] {
      if kids[0].name == X11 {
        AddInScope(s, path + [X11], kids[0].dir);
      } else {
        AddX11InScope(s, path, kids[1..]);
      }
    }
  }

  lemma AddAllInScope(s: State, path: Path, kids: seq<Kid>)
    requires (forall p | p in s.folders :: InScope(p)) && InScope(path) && path != MOUNT_FONTS
    ensures forall p | p in AddAll(s, path, kids).folders :: InScope(p)
    decreases kids, 0
  {
    if kids != [] {
      AddInScope(s, path + [kids[0].name], kids[0].dir);
      AddAllInScope(Add(s, path + [kids[0].name], kids[0].dir), path, kids[1..]);
    }
  }

  /** In every reachable state each key is its folder's own path and lies in scope. */
  lemma {:induction false} TrackedInScope(ops: seq<Op>)
    ensures forall p | p in Run(ops).folders :: Run(ops).folders[p].path == p && InScope(p)
    decreases |ops|
  {
    XServerAgreement(ops);
    if ops != [] {
      var s, op := Run(ops[..|ops| - 1]), ops[|ops| - 1];
      TrackedInScope(ops[..|ops| - 1]);
      XServerAgreement(ops[..|ops| - 1]);
      match op
      case AddRoot(mount, dir) => AddInScope(s, if mount then MOUNT_FONTS else ALT_FONTS, dir);
      case OnFolder(at, kind, name, dir, dropOk) =>
        if at in s.folders {
          if at != MOUNT_FONTS || name == X11 {
            assert InScope(at + [name]);
            AddInScope(s, at + [name], dir);
          }
          RemoveAgrees(s, at + [name], dropOk);
        }
      case OnFontsDir(at, kind, readable, ok) =>
        if at in s.folders {
          FontsDirAgrees(s, at, kind, readable, ok);
        }
      case OnStop(failing) => StopAgrees(s, failing);
    }
  }

  // Coverage

  /** Every directory of the tree. */
  function Tree(path: Path, dir: Dir): set<Path>
    decreases dir, 1
  {
    {path} + TreeOf(path, dir.kids)
  }

  function TreeOf(path: Path, kids: seq<Kid>): set<Path>
    decreases kids, 0
  {
    if kids == [] then {} else Tree(path + [kids[0].name], kids[0].dir) + TreeOf(path, kids[1..])
  }

  /** The directories that can be reached from `path` through directories that are untracked and can be watched. */
  function Reach(tracked: set<Path>, path: Path, dir: Dir): set<Path>
    decreases dir, 1
  {
    if path in tracked || !dir.probe.dupOk || dir.probe.watch < 0 then {}
    else {path} + ReachOf(tracked, path, dir.kids)
  }

  function ReachOf(tracked: set<Path>, path: Path, kids: seq<Kid>): set<Path>
    decreases kids, 0
  {
    if kids == [] then {} else Reach(tracked, path + [kids[0].name], kids[0].dir) + ReachOf(tracked, path, kids[1..])
  }

  /** A listing names each entry once. */
  predicate Distinct(dir: Dir) {
    && (forall i, j | 0 <= i < j < |dir.kids| :: dir.kids[i].name != dir.kids[j].name)
    && (forall i | 0 <= i < |dir.kids| :: Distinct(dir.kids[i].dir))
  }

  lemma ReachBelow(tracked: set<Path>, path: Path, dir: Dir)
    ensures forall p | p in Reach(tracked, path, dir) :: path <= p && p !in tracked
    decreases dir, 1
  {
    ReachOfBelow(tracked, path, dir.kids);
  }

  lemma ReachOfBelow(tracked: set<Path>, path: Path, kids: seq<Kid>)
    ensures forall p | p in ReachOf(tracked, path, kids) :: path < p && p !in tracked
    ensures forall p | p in ReachOf(tracked, path, kids) :: exists i :: 0 <= i < |kids| && kids[i].name == p[|path|]
    decreases kids, 0
  {
    if kids != [] {
      ReachBelow(tracked, path + [kids[0].name], kids[0].dir);
      ReachOfBelow(tracked, path, kids[1..]);
      forall p | p in ReachOf(tracked, path, kids)
        ensures path < p && p !in tracked && exists i :: 0 <= i < |kids| && kids[i].name == p[|path|]
      {
        if p in Reach(tracked, path + [kids[0].name], kids[0].dir) {
          assert (path + [kids[0].name])[|path|] == p[|path|] == kids[0].name;
          assert path <= path + [kids[0].name] <= p;
        } else {
          var i :| 0 <= i < |kids[1..]| && kids[1..][i].name == p[|path|];
          assert kids[i + 1].name == p[|path|];
        }
      }
    }
  }

  /** Tracking more folders elsewhere does not change what can be reached here. */
  lemma ReachElsewhere(tracked: set<Path>, more: set<Path>, path: Path, dir: Dir)
    requires forall p | p in more :: !(path <= p)
    ensures Reach(tracked + more, path, dir) == Reach(tracked, path, dir)
    decreases dir, 1
  {
    ReachOfElsewhere(tracked, more, path, dir.kids);
  }

  lemma ReachOfElsewhere(tracked: set<Path>, more: set<Path>, path: Path, kids: seq<Kid>)
    requires forall p | p in more :: forall i | 0 <= i < |kids| :: !(path + [kids[i].name] <= p)
    ensures ReachOf(tracked + more, path, kids) == ReachOf(tracked, path, kids)
    decreases kids, 0
  {
    if kids != [] {
      assert kids[0] in kids;
      ReachElsewhere(tracked, more, path + [kids[0].name], kids[0].dir);
      ReachOfElsewhere(tracked, more, path, kids[1..]);
    }
  }

  /**
   * What one call adds, exactly: the tracked set grows by the directories reachable from the argument
   * through untracked, watchable directories. A subtree behind one that is tracked already is not looked at.
   */
  lemma AddCoversExactly(s: State, path: Path, dir: Dir)
    requires Distinct(dir) && !(path <= MOUNT_FONTS)
    ensures Add(s, path, dir).folders.Keys == s.folders.Keys + Reach(s.folders.Keys, path, dir)
    decreases dir, 1
  {
    if path !in s.folders {
      var (s1, f) := Create(s, path, dir.probe);
      if f.wd >= 0 {
        var s2 := s1.(folders := s1.folders[path := f]);
        assert s2.folders.Keys == s.folders.Keys + {path};
        AddAllCoversExactly(s2, path, dir.kids);
        ReachOfElsewhere(s.folders.Keys, {path}, path, dir.kids);
      }
    }
  }

  lemma AddAllCoversExactly(s: State, path: Path, kids: seq<Kid>)
    requires forall i, j | 0 <= i < j < |kids| :: kids[i].name != kids[j].name
    requires forall i | 0 <= i < |kids| :: Distinct(kids[i].dir)
    requires !(path <= MOUNT_FONTS)
    ensures AddAll(s, path, kids).folders.Keys == s.folders.Keys + ReachOf(s.folders.Keys, path, kids)
    decreases kids, 0
  {
    if kids != [] {
      var sub := path + [kids[0].name];
      assert path <= sub;
      AddCoversExactly(s, sub, kids[0].dir);
      var s1 := Add(s, sub, kids[0].dir);
      AddAllCoversExactly(s1, path, kids[1..]);
      var more := Reach(s.folders.Keys, sub, kids[0].dir);
      ReachBelow(s.folders.Keys, sub, kids[0].dir);
      forall p | p in more
        ensures forall i | 0 <= i < |kids[1..]| :: !(path + [kids[1..][i].name] <= p)
      {
        forall i | 0 <= i < |kids[1..]|
          ensures !(path + [kids[1..][i].name] <= p)
        {
          assert sub <= p && p[|path|] == sub[|path|] == kids[0].name;
          assert (path + [kids[1..][i].name])[|path|] == kids[i + 1].name;
        }
      }
      ReachOfElsewhere(s.folders.Keys, more, path, kids[1..]);
    }
  }

  /** What adding the mount folder reaches: itself, and of what is in it the X11 subtree alone. */
  function ReachMount(tracked: set<Path>, dir: Dir): set<Path> {
    if MOUNT_FONTS in tracked || !dir.probe.dupOk || dir.probe.watch < 0 then {}
    else {MOUNT_FONTS} + ReachX11(tracked, dir.kids)
  }

  function ReachX11(tracked: set<Path>, kids: seq<Kid>): set<Path> {
    if kids == [] then {}
    else if kids[0].name == X11 then Reach(tracked, MOUNT_FONTS + [X11], kids[0].dir)
    else ReachX11(tracked, kids[1..])
  }

  lemma ReachX11Elsewhere(tracked: set<Path>, more: set<Path>, kids: seq<Kid>)
    requires forall p | p in more :: !(MOUNT_FONTS + [X11] <= p)
    ensures ReachX11(tracked + more, kids) == ReachX11(tracked, kids)
    decreases kids
  {
    if kids != [] {
      if kids[0].name == X11 {
        ReachElsewhere(tracked, more, MOUNT_FONTS + [X11], kids[0].dir);
      } else {
        ReachX11Elsewhere(tracked, more, kids[1..]);
      }
    }
  }

  /** The same for the mount folder: it grows by itself and what is reachable in X11, and by nothing else in it. */
  lemma AddMountCoversExactly(s: State, dir: Dir)
    requires Distinct(dir)
    ensures Add(s, MOUNT_FONTS, dir).folders.Keys == s.folders.Keys + ReachMount(s.folders.Keys, dir)
  {
    if MOUNT_FONTS !in s.folders {
      var (s1, f) := Create(s, MOUNT_FONTS, dir.probe);
      if f.wd >= 0 {
        var s2 := s1.(folders := s1.folders[MOUNT_FONTS := f]);
        assert s2.folders.Keys == s.folders.Keys + {MOUNT_FONTS};
        AddX11CoversExactly(s2, dir.kids);
        ReachX11Elsewhere(s.folders.Keys, {MOUNT_FONTS}, dir.kids);
      }
    }
  }

  /** So for every folder the monitor ever adds. */
  lemma AddCoversScope(s: State, path: Path, dir: Dir)
    requires Distinct(dir) && InScope(path)
    ensures Add(s, path, dir).folders.Keys
            == s.folders.Keys + (if path == MOUNT_FONTS then ReachMount(s.folders.Keys, dir)
                                 else Reach(s.folders.Keys, path, dir))
  {
    if path == MOUNT_FONTS {
      AddMountCoversExactly(s, dir);
    } else {
      AddCoversExactly(s, path, dir);
    }
  }

  lemma AddX11CoversExactly(s: State, kids: seq<Kid>)
    requires forall i | 0 <= i < |kids| :: Distinct(kids[i].dir)
    ensures AddX11(s, MOUNT_FONTS, kids).folders.Keys == s.folders.Keys + ReachX11(s.folders.Keys, kids)
    decreases kids
  {
    if kids != [] {
      if kids[0].name == X11 {
        AddCoversExactly(s, MOUNT_FONTS + [X11], kids[0].dir);
      } else {
        AddX11CoversExactly(s, kids[1..]);
      }
    }
  }

  predicate AllWatchable(dir: Dir) {
    dir.probe.dupOk && dir.probe.watch >= 0 && forall i | 0 <= i < |dir.kids| :: AllWatchable(dir.kids[i].dir)
  }

  lemma AllReached(tracked: set<Path>, path: Path, dir: Dir)
    requires AllWatchable(dir) && Tree(path, dir) !! tracked
    ensures Reach(tracked, path, dir) == Tree(path, dir)
    decreases dir, 1
  {
    assert path in Tree(path, dir);
    AllReachedOf(tracked, path, dir.kids);
  }

  lemma AllReachedOf(tracked: set<Path>, path: Path, kids: seq<Kid>)
    requires (forall i | 0 <= i < |kids| :: AllWatchable(kids[i].dir)) && TreeOf(path, kids) !! tracked
    ensures ReachOf(tracked, path, kids) == TreeOf(path, kids)
    decreases kids, 0
  {
    if kids != [] {
      AllReached(tracked, path + [kids[0].name], kids[0].dir);
      AllReachedOf(tracked, path, kids[1..]);
    }
  }

  /** Adding a fresh tree whose watches all succeed tracks every directory of it. */
  lemma AddCoversTree(s: State, path: Path, dir: Dir)
    requires Distinct(dir) && !(path <= MOUNT_FONTS) && AllWatchable(dir) && Tree(path, dir) !! s.folders.Keys
    ensures Add(s, path, dir).folders.Keys == s.folders.Keys + Tree(path, dir)
  {
    AddCoversExactly(s, path, dir);
    AllReached(s.folders.Keys, path, dir);
  }

  lemma PrefixSplit(path: Path, p: Path)
    ensures path <= p <==> path == p || path < p
  {
    if path <= p && |path| == |p| {
      assert p == p[..|path|];
    }
  }

  /**
   * Removing is narrower than adding: one path goes, nothing below it. So the subtree of a directory that
   * was deleted or moved away is free of tracked folders exactly when none below the directory was tracked.
   */
  lemma RemoveLeavesDescendants(s: State, path: Path, ok: bool)
    requires Agrees(s)
    ensures (forall p | p in Remove(s, path, ok).folders :: !(path <= p))
            <==> (forall p | p in s.folders :: !(path < p))
    ensures forall p | path < p :: p in Remove(s, path, ok).folders <==> p in s.folders
  {
    RemoveAgrees(s, path, ok);
    forall p | p in Remove(s, path, ok).folders
      ensures path <= p <==> path < p
    {
      PrefixSplit(path, p);
    }
    assert forall p | p in s.folders && path < p :: p in Remove(s, path, ok).folders;
  }

  const WATCHED := Probe(false, true, true, 1, true)
  const LEAF := Dir(WATCHED, [])

  lemma OneKid(path: Path, name: string, dir: Dir)
    ensures TreeOf(path, [Kid(name, dir)]) == Tree(path + [name], dir)
  {
  }

  /** The failing run: a/b is tracked, a is moved away, and a/b stays tracked without it. */
  lemma MovedFolderLeavesChild()
    ensures var tree := Dir(WATCHED, [Kid("a", Dir(WATCHED, [Kid("b", LEAF)]))]);
            var (before, after) := ([AddRoot(false, tree)],
                                    [AddRoot(false, tree), OnFolder(ALT_FONTS, MovedFrom, "a", LEAF, true)]);
            && Run(before).folders.Keys == {ALT_FONTS, ALT_FONTS + ["a"], ALT_FONTS + ["a"] + ["b"]}
            && Run(after).folders.Keys == {ALT_FONTS, ALT_FONTS + ["a"] + ["b"]}
  {
    var kids := [Kid("b", LEAF)];
    var a := Dir(WATCHED, kids);
    var tree := Dir(WATCHED, [Kid("a", a)]);
    var (op1, op2) := (AddRoot(false, tree), OnFolder(ALT_FONTS, MovedFrom, "a", LEAF, true));
    assert ALT_FONTS != MOUNT_FONTS;
    AddCoversTree(EMPTY, ALT_FONTS, tree);
    assert Tree(ALT_FONTS + ["a"] + ["b"], LEAF) == {ALT_FONTS + ["a"] + ["b"]};
    OneKid(ALT_FONTS + ["a"], "b", LEAF);
    OneKid(ALT_FONTS, "a", a);
    assert Tree(ALT_FONTS, tree) == {ALT_FONTS} + Tree(ALT_FONTS + ["a"], a);
    assert Tree(ALT_FONTS, tree) == {ALT_FONTS, ALT_FONTS + ["a"], ALT_FONTS + ["a"] + ["b"]};
    assert [op1][..0] == [] && Run([op1]) == Add(EMPTY, ALT_FONTS, tree);
    assert [op1, op2][..1] == [op1] && Run([op1, op2]) == Remove(Run([op1]), ALT_FONTS + ["a"], true);
    assert Run([op1, op2]).folders.Keys == Run([op1]).folders.Keys - {ALT_FONTS + ["a"]};
  }
}
