/** The font monitor's loop over a buffer of inotify events, and what a whole buffer does to the tracked folders. */
module FontEvents {
  import opened Bytes
  import FontPathLaws
  import Protocol
  import opened FontMonitor

  const IN_CLOSE_WRITE: u32 := 0x08
  const IN_MOVED_FROM: u32 := 0x40
  const IN_MOVED_TO: u32 := 0x80
  const IN_CREATE: u32 := 0x100
  const IN_DELETE: u32 := 0x200
  const IN_ISDIR: u32 := 0x4000_0000
  const FONTS_DIR := "fonts.dir"

  /** struct inotify_event; `name` is padded with NULs to the length its len field says. */
  datatype Event = Event(wd: u32, mask: u32, cookie: u32, name: seq<byte>)

  /** The call an event leads to; `wd` is the descriptor as a signed int. */
  datatype Call = FolderCall(wd: int, kind: Kind, name: string) | FontsDirCall(wd: int, kind: Kind)

  /** What the system answers to the call of one event. */
  datatype Answer = Answer(dir: Dir, dropOk: bool, readable: bool, ok: bool)

  predicate Has(mask: u32, bit: u32)
    requires bit > 0
  {
    Protocol.Has(mask, bit)
  }

  function Signed(n: u32): int {
    if n >= 0x8000_0000 then n - U32_RANGE else n
  }

  function CName(b: seq<byte>): string {
    if b == [] || b[0] == 0 then "" else [b[0] as char] + CName(b[1..])
  }

  /** The bits in the order the handlers test them; only the handler of fonts.dir asks for a finished write. */
  function KindOf(mask: u32, isDir: bool): Kind {
    if Has(mask, IN_CREATE) then Created
    else if Has(mask, IN_MOVED_TO) then MovedTo
    else if !isDir && Has(mask, IN_CLOSE_WRITE) then CloseWrite
    else if Has(mask, IN_DELETE) then Deleted
    else if Has(mask, IN_MOVED_FROM) then MovedFrom
    else Otherwise
  }

  function CallOf(e: Event): Option<Call> {
    if e.name == [] then None
    else if Has(e.mask, IN_ISDIR) then Some(FolderCall(Signed(e.wd), KindOf(e.mask, true), CName(e.name)))
    else if CName(e.name) == FONTS_DIR then Some(FontsDirCall(Signed(e.wd), KindOf(e.mask, false)))
    else None
  }

  // The buffer

  predicate Fits(e: Event) {
    |e.name| < U32_RANGE
  }

  /** What the kernel writes for one event. */
  function Layout(e: Event): (b: seq<byte>)
    requires Fits(e)
    ensures |b| == 16 + |e.name|
  {
    LE32(e.wd) + LE32(e.mask) + LE32(e.cookie) + LE32(|e.name|) + e.name
  }

  predicate AllFit(es: seq<Event>) {
    forall e | e in es :: Fits(e)
  }

  function Buffer(es: seq<Event>): seq<byte>
    requires AllFit(es)
  {
    if es == [] then [] else Layout(es[0]) + Buffer(es[1..])
  }

  function ReadEvent(b: seq<byte>): Option<(Event, seq<byte>)> {
    var (wd, b1) :- ReadU32(b);
    var (mask, b2) :- ReadU32(b1);
    var (cookie, b3) :- ReadU32(b2);
    var (n, b4) :- ReadU32(b3);
    if |b4| < n then None else Some((Event(wd, mask, cookie, b4[..n]), b4[n..]))
  }

  lemma EventReadsBack(e: Event, rest: seq<byte>)
    requires Fits(e)
    ensures ReadEvent(Layout(e) + rest) == Some((e, rest))
  {
    hide LE32, ReadU32;
    var t4 := e.name + rest;
    var t3 := LE32(|e.name|) + t4;
    var t2 := LE32(e.cookie) + t3;
    var t1 := LE32(e.mask) + t2;
    assert Layout(e) + rest == LE32(e.wd) + t1;
    ReadU32Of(e.wd, t1);
    ReadU32Of(e.mask, t2);
    ReadU32Of(e.cookie, t3);
    ReadU32Of(|e.name|, t4);
    assert t4[..|e.name|] == e.name && t4[|e.name|..] == rest;
  }

  // What a list of events does

  /** The call of one event on one state; the loop over the map may come to any folder watched under the descriptor. */
  ghost predicate Takes(s: State, e: Event, a: Answer, s': State) {
    match CallOf(e)
    case None => s' == s
    case Some(FolderCall(wd, kind, name)) =>
      exists at :: Finds(s, wd, at)
          && s' == if at.None? then s else FolderEvent(s, at.value, kind, name, a.dir, a.dropOk)
    case Some(FontsDirCall(wd, kind)) =>
      exists at :: Finds(s, wd, at) && s' == if at.None? then s else FontsDirEvent(s, at.value, kind, a.readable, a.ok)
  }

  /** From the first state to the last, one event after the other. */
  ghost predicate TakesAll(es: seq<Event>, answers: seq<Answer>, states: seq<State>) {
    && |es| <= |answers| && |states| == |es| + 1
    && forall i | 0 <= i < |es| :: Takes(states[i], es[i], answers[i], states[i + 1])
  }

  /** Each event is at most one of the calls that runs of the monitor are made of. */
  lemma TakesIsStep(s: State, e: Event, a: Answer, s': State) returns (ops: seq<Op>)
    requires Takes(s, e, a, s')
    ensures (ops == [] && s' == s) || (|ops| == 1 && s' == Step(s, ops[0]))
  {
    hide FolderEvent, FontsDirEvent;
    ops := [];
    match CallOf(e)
    case None =>
    case Some(FolderCall(wd, kind, name)) =>
      var at :| Finds(s, wd, at) && s' == if at.None? then s else FolderEvent(s, at.value, kind, name, a.dir, a.dropOk);
      if at.Some? {
        ops := [OnFolder(at.value, kind, name, a.dir, a.dropOk)];
      }
    case Some(FontsDirCall(wd, kind)) =>
      var at :| Finds(s, wd, at) && s' == if at.None? then s else FontsDirEvent(s, at.value, kind, a.readable, a.ok);
      if at.Some? {
        ops := [OnFontsDir(at.value, kind, a.readable, a.ok)];
      }
  }

  /**
   * So a buffer of events takes a run of the monitor to a run of the monitor, and keeps all that holds of every run.
   */
  lemma {:induction false} EventsAreRun(before: seq<Op>, es: seq<Event>, answers: seq<Answer>, states: seq<State>)
      returns (after: seq<Op>)
    requires TakesAll(es, answers, states) && states[0] == Run(before)
    ensures states[|es|] == Run(after) && before <= after
    decreases |es|
  {
    hide Takes, Step;
    if es == [] {
      after := before;
    } else {
      var n := |es| - 1;
      var front := EventsAreRun(before, es[..n], answers, states[..n + 1]);
      var op := TakesIsStep(states[n], es[n], answers[n], states[n + 1]);
      after := front + op;
      if op != [] {
        assert after[..|after| - 1] == front;
      } else {
        assert after == front;
      }
    }
  }

  /** The X server still agrees, and every tracked folder is still in scope, after any buffer of events. */
  lemma EventsKeepAgreement(before: seq<Op>, es: seq<Event>, answers: seq<Answer>, states: seq<State>)
    requires TakesAll(es, answers, states) && states[0] == Run(before)
    ensures Agrees(states[|es|]) && forall p | p in states[|es|].folders :: InScope(p)
  {
    hide Run, Agrees, InScope, TakesAll;
    var after := EventsAreRun(before, es, answers, states);
    XServerAgreement(after);
    TrackedInScope(after);
  }

  // The loop

  /** The struct at a position of the buffer. */
  method EventAt(buf: array<byte>, cur: nat) returns (e: Event)
    requires cur <= buf.Length && ReadEvent(buf[cur..]).Some?
    ensures 16 + |e.name| <= buf.Length - cur
    ensures ReadEvent(buf[cur..]) == Some((e, buf[cur..][16 + |e.name|..]))
  {
    hide FromLE32;
    var b := buf[cur..];
    assert b[4..][4..] == b[8..] && b[8..][4..] == b[12..] && b[12..][4..] == b[16..];
    var n := FromLE32(buf[cur + 12..cur + 16]);
    assert buf[cur..cur + 4] == b[..4] && buf[cur + 4..cur + 8] == b[4..][..4];
    assert buf[cur + 8..cur + 12] == b[8..][..4] && buf[cur + 12..cur + 16] == b[12..][..4];
    assert b[16..][..n] == buf[cur + 16..cur + 16 + n] && b[16..][n..] == b[16 + n..];
    e := Event(FromLE32(buf[cur..cur + 4]), FromLE32(buf[cur + 4..cur + 8]), FromLE32(buf[cur + 8..cur + 12]),
               buf[cur + 16..cur + 16 + n]);
  }

  method HandleEvent(m: Monitor, e: Event, a: Answer)
    requires m.Valid()
    modifies m, m.x, m.folders.Values
    ensures m.Valid() && fresh(m.folders.Values - old(m.folders.Values))
    ensures Takes(old(m.Value()), e, a, m.Value())
  {
    hide Has, FolderEvent, FontsDirEvent, CName, Signed, Finds;
    if e.name != [] {
      if Has(e.mask, IN_ISDIR) {
        ghost var at := m.HandleFolderEvent(Signed(e.wd), KindOf(e.mask, true), CName(e.name), a.dir, a.dropOk);
      } else if CName(e.name) == FONTS_DIR {
        ghost var at := m.HandleFontsDirEvent(Signed(e.wd), KindOf(e.mask, false), a.readable, a.ok);
      }
    }
  }

  /** A buffer that is not used up holds the next event, and the others behind it. */
  lemma NextEvent(b: seq<byte>, es: seq<Event>)
    requires AllFit(es) && b == Buffer(es) && b != []
    ensures es != [] && ReadEvent(b) == Some((es[0], Buffer(es[1..])))
  {
    hide Layout, ReadEvent;
    assert es[0] in es;
    EventReadsBack(es[0], Buffer(es[1..]));
  }

  lemma MoreTaken(es: seq<Event>, i: nat, answers: seq<Answer>, states: seq<State>, s: State)
    requires i < |es| <= |answers| && TakesAll(es[..i], answers, states) && Takes(states[i], es[i], answers[i], s)
    ensures TakesAll(es[..i + 1], answers, states + [s])
  {
    hide Takes;
    var (es', states') := (es[..i + 1], states + [s]);
    forall j | 0 <= j < |es'|
      ensures Takes(states'[j], es'[j], answers[j], states'[j + 1])
    {
      if j < i {
        assert es'[j] == es[..i][j];
      }
    }
  }

  /** On what the kernel writes the loop makes exactly the calls of the events, in order, and ends with the buffer. */
  method HandleEvents(m: Monitor, buf: array<byte>, ghost es: seq<Event>, answers: seq<Answer>)
      returns (ghost states: seq<State>)
    requires m.Valid() && AllFit(es) && buf[..] == Buffer(es) && |es| <= |answers|
    modifies m, m.x, m.folders.Values
    ensures m.Valid() && fresh(m.folders.Values - old(m.folders.Values))
    ensures TakesAll(es, answers, states) && states[0] == old(m.Value()) && states[|es|] == m.Value()
  {
    hide Buffer, Layout, ReadEvent, Takes;
    var cur, i := 0, 0;
    states := [m.Value()];
    assert buf[0..] == buf[..] && es[0..] == es;
    while cur < buf.Length
      invariant 0 <= cur <= buf.Length && i <= |es| && buf[cur..] == Buffer(es[i..])
      invariant m.Valid() && fresh(m.folders.Values - old(m.folders.Values))
      invariant TakesAll(es[..i], answers, states) && states[0] == old(m.Value()) && states[i] == m.Value()
      decreases buf.Length - cur
    {
      NextEvent(buf[cur..], es[i..]);
      var event := EventAt(buf, cur);
      assert event == es[i] && es[i..][1..] == es[i + 1..];
      HandleEvent(m, event, answers[i]);
      MoreTaken(es, i, answers, states, m.Value());
      assert buf[cur..][16 + |event.name|..] == buf[cur + (16 + |event.name|)..];
      states := states + [m.Value()];
      cur, i := cur + (16 + |event.name|), i + 1;
    }
    BufferEnds(es[i..]);
    assert es[..i] == es;
  }

  lemma BufferEnds(es: seq<Event>)
    requires AllFit(es) && Buffer(es) == []
    ensures es == []
  {
  }

  // Which event is which

  /** The numbers of the kernel's interface, for events that report one thing, on a directory or not. */
  lemma KindsOfMasks()
    ensures forall isDir :: KindOf(0x100, isDir) == KindOf(0x4000_0100, isDir) == Created
    ensures forall isDir :: KindOf(0x80, isDir) == KindOf(0x4000_0080, isDir) == MovedTo
    ensures forall isDir :: KindOf(0x200, isDir) == KindOf(0x4000_0200, isDir) == Deleted
    ensures forall isDir :: KindOf(0x40, isDir) == KindOf(0x4000_0040, isDir) == MovedFrom
    ensures KindOf(0x08, false) == CloseWrite && KindOf(0x4000_0008, true) == Otherwise
    ensures Signed(0xFFFF_FFFF) == -1 && Signed(7) == 7
  {
  }

  /** A name in its field, padded with NULs. */
  function Padded(name: string, pad: nat): seq<byte>
    requires forall i | 0 <= i < |name| :: name[i] as int < 0x100
  {
    seq(|name|, i requires 0 <= i < |name| => name[i] as int) + seq(pad, _ => 0)
  }

  lemma {:induction false} NameReadsBack(name: string, pad: nat)
    requires forall i | 0 <= i < |name| :: 0 < name[i] as int < 0x100
    ensures CName(Padded(name, pad)) == name
    decreases |name|
  {
    var b := Padded(name, pad);
    if name != "" {
      assert forall i | 0 <= i < |name[1..]| :: name[1..][i] == name[i + 1];
      assert b[1..] == Padded(name[1..], pad);
      NameReadsBack(name[1..], pad);
      assert b[0] as char == name[0];
    }
  }

  /**
   * From the event to the folders: a directory that comes into a watched folder is added under its name; a fonts.dir
   * that comes there and can be read puts the folder into the font path; any other file there does nothing.
   */
  lemma EventsReachFolders(s: State, e: Event, a: Answer, s': State, at: Path, name: string, pad: nat)
    requires Takes(s, e, a, s') && Agrees(s) && at in s.folders && Finds(s, Signed(e.wd), Some(at)) && InScope(at)
    requires forall p | p in s.folders :: s.folders[p].wd == Signed(e.wd) ==> p == at
    requires name != "" && (forall i | 0 <= i < |name| :: 0 < name[i] as int < 0x100) && e.name == Padded(name, pad)
    requires Distinct(a.dir)
    ensures e.mask == 0x4000_0100 && at != MOUNT_FONTS
            ==> s'.folders.Keys == s.folders.Keys + Reach(s.folders.Keys, at + [name], a.dir)
    ensures e.mask == 0x4000_0200 ==> s'.folders == s.folders - {at + [name]}
    ensures e.mask == 0x100 && name == "fonts.dir" && a.readable && a.ok
            ==> at in s'.x && at in s'.folders && s'.folders[at].added
    ensures e.mask == 0x100 && name != "fonts.dir" ==> s' == s
  {
    hide FolderEvent, FontsDirEvent, KindOf, Agrees, InScope, Distinct, Reach, CName;
    NameReadsBack(name, pad);
    KindsOfMasks();
    assert Has(0x4000_0100, IN_ISDIR) && Has(0x4000_0200, IN_ISDIR) && !Has(0x100, IN_ISDIR);
    match CallOf(e)
    case None =>
    case Some(FolderCall(wd, kind, n)) =>
      var found :| Finds(s, wd, found)
                   && s' == if found.None? then s else FolderEvent(s, found.value, kind, n, a.dir, a.dropOk);
      OnlyFound(s, wd, at, found);
      FontPathLaws.FolderEventExactly(s, at, kind, n, a.dir, a.dropOk);
    case Some(FontsDirCall(wd, kind)) =>
      var found :| Finds(s, wd, found)
                   && s' == if found.None? then s else FontsDirEvent(s, found.value, kind, a.readable, a.ok);
      OnlyFound(s, wd, at, found);
      FontPathLaws.FontsDirExactly(s, at, kind, a.readable, a.ok);
  }

  lemma OnlyFound(s: State, wd: int, at: Path, found: Option<Path>)
    requires at in s.folders && s.folders[at].wd == wd && Finds(s, wd, found)
    requires forall p | p in s.folders :: s.folders[p].wd == wd ==> p == at
    ensures found == Some(at)
  {
    hide Before, Text;
  }
}
