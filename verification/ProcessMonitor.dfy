/** WSLGd's supervisor: a table of child processes, relaunched on exit unless their command exits too often. */
module ProcessMonitor {
  import opened Bytes

  datatype ProcessInfo = ProcessInfo(argv: seq<string>, capabilities: seq<int>, env: seq<string>)

  /**
   * What the system answers on one turn of the loop: the pid waitpid reaps, the time, and what fork
   * returns should it be called (None when it fails). A failing waitpid ends the list of turns.
   */
  datatype Turn = Turn(pid: int, now: int, forked: Option<int>)

  datatype Outcome = Relaunched(pid: int) | GaveUp | ForkFailed
  datatype Decision = Decision(cmd: string, at: int, info: ProcessInfo, outcome: Outcome)

  const WINDOW := 60
  const LIMIT := 10

  /** The part of an argument in front of its terminator. */
  function CStr(s: string): string {
    if s == [] || s[0] == '\0' then [] else [s[0]] + CStr(s[1..])
  }

  function Command(argv: seq<string>): string {
    if argv == [] then [] else CStr(argv[0]) + " " + Command(argv[1..])
  }

  /** The remove_if of the loop: what is left once everything before now - 60 is dropped. */
  function Recent(ts: seq<int>, now: int): (r: seq<int>) {
    if ts == [] then []
    else if ts[|ts| - 1] < now - WINDOW then Recent(ts[..|ts| - 1], now)
    else Recent(ts[..|ts| - 1], now) + [ts[|ts| - 1]]
  }

  type Children = map<int, ProcessInfo>
  type Crashes = map<string, seq<int>>

  /** The supervisor between two turns; `log` is the history of its decisions. */
  datatype State = State(children: Children, crashes: Crashes, log: seq<Decision>, running: bool)

  function Stamps(crashes: Crashes, cmd: string): seq<int> {
    if cmd in crashes then crashes[cmd] else []
  }

  /** One turn of the loop. The new entry is stored before the reaped one is erased. */
  function Step(s: State, t: Turn): State {
    if !s.running || t.pid !in s.children then s
    else
      var info := s.children[t.pid];
      if info.argv == [] then s.(children := s.children - {t.pid})
      else
        var cmd := Command(info.argv);
        var stamps := Recent(Stamps(s.crashes, cmd), t.now) + [t.now];
        var crashes := s.crashes[cmd := stamps];
        if |stamps| > LIMIT then
          State(s.children - {t.pid}, crashes, s.log + [Decision(cmd, t.now, info, GaveUp)], true)
        else if t.forked.None? then
          State(s.children, crashes, s.log + [Decision(cmd, t.now, info, ForkFailed)], false)
        else
          State(s.children[t.forked.value := info] - {t.pid}, crashes,
                s.log + [Decision(cmd, t.now, info, Relaunched(t.forked.value))], true)
  }

  function After(s: State, turns: seq<Turn>): State
    decreases |turns|
  {
    if turns == [] then s else Step(After(s, turns[..|turns| - 1]), turns[|turns| - 1])
  }

  class Monitor {
    var children: Children

    constructor ()
      ensures children == map[]
    {
      children := map[];
    }

    /** The parent's side of a launch: false when fork fails, which leaves the table alone. */
    method LaunchProcess(info: ProcessInfo, forked: Option<int>) returns (ok: bool)
      modifies this
      ensures ok == forked.Some?
      ensures children == if ok then old(children)[forked.value := info] else old(children)
    {
      if forked.None? {
        return false;
      }
      children := children[forked.value := info];
      ok := true;
    }

    method Run(turns: seq<Turn>) returns (crashes: Crashes, ghost log: seq<Decision>, running: bool)
      modifies this
      ensures State(children, crashes, log, running) == After(State(old(children), map[], [], true), turns)
    {
      ghost var start := State(children, map[], [], true);
      crashes, log, running := map[], [], true;
      var i := 0;
      while i < |turns| && running
        invariant 0 <= i <= |turns|
        invariant State(children, crashes, log, running) == After(start, turns[..i])
      {
        var pid, now := turns[i].pid, turns[i].now;
        ghost var before := State(children, crashes, log, running);
        if pid in children {
          var found := children[pid];
          if found.argv != [] {
            var cmd := Command(found.argv);
            var stamps := Recent(Stamps(crashes, cmd), now) + [now];
            crashes := crashes[cmd := stamps];
            if |stamps| > LIMIT {
              log := log + [Decision(cmd, now, found, GaveUp)];
            } else {
              running := LaunchProcess(found, turns[i].forked);
              var outcome := if running then Relaunched(turns[i].forked.value) else ForkFailed;
              log := log + [Decision(cmd, now, found, outcome)];
            }
          }
          if running {
            children := children - {pid};
          }
        }
        assert State(children, crashes, log, running) == Step(before, turns[i]);
        assert turns[..i + 1][..i] == turns[..i];
        i := i + 1;
      }
      StoppedStays(start, turns, i);
      assert turns[..|turns|] == turns;
    }
  }

  lemma {:induction false} StoppedStays(s: State, turns: seq<Turn>, i: nat)
    requires i <= |turns| && (i == |turns| || !After(s, turns[..i]).running)
    ensures After(s, turns) == After(s, turns[..i])
    decreases |turns| - i
  {
    if i == |turns| {
      assert turns[..i] == turns;
    } else {
      assert turns[..i + 1][..i] == turns[..i];
      StoppedStays(s, turns, i + 1);
    }
  }

  // The sliding window

  /** When, over the whole history, this command exited. */
  function ExitTimes(log: seq<Decision>, cmd: string): seq<int> {
    if log == [] then []
    else
      var d := log[|log| - 1];
      ExitTimes(log[..|log| - 1], cmd) + if d.cmd == cmd then [d.at] else []
  }

  ghost predicate Ordered(log: seq<Decision>) {
    forall i, j | 0 <= i <= j < |log| :: log[i].at <= log[j].at
  }

  lemma ExitTimesGrow(log: seq<Decision>, d: Decision, cmd: string)
    ensures ExitTimes(log + [d], cmd) == if d.cmd == cmd then ExitTimes(log, cmd) + [d.at] else ExitTimes(log, cmd)
  {
    assert (log + [d])[..|log|] == log;
  }

  lemma RecentGrows(ts: seq<int>, at: int, now: int)
    ensures Recent(ts + [at], now) == if at >= now - WINDOW then Recent(ts, now) + [at] else Recent(ts, now)
  {
    assert (ts + [at])[..|ts|] == ts;
  }

  lemma {:induction false} RecentOfRecent(ts: seq<int>, earlier: int, now: int)
    requires earlier <= now
    ensures Recent(Recent(ts, earlier), now) == Recent(ts, now)
    decreases |ts|
  {
    if ts != [] {
      var front, last := ts[..|ts| - 1], ts[|ts| - 1];
      RecentOfRecent(front, earlier, now);
      assert ts == front + [last];
      if last >= earlier - WINDOW {
        RecentGrows(Recent(front, earlier), last, now);
      }
    }
  }

  /** The stored list of every command is its whole exit history, cut to the window that ended at its latest exit. */
  ghost predicate WindowExact(s: State) {
    forall cmd: string :: WindowExactFor(s, cmd)
  }

  ghost predicate WindowExactFor(s: State, cmd: string) {
    var ts := ExitTimes(s.log, cmd);
    && (cmd in s.crashes <==> ts != [])
    && (ts != [] ==> s.crashes[cmd] == Recent(ts, ts[|ts| - 1]))
  }

  /** The clock never reads earlier than at a decision already taken. */
  ghost predicate ClockAtLeast(s: State, now: int) {
    forall i | 0 <= i < |s.log| :: s.log[i].at <= now
  }

  lemma {:induction false} ExitTimesBelow(log: seq<Decision>, cmd: string, now: int)
    requires forall i | 0 <= i < |log| :: log[i].at <= now
    ensures forall i | 0 <= i < |ExitTimes(log, cmd)| :: ExitTimes(log, cmd)[i] <= now
    decreases |log|
  {
    if log != [] {
      ExitTimesBelow(log[..|log| - 1], cmd, now);
    }
  }

  /**
   * At a decision, the list that decides is exactly the times in [now - 60, now] at which this
   * command exited; the monitor gives up exactly when there are at least 11 of them.
   */
  lemma DecisionExact(s: State, t: Turn)
    requires WindowExact(s) && ClockAtLeast(s, t.now)
    requires s.running && t.pid in s.children && s.children[t.pid].argv != []
    ensures var s' := Step(s, t);
            var cmd := Command(s.children[t.pid].argv);
            var d := s'.log[|s'.log| - 1];
            && s'.log == s.log + [d] && d.cmd == cmd && d.at == t.now && d.info == s.children[t.pid]
            && s'.crashes[cmd] == Recent(ExitTimes(s'.log, cmd), t.now)
            && (d.outcome.GaveUp? <==> |Recent(ExitTimes(s'.log, cmd), t.now)| >= 11)
  {
    hide Command, Recent;
    var cmd := Command(s.children[t.pid].argv);
    var ts := ExitTimes(s.log, cmd);
    assert WindowExactFor(s, cmd);
    if ts != [] {
      ExitTimesBelow(s.log, cmd, t.now);
      RecentOfRecent(ts, ts[|ts| - 1], t.now);
    } else {
      assert Recent([], t.now) == [] by {
        NoneRecent(t.now);
      }
    }
    ExitTimesGrow(s.log, Step(s, t).log[|s.log|], cmd);
    RecentGrows(ts, t.now, t.now);
  }

  lemma NoneRecent(now: int)
    ensures Recent([], now) == []
  {
  }

  lemma StepKeepsWindow(s: State, t: Turn)
    requires WindowExact(s) && ClockAtLeast(s, t.now)
    ensures WindowExact(Step(s, t)) && ClockAtLeast(Step(s, t), t.now)
  {
    hide Command, Recent;
    var s' := Step(s, t);
    if s'.log != s.log {
      DecisionExact(s, t);
      var d := s'.log[|s'.log| - 1];
      forall cmd: string
        ensures WindowExactFor(s', cmd)
      {
        assert WindowExactFor(s, cmd);
        ExitTimesGrow(s.log, d, cmd);
        if cmd == d.cmd {
          assert (ExitTimes(s.log, cmd) + [d.at])[|ExitTimes(s.log, cmd)|] == t.now;
        }
      }
    } else {
      assert s'.crashes == s.crashes;
      forall cmd: string
        ensures WindowExactFor(s', cmd)
      {
        assert WindowExactFor(s, cmd);
      }
    }
  }

  ghost predicate ClockRuns(turns: seq<Turn>) {
    forall i, j | 0 <= i <= j < |turns| :: turns[i].now <= turns[j].now
  }

  function Start(children: Children): State {
    State(children, map[], [], true)
  }

  lemma {:induction false} RunKeepsWindow(children: Children, turns: seq<Turn>)
    requires ClockRuns(turns)
    ensures WindowExact(After(Start(children), turns))
    ensures turns != [] ==> ClockAtLeast(After(Start(children), turns), turns[|turns| - 1].now)
    decreases |turns|
  {
    if turns != [] {
      var front := turns[..|turns| - 1];
      RunKeepsWindow(children, front);
      if front != [] {
        assert front[|front| - 1].now <= turns[|turns| - 1].now;
      }
      StepKeepsWindow(After(Start(children), front), turns[|turns| - 1]);
    }
  }

  // The restart bound

  function Relaunches(log: seq<Decision>, cmd: string, lo: int, hi: int): nat {
    if log == [] then 0
    else
      var d := log[|log| - 1];
      Relaunches(log[..|log| - 1], cmd, lo, hi)
      + if d.cmd == cmd && d.outcome.Relaunched? && lo <= d.at <= hi then 1 else 0
  }

  /** Relaunches since `lo` are among the exits since `lo`. */
  lemma {:induction false} RelaunchesAreExits(log: seq<Decision>, cmd: string, lo: int, hi: int, now: int)
    requires now - WINDOW <= lo
    ensures Relaunches(log, cmd, lo, hi) <= |Recent(ExitTimes(log, cmd), now)|
    decreases |log|
  {
    if log != [] {
      var front, d := log[..|log| - 1], log[|log| - 1];
      RelaunchesAreExits(front, cmd, lo, hi, now);
      RecentGrows(ExitTimes(front, cmd), d.at, now);
      assert log == front + [d];
      ExitTimesGrow(front, d, cmd);
    }
  }

  /**
   * In every run of the supervisor, any closed 60-second window holds at most 10 relaunches of a given command
   * string.
   */
  lemma {:induction false} RestartBound(children: Children, turns: seq<Turn>, cmd: string, from: int)
    requires ClockRuns(turns)
    ensures Relaunches(After(Start(children), turns).log, cmd, from, from + WINDOW) <= LIMIT
    decreases |turns|
  {
    if turns != [] {
      var front, t := turns[..|turns| - 1], turns[|turns| - 1];
      RestartBound(children, front, cmd, from);
      var s, s' := After(Start(children), front), After(Start(children), turns);
      if s'.log != s.log {
        RunKeepsWindow(children, front);
        if front != [] {
          assert front[|front| - 1].now <= t.now;
        }
        DecisionExact(s, t);
        var d := s'.log[|s'.log| - 1];
        hide Recent, Command;
        assert s'.log[..|s'.log| - 1] == s.log;
        if d.cmd == cmd && d.outcome.Relaunched? && from <= d.at <= from + WINDOW {
          RelaunchesAreExits(s'.log, cmd, from, from + WINDOW, t.now);
        }
      }
    }
  }

  /** The bound is met: ten quick exits are all answered with a relaunch, the eleventh is not. */
  lemma {:induction false} TenThenGiveUp(s: State, t: Turn)
    requires WindowExact(s) && ClockAtLeast(s, t.now)
    requires s.running && t.pid in s.children && s.children[t.pid].argv != [] && t.forked.Some?
    ensures var n := |Recent(ExitTimes(s.log, Command(s.children[t.pid].argv)), t.now)|;
            var d := Step(s, t).log[|s.log|];
            if n < LIMIT then d.outcome == Relaunched(t.forked.value) else d.outcome == GaveUp
  {
    hide Command, Recent;
    DecisionExact(s, t);
    var cmd := Command(s.children[t.pid].argv);
    ExitTimesGrow(s.log, Step(s, t).log[|s.log|], cmd);
    RecentGrows(ExitTimes(s.log, cmd), t.now, t.now);
  }

  // Conservation of the launched records

  /** How many tracked processes carry this record. */
  function Tracked(children: Children, info: ProcessInfo): nat {
    |set p | p in children && children[p] == info|
  }

  function GivenUp(log: seq<Decision>, info: ProcessInfo): nat {
    if log == [] then 0
    else
      var d := log[|log| - 1];
      GivenUp(log[..|log| - 1], info) + if d.info == info && d.outcome.GaveUp? then 1 else 0
  }

  lemma TrackedAdd(children: Children, p: int, added: ProcessInfo, info: ProcessInfo)
    requires p !in children
    ensures Tracked(children[p := added], info) == Tracked(children, info) + if added == info then 1 else 0
  {
    var children' := children[p := added];
    var before := set q | q in children && children[q] == info;
    var after := set q | q in children' && children'[q] == info;
    assert after == if added == info then before + {p} else before;
  }

  lemma TrackedRemove(children: Children, p: int, info: ProcessInfo)
    requires p in children
    ensures Tracked(children - {p}, info) == Tracked(children, info) - if children[p] == info then 1 else 0
  {
    var before := set q | q in children && children[q] == info;
    var after := set q | q in children - {p} && (children - {p})[q] == info;
    assert before == if children[p] == info then after + {p} else after;
  }

  /** What the kernel promises of fork: the new pid is not one the table still holds, the one just reaped included. */
  predicate ForkFresh(s: State, t: Turn) {
    t.forked.Some? ==> t.forked.value !in s.children
  }

  /** A turn neither loses nor duplicates a record; one without arguments has nothing to relaunch and simply ends. */
  lemma StepConserves(s: State, t: Turn, info: ProcessInfo)
    requires ForkFresh(s, t)
    requires info.argv != []
    ensures var s' := Step(s, t);
            Tracked(s'.children, info) + GivenUp(s'.log, info) == Tracked(s.children, info) + GivenUp(s.log, info)
  {
    var s' := Step(s, t);
    if s.running && t.pid in s.children {
      var found := s.children[t.pid];
      if found.argv != [] {
        assert s'.log[..|s'.log| - 1] == s.log;
      }
      if s'.running {
        hide Command, Recent;
        if s'.log != s.log && s'.log[|s'.log| - 1].outcome.Relaunched? {
          TrackedAdd(s.children, t.forked.value, found, info);
          TrackedRemove(s.children[t.forked.value := found], t.pid, info);
        } else {
          TrackedRemove(s.children, t.pid, info);
        }
      }
    }
  }

  /** The launches that filled the table, each under a pid not in use. */
  function Launched(launches: seq<(int, ProcessInfo)>): Children {
    if launches == [] then map[]
    else Launched(launches[..|launches| - 1])[launches[|launches| - 1].0 := launches[|launches| - 1].1]
  }

  ghost predicate FreshLaunches(launches: seq<(int, ProcessInfo)>) {
    forall i, j | 0 <= i < j < |launches| :: launches[i].0 != launches[j].0
  }

  function Count(launches: seq<(int, ProcessInfo)>, info: ProcessInfo): nat {
    if launches == [] then 0
    else Count(launches[..|launches| - 1], info) + if launches[|launches| - 1].1 == info then 1 else 0
  }

  lemma {:induction false} LaunchedCount(launches: seq<(int, ProcessInfo)>, info: ProcessInfo)
    requires FreshLaunches(launches)
    ensures Tracked(Launched(launches), info) == Count(launches, info)
    ensures forall p :: p in Launched(launches) <==> exists i :: 0 <= i < |launches| && launches[i].0 == p
    decreases |launches|
  {
    if launches != [] {
      var front, last := launches[..|launches| - 1], launches[|launches| - 1];
      LaunchedCount(front, info);
      assert last.0 !in Launched(front);
      TrackedAdd(Launched(front), last.0, last.1, info);
    }
  }

  ghost predicate ForksFresh(s: State, turns: seq<Turn>) {
    forall i | 0 <= i < |turns| :: ForkFresh(After(s, turns[..i]), turns[i])
  }

  /**
   * Over any run, record by record: launched = still tracked + given up. So every relaunch carries
   * a record that LaunchProcess was originally given, and no record is ever tracked twice for one launch.
   */
  lemma {:induction false} Conservation(launches: seq<(int, ProcessInfo)>, turns: seq<Turn>, info: ProcessInfo)
    requires FreshLaunches(launches) && ForksFresh(Start(Launched(launches)), turns) && info.argv != []
    ensures var s := After(Start(Launched(launches)), turns);
            Count(launches, info) == Tracked(s.children, info) + GivenUp(s.log, info)
    decreases |turns|
  {
    var start := Start(Launched(launches));
    if turns == [] {
      LaunchedCount(launches, info);
    } else {
      var front := turns[..|turns| - 1];
      forall i | 0 <= i < |front|
        ensures ForkFresh(After(start, front[..i]), front[i])
      {
        assert front[..i] == turns[..i];
      }
      Conservation(launches, front, info);
      assert ForkFresh(After(start, turns[..|front|]), turns[|front|]);
      StepConserves(After(start, front), turns[|turns| - 1], info);
    }
  }

  /**
   * Why freshness is needed, exactly: a relaunch keeps the number of tracked processes if and only if
   * fork's pid was not in the table. Reusing the pid just reaped, even, stores the new entry and then erases it.
   */
  lemma RelaunchKeepsCountExactly(s: State, t: Turn)
    requires s.running && t.pid in s.children && t.forked.Some?
    requires Step(s, t).log != s.log && Step(s, t).log[|s.log|].outcome.Relaunched?
    ensures |Step(s, t).children| == |s.children| <==> t.forked.value !in s.children
    ensures t.forked.value == t.pid ==> t.pid !in Step(s, t).children
  {
    var p := t.forked.value;
    var added := s.children[p := s.children[t.pid]];
    assert added.Keys == s.children.Keys + {p};
    assert (added - {t.pid}).Keys == added.Keys - {t.pid};
  }

  /** A pid that is not in the table changes nothing. */
  lemma UntrackedChangesNothing(s: State, t: Turn)
    requires t.pid !in s.children
    ensures Step(s, t) == s
  {
  }

  /** Those turns of a run that reap a pid the table holds. */
  function TrackedTurns(s: State, turns: seq<Turn>): seq<Turn>
    decreases |turns|
  {
    if turns == [] then []
    else
      var (front, t) := (turns[..|turns| - 1], turns[|turns| - 1]);
      if t.pid in After(s, front).children then TrackedTurns(s, front) + [t] else TrackedTurns(s, front)
  }

  /**
   * Over any run the turns that reap foreign processes might as well not have been: table, stamps and log are the
   * same.
   */
  lemma {:induction false} UntrackedDropOut(s: State, turns: seq<Turn>)
    ensures After(s, TrackedTurns(s, turns)) == After(s, turns)
    decreases |turns|
  {
    hide Step;
    if turns != [] {
      var (front, t) := (turns[..|turns| - 1], turns[|turns| - 1]);
      UntrackedDropOut(s, front);
      if t.pid in After(s, front).children {
        assert (TrackedTurns(s, front) + [t])[..|TrackedTurns(s, front)|] == TrackedTurns(s, front);
      } else {
        UntrackedChangesNothing(After(s, front), t);
      }
    }
  }
}
