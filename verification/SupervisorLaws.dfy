/** The supervisor's limit by argument lists: which processes share a command, and what that means for each list. */
module SupervisorLaws {
  import opened ProcessMonitor

  // Commands and argument lists

  /** An argument that is passed on whole and cannot be taken for two. */
  predicate PlainArgument(a: string) {
    ' ' !in a && '\0' !in a
  }

  predicate PlainList(argv: seq<string>) {
    forall a | a in argv :: PlainArgument(a)
  }

  lemma {:induction false} PlainIsWhole(a: string)
    requires '\0' !in a
    ensures CStr(a) == a
    decreases |a|
  {
    if a != "" {
      PlainIsWhole(a[1..]);
    }
  }

  /** The command of two lists laid end to end is their commands laid end to end. */
  lemma {:induction false} CommandConcat(a: seq<string>, b: seq<string>)
    ensures Command(a + b) == Command(a) + Command(b)
    decreases |a|
  {
    hide CStr;
    if a == [] {
      assert a + b == b;
    } else {
      CommandConcat(a[1..], b);
      assert (a + b)[1..] == a[1..] + b;
      var (first, restA, restB) := (CStr(a[0]) + " ", Command(a[1..]), Command(b));
      assert first + (restA + restB) == first + restA + restB;
    }
  }

  /** A command begins with its first argument and a space. */
  lemma CommandBegins(argv: seq<string>)
    requires argv != [] && PlainList(argv)
    ensures Command(argv) == argv[0] + " " + Command(argv[1..]) && PlainList(argv[1..]) && ' ' !in argv[0]
  {
    assert argv[0] in argv;
    PlainIsWhole(argv[0]);
  }

  lemma FirstWord(a: string, restA: string, b: string, restB: string)
    requires ' ' !in a && ' ' !in b && a + " " + restA == b + " " + restB
    ensures a == b && restA == restB
  {
    var s := a + " " + restA;
    assert s[|a|] == ' ' && s[|b|] == ' ';
    assert forall i | 0 <= i < |a| :: s[i] == a[i] && a[i] in a;
    assert forall i | 0 <= i < |b| :: s[i] == b[i] && b[i] in b;
    assert s[..|a|] == a && s[..|b|] == b && s[|a| + 1..] == restA && s[|b| + 1..] == restB;
  }

  /** Lists of plain arguments share a command only if they are the same list. */
  lemma {:induction false} CommandTellsList(a: seq<string>, b: seq<string>)
    requires PlainList(a) && PlainList(b)
    ensures Command(a) == Command(b) <==> a == b
    decreases |a|
  {
    if a != [] {
      CommandBegins(a);
    }
    if b != [] {
      CommandBegins(b);
    }
    if a != [] && b != [] && Command(a) == Command(b) {
      FirstWord(a[0], Command(a[1..]), b[0], Command(b[1..]));
      CommandTellsList(a[1..], b[1..]);
      assert a == [a[0]] + a[1..] && b == [b[0]] + b[1..];
    }
  }

  /** Lists with a space inside an argument may share one: these two are limited together. */
  lemma SpacesShareCommand()
    ensures Command(["a b"]) == Command(["a", "b"]) && ["a b"] != ["a", "b"]
  {
    PlainIsWhole("a b");
    PlainIsWhole("a");
    PlainIsWhole("b");
    assert ["a", "b"][1..] == ["b"];
    assert Command(["b"]) == "b ";
  }

  /** The words of an argument: what its spaces part, up to its terminator. */
  function Split(a: string): (words: seq<string>)
    ensures words != []
  {
    if a == "" || a[0] == '\0' then [""]
    else if a[0] == ' ' then [""] + Split(a[1..])
    else
      var rest := Split(a[1..]);
      [[a[0]] + rest[0]] + rest[1..]
  }

  function Words(argv: seq<string>): seq<string> {
    if argv == [] then [] else Split(argv[0]) + Words(argv[1..])
  }

  lemma {:induction false} SplitSpells(a: string)
    ensures Command(Split(a)) == CStr(a) + " " && PlainList(Split(a))
    decreases |a|
  {
    if a != "" && a[0] != '\0' {
      SplitSpells(a[1..]);
      if a[0] == ' ' {
        CommandConcat([""], Split(a[1..]));
        assert [""][1..] == [];
      } else {
        LongerFirst(a[0], Split(a[1..]));
      }
    }
  }

  lemma LongerFirst(c: char, words: seq<string>)
    requires words != [] && PlainList(words) && c != ' ' && c != '\0'
    ensures var longer := [[c] + words[0]] + words[1..];
            PlainList(longer) && Command(longer) == [c] + Command(words)
  {
    hide CStr, Command, PlainList, PlainArgument;
    LongerPlain(c, words[0], words[1..], words);
    LongerCommand(c, words[0], words[1..]);
    assert words == [words[0]] + words[1..];
  }

  lemma LongerPlain(c: char, first: string, rest: seq<string>, words: seq<string>)
    requires words == [first] + rest && PlainList(words) && c != ' ' && c != '\0'
    ensures PlainList([[c] + first] + rest)
  {
    assert first in words && forall w | w in rest :: w in words;
  }

  lemma LongerCommand(c: char, first: string, rest: seq<string>)
    requires c != '\0'
    ensures Command([[c] + first] + rest) == [c] + Command([first] + rest)
  {
    hide CStr;
    var longer := [[c] + first] + rest;
    assert longer[1..] == rest && ([first] + rest)[1..] == rest;
    LongerWhole(c, first);
    assert [c] + CStr(first) + " " + Command(rest) == [c] + (CStr(first) + " " + Command(rest));
  }

  lemma LongerWhole(c: char, a: string)
    requires c != '\0'
    ensures CStr([c] + a) == [c] + CStr(a)
  {
    assert ([c] + a)[1..] == a;
  }

  lemma {:induction false} WordsSpell(argv: seq<string>)
    ensures Command(Words(argv)) == Command(argv) && PlainList(Words(argv))
    decreases |argv|
  {
    hide CStr, Split;
    if argv != [] {
      SplitSpells(argv[0]);
      WordsSpell(argv[1..]);
      CommandConcat(Split(argv[0]), Words(argv[1..]));
    }
  }

  lemma {:induction false} PlainSplit(a: string)
    requires PlainArgument(a)
    ensures Split(a) == [a]
    decreases |a|
  {
    if a != "" {
      assert a[0] in a;
      PlainSplit(a[1..]);
      assert [a[0]] + a[1..] == a;
    }
  }

  lemma {:induction false} PlainWords(argv: seq<string>)
    requires PlainList(argv)
    ensures Words(argv) == argv
    decreases |argv|
  {
    if argv != [] {
      PlainSplit(argv[0]);
      PlainWords(argv[1..]);
    }
  }

  /** When any two lists share a command: if and only if they have the same words. */
  lemma CommandTellsWords(a: seq<string>, b: seq<string>)
    ensures Command(a) == Command(b) <==> Words(a) == Words(b)
  {
    hide Words;
    WordsSpell(a);
    WordsSpell(b);
    CommandTellsList(Words(a), Words(b));
  }

  // The limit, list by list

  /** How many processes with these words exited in the closed interval. */
  function ExitsOf(log: seq<Decision>, words: seq<string>, lo: int, hi: int): nat {
    if log == [] then 0
    else
      var d := log[|log| - 1];
      ExitsOf(log[..|log| - 1], words, lo, hi) + if Words(d.info.argv) == words && lo <= d.at <= hi then 1 else 0
  }

  function RelaunchesOf(log: seq<Decision>, words: seq<string>, lo: int, hi: int): nat {
    if log == [] then 0
    else
      var d := log[|log| - 1];
      RelaunchesOf(log[..|log| - 1], words, lo, hi)
      + if Words(d.info.argv) == words && d.outcome.Relaunched? && lo <= d.at <= hi then 1 else 0
  }

  /** Every decision is recorded under the command of its process. */
  predicate Named(log: seq<Decision>) {
    forall i | 0 <= i < |log| :: log[i].cmd == Command(log[i].info.argv)
  }

  lemma StepKeepsNamed(s: State, t: Turn)
    requires Named(s.log)
    ensures Named(Step(s, t).log)
  {
    hide Command, Recent;
  }

  lemma {:induction false} RunKeepsNamed(children: Children, turns: seq<Turn>)
    ensures Named(After(Start(children), turns).log)
    decreases |turns|
  {
    hide Step, Command;
    if turns != [] {
      var front := turns[..|turns| - 1];
      RunKeepsNamed(children, front);
      StepKeepsNamed(After(Start(children), front), turns[|turns| - 1]);
    }
  }

  /** The exits of a list in the last 60 seconds are the recent stamps of its command. */
  lemma {:induction false} ExitsCounted(log: seq<Decision>, argv: seq<string>, now: int)
    requires Named(log) && forall i | 0 <= i < |log| :: log[i].at <= now
    ensures |Recent(ExitTimes(log, Command(argv)), now)| == ExitsOf(log, Words(argv), now - 60, now)
    decreases |log|
  {
    hide Command, Words, Recent;
    if log == [] {
      NoneRecent(now);
    } else {
      var (front, d) := (log[..|log| - 1], log[|log| - 1]);
      ExitsCounted(front, argv, now);
      assert log == front + [d];
      ExitTimesGrow(front, d, Command(argv));
      RecentGrows(ExitTimes(front, Command(argv)), d.at, now);
      CommandTellsWords(d.info.argv, argv);
    }
  }

  lemma {:induction false} RelaunchesCounted(log: seq<Decision>, argv: seq<string>, lo: int, hi: int)
    requires Named(log)
    ensures RelaunchesOf(log, Words(argv), lo, hi) == Relaunches(log, Command(argv), lo, hi)
    decreases |log|
  {
    hide Command, Words;
    if log != [] {
      RelaunchesCounted(log[..|log| - 1], argv, lo, hi);
      CommandTellsWords(log[|log| - 1].info.argv, argv);
    }
  }

  /**
   * The decision about a process in every run of the supervisor: it is given up if and only if, with this exit, at
   * least 11 processes with its words exited within the last 60 seconds; where no argument holds a space or a NUL,
   * these are the processes with exactly its arguments. Otherwise it is started again with the record it had, unless
   * fork fails, which ends the run.
   */
  lemma GivenUpExactly(children: Children, turns: seq<Turn>, t: Turn)
    requires ClockRuns(turns + [t])
    requires var s := After(Start(children), turns); s.running && t.pid in s.children && s.children[t.pid].argv != []
    ensures var (s, s') := (After(Start(children), turns), Step(After(Start(children), turns), t));
            var info := s.children[t.pid];
            var n := ExitsOf(s'.log, Words(info.argv), t.now - 60, t.now);
            && |s'.log| == |s.log| + 1 && s'.log[|s.log|].info == info && s'.log[|s.log|].at == t.now
            && (s'.log[|s.log|].outcome.GaveUp? <==> n >= 11)
            && (n >= 11 ==> s'.running && s'.children == s.children - {t.pid})
            && (n < 11 && t.forked.Some? ==>
                  s'.running && s'.children == s.children[t.forked.value := info] - {t.pid})
            && (n < 11 && t.forked.None? ==> !s'.running && s'.children == s.children)
  {
    hide Command, Recent, Words;
    ClockOfRun(children, turns, t);
    RunKeepsWindow(children, turns);
    RunKeepsNamed(children, turns);
    var s := After(Start(children), turns);
    DecisionExact(s, t);
    StepKeepsNamed(s, t);
    StepKeepsWindow(s, t);
    ExitsCounted(Step(s, t).log, s.children[t.pid].argv, t.now);
  }

  /** How many processes with exactly these arguments exited in the closed interval. */
  function ExitsOfList(log: seq<Decision>, argv: seq<string>, lo: int, hi: int): nat {
    if log == [] then 0
    else
      var d := log[|log| - 1];
      ExitsOfList(log[..|log| - 1], argv, lo, hi) + if d.info.argv == argv && lo <= d.at <= hi then 1 else 0
  }

  /** Among plain lists the count by words is the count by lists. */
  lemma {:induction false} PlainExits(log: seq<Decision>, argv: seq<string>, lo: int, hi: int)
    requires PlainList(argv) && forall i | 0 <= i < |log| :: PlainList(log[i].info.argv)
    ensures ExitsOf(log, Words(argv), lo, hi) == ExitsOfList(log, argv, lo, hi)
    decreases |log|
  {
    hide Words, PlainList;
    PlainWords(argv);
    if log != [] {
      PlainExits(log[..|log| - 1], argv, lo, hi);
      PlainWords(log[|log| - 1].info.argv);
    }
  }

  lemma ClockOfRun(children: Children, turns: seq<Turn>, t: Turn)
    requires ClockRuns(turns + [t])
    ensures ClockRuns(turns) && ClockAtLeast(After(Start(children), turns), t.now)
  {
    var all := turns + [t];
    assert forall i | 0 <= i < |turns| :: all[i] == turns[i];
    RunKeepsWindow(children, turns);
    if turns != [] {
      assert all[|turns| - 1].now <= all[|turns|].now;
    }
  }

  /** So no closed window of 60 seconds holds more than 10 restarts of processes with the same words. */
  lemma RestartBoundByWords(children: Children, turns: seq<Turn>, argv: seq<string>, from: int)
    requires ClockRuns(turns)
    ensures RelaunchesOf(After(Start(children), turns).log, Words(argv), from, from + 60) <= 10
  {
    hide Command, Words, After;
    RunKeepsNamed(children, turns);
    RestartBound(children, turns, Command(argv), from);
    RelaunchesCounted(After(Start(children), turns).log, argv, from, from + 60);
  }

  /** A record without arguments has nothing to start again: its exit takes it out of the table and is not counted. */
  lemma NoArgumentsEnds(s: State, t: Turn)
    requires s.running && t.pid in s.children && s.children[t.pid].argv == []
    ensures Step(s, t) == s.(children := s.children - {t.pid})
  {
  }
}
