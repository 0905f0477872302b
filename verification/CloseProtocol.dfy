/**
 * OnDataReceived on any number of threads against one OnClose, step by step: the closed flag is set and first
 * tested outside the lock, the database is dropped inside it.
 */
module CloseProtocol {
  /** Where a call of OnDataReceived is. From Guard to Leaving it holds the lock. */
  datatype Receiver = Called | Waiting | Guard | Passed | Handling | Leaving | Returned

  /** Where OnClose is. From Locked to Dropped it holds the lock. */
  datatype Closer = NotCalled | FlagSet | Locked | Dropped | Closed

  datatype Owner = Nobody | ByReceiver(id: nat) | ByCloser

  /** `late` counts the messages whose handler started after the flag was set. */
  datatype State = State(flag: bool, owner: Owner, db: bool, calls: seq<Receiver>, closer: Closer, late: nat)

  datatype Action =
    | TestFlag(id: nat)             // the test before the lock
    | Enter(id: nat)                // EnterCriticalSection
    | TestGuard(id: nat, more: bool)  // while (len && !m_bChannelClosed)
    | StartHandler(id: nat)         // a message is taken up
    | EndHandler(id: nat, ok: bool) // the handler returns; a failure breaks out of the loop
    | Leave(id: nat)                // LeaveCriticalSection, return
    | SetFlag
    | CloseEnter
    | DropDb                        // sync cancelled, database closed and released
    | CloseLeave

  function Init(calls: nat): State {
    State(false, Nobody, true, seq(calls, _ => Called), NotCalled, 0)
  }

  predicate At(s: State, id: nat, pc: Receiver) {
    id < |s.calls| && s.calls[id] == pc
  }

  predicate Enabled(s: State, a: Action) {
    match a
    case TestFlag(id) => At(s, id, Called)
    case Enter(id) => At(s, id, Waiting) && s.owner == Nobody
    case TestGuard(id, _) => At(s, id, Guard)
    case StartHandler(id) => At(s, id, Passed)
    case EndHandler(id, _) => At(s, id, Handling)
    case Leave(id) => At(s, id, Leaving)
    case SetFlag => s.closer == NotCalled
    case CloseEnter => s.closer == FlagSet && s.owner == Nobody
    case DropDb => s.closer == Locked
    case CloseLeave => s.closer == Dropped
  }

  /** An action whose turn comes when it is not enabled has to wait: nothing happens. */
  function Step(s: State, a: Action): State {
    if !Enabled(s, a) then s
    else
      match a
      case TestFlag(id) => s.(calls := s.calls[id := if s.flag then Returned else Waiting])
      case Enter(id) => s.(calls := s.calls[id := Guard], owner := ByReceiver(id))
      case TestGuard(id, more) => s.(calls := s.calls[id := if more && !s.flag then Passed else Leaving])
      case StartHandler(id) => s.(calls := s.calls[id := Handling], late := s.late + if s.flag then 1 else 0)
      case EndHandler(id, ok) => s.(calls := s.calls[id := if ok then Guard else Leaving])
      case Leave(id) => s.(calls := s.calls[id := Returned], owner := Nobody)
      case SetFlag => s.(flag := true, closer := FlagSet)
      case CloseEnter => s.(owner := ByCloser, closer := Locked)
      case DropDb => s.(db := false, closer := Dropped)
      case CloseLeave => s.(owner := Nobody, closer := Closed)
  }

  /** Any interleaving is a sequence of actions. */
  function After(calls: nat, trace: seq<Action>): State {
    if trace == [] then Init(calls) else Step(After(calls, trace[..|trace| - 1]), trace[|trace| - 1])
  }

  predicate HoldsLock(pc: Receiver) {
    pc.Guard? || pc.Passed? || pc.Handling? || pc.Leaving?
  }

  ghost predicate Inv(s: State) {
    // the lock has one holder, and whoever is inside the critical section is it
    && (forall i | 0 <= i < |s.calls| :: HoldsLock(s.calls[i]) <==> s.owner == ByReceiver(i))
    && (s.closer.Locked? || s.closer.Dropped? <==> s.owner == ByCloser)
    && (s.owner.ByReceiver? ==> s.owner.id < |s.calls|)
    // the flag goes up before the closer asks for the lock; the database goes away only inside it
    && (s.flag <==> !s.closer.NotCalled?)
    && (s.db <==> !s.closer.Dropped? && !s.closer.Closed?)
    // who has passed the guard, or is handling, still has the database
    && (forall i | 0 <= i < |s.calls| :: s.calls[i].Passed? || s.calls[i].Handling? ==> s.db)
    // a guard passed with the flag down is spent by at most one late start
    && (!s.flag ==> s.late == 0)
    && s.late <= 1
    && (s.late == 1 ==> forall i | 0 <= i < |s.calls| :: !s.calls[i].Passed?)
  }

  lemma StepKeepsInv(s: State, a: Action)
    requires Inv(s)
    ensures Inv(Step(s, a))
  {
    if Enabled(s, a) {
      match a
      case StartHandler(id) =>
        assert HoldsLock(s.calls[id]) && s.owner == ByReceiver(id);
        assert forall i | 0 <= i < |s.calls| && i != id :: !HoldsLock(s.calls[i]);
      case DropDb =>
        assert forall i | 0 <= i < |s.calls| :: !HoldsLock(s.calls[i]);
      case _ =>
    }
  }

  lemma {:induction false} AlwaysInv(calls: nat, trace: seq<Action>)
    ensures Inv(After(calls, trace))
    decreases |trace|
  {
    if trace != [] {
      AlwaysInv(calls, trace[..|trace| - 1]);
      StepKeepsInv(After(calls, trace[..|trace| - 1]), trace[|trace| - 1]);
    }
  }

  /**
   * In every interleaving no handler is running, or about to run, once the database is gone, and never two at a time.
   */
  lemma NoHandlerWithoutDb(calls: nat, trace: seq<Action>, i: nat, j: nat)
    ensures var s := After(calls, trace);
            && (At(s, i, Passed) || At(s, i, Handling) ==> s.db)
            && (At(s, i, Handling) && At(s, j, Handling) ==> i == j)
  {
    AlwaysInv(calls, trace);
  }

  /** The trace goes on: one action at a time from the state `before` has reached. */
  lemma AfterMoreActions(calls: nat, before: seq<Action>, after: seq<Action>, a: Action)
    ensures After(calls, before + (after + [a])) == Step(After(calls, before + after), a)
  {
    assert before + (after + [a]) == before + after + [a];
    AfterMore(calls, before + after, a);
  }

  /** Once the flag is up no action takes a call past its guard. */
  lemma NobodyPasses(s: State, a: Action, id: nat)
    requires s.flag && At(Step(s, a), id, Passed)
    ensures Step(s, a).flag && At(s, id, Passed)
  {
  }

  /** From the moment the flag is set: whoever is past the guard was past it then already. */
  lemma {:induction false} PassedBeforeFlag(calls: nat, before: seq<Action>, after: seq<Action>, id: nat)
    requires Enabled(After(calls, before), SetFlag)
    ensures var s := After(calls, before + [SetFlag] + after);
            s.flag && (At(s, id, Passed) ==> At(After(calls, before), id, Passed))
    decreases |after|
  {
    if after == [] {
      assert before + [SetFlag] + [] == before + [SetFlag];
      AfterMore(calls, before, SetFlag);
    } else {
      var (front, a) := (after[..|after| - 1], after[|after| - 1]);
      PassedBeforeFlag(calls, before, front, id);
      assert front + [a] == after;
      AfterMoreActions(calls, before + [SetFlag], front, a);
      var s := After(calls, before + [SetFlag] + front);
      FlagStays(s, a);
      if At(Step(s, a), id, Passed) {
        NobodyPasses(s, a, id);
      }
    }
  }

  lemma FlagStays(s: State, a: Action)
    requires s.flag
    ensures Step(s, a).flag
  {
  }

  /**
   * In every interleaving, once the flag is set only a call that had passed its guard before may still start a
   * handler, and only while no other has done so.
   */
  lemma OnlyEarlierGuardsStart(calls: nat, before: seq<Action>, after: seq<Action>, id: nat)
    requires Enabled(After(calls, before), SetFlag)
    requires Enabled(After(calls, before + [SetFlag] + after), StartHandler(id))
    ensures At(After(calls, before), id, Passed) && After(calls, before + [SetFlag] + after).late == 0
  {
    hide After;
    PassedBeforeFlag(calls, before, after, id);
    AlwaysInv(calls, before + [SetFlag] + after);
  }

  /** At most one handler starts late in a whole run, and a guard tested with the flag up sends its call away. */
  lemma AtMostOneLateStart(calls: nat, trace: seq<Action>, id: nat, more: bool)
    ensures After(calls, trace).late <= 1
    ensures After(calls, trace).flag && Enabled(After(calls, trace), TestGuard(id, more))
            ==> At(Step(After(calls, trace), TestGuard(id, more)), id, Leaving)
  {
    AlwaysInv(calls, trace);
  }

  /** And one such start does happen: the guard passes, the flag goes up, the message is still handled. */
  lemma LateStartHappens()
    ensures exists trace :: After(1, trace).late == 1
  {
    var t0: seq<Action> := [];
    AfterMore(1, t0, TestFlag(0));
    var t1 := t0 + [TestFlag(0)];
    AfterMore(1, t1, Enter(0));
    var t2 := t1 + [Enter(0)];
    AfterMore(1, t2, TestGuard(0, true));
    var t3 := t2 + [TestGuard(0, true)];
    AfterMore(1, t3, SetFlag);
    var t4 := t3 + [SetFlag];
    AfterMore(1, t4, StartHandler(0));
    assert After(1, t1).calls == [Waiting];
    assert After(1, t2).calls == [Guard];
    assert After(1, t3).calls == [Passed];
    assert After(1, t4).flag && After(1, t4).late == 0;
    assert After(1, t4 + [StartHandler(0)]).late == 1;
  }

  lemma AfterMore(calls: nat, trace: seq<Action>, a: Action)
    ensures After(calls, trace + [a]) == Step(After(calls, trace), a)
  {
    assert (trace + [a])[..|trace|] == trace;
  }

  /** Once OnClose has returned, nothing a receiver does starts a handler again. */
  lemma ClosedStaysQuiet(calls: nat, trace: seq<Action>, a: Action)
    requires After(calls, trace).closer.Closed?
    requires Enabled(After(calls, trace), a)
    ensures !a.StartHandler? && !a.EndHandler?
    ensures Step(After(calls, trace), a).closer.Closed?
  {
    AlwaysInv(calls, trace);
  }

  /** A call on its way out, or gone. */
  predicate Done(s: State, id: nat) {
    At(s, id, Leaving) || At(s, id, Returned)
  }

  lemma DoneStays(s: State, a: Action, id: nat)
    requires Done(s, id)
    ensures Done(Step(s, a), id)
  {
  }

  /**
   * A handler that fails is the last of its call: whatever happens afterwards the call is on its way out and starts no
   * handler. One that succeeds goes back to the guard, which decides whether there is another.
   */
  lemma {:induction false} FailureEndsCall(calls: nat, before: seq<Action>, after: seq<Action>, id: nat)
    requires Enabled(After(calls, before), EndHandler(id, false))
    ensures Done(After(calls, before + [EndHandler(id, false)] + after), id)
    ensures !Enabled(After(calls, before + [EndHandler(id, false)] + after), StartHandler(id))
    ensures At(Step(After(calls, before), EndHandler(id, true)), id, Guard)
    decreases |after|
  {
    hide After;
    var end := EndHandler(id, false);
    if after == [] {
      assert before + [end] + [] == before + [end];
      AfterMore(calls, before, end);
    } else {
      var (front, a) := (after[..|after| - 1], after[|after| - 1]);
      FailureEndsCall(calls, before, front, id);
      assert front + [a] == after;
      AfterMoreActions(calls, before + [end], front, a);
      DoneStays(After(calls, before + [end] + front), a, id);
    }
  }

  /** Once the flag is set and nobody holds the lock the close goes through, and leaves no database and a free lock. */
  lemma CloseCompletes(calls: nat, trace: seq<Action>)
    requires After(calls, trace).closer.FlagSet? && After(calls, trace).owner.Nobody?
    ensures var s := After(calls, trace + [CloseEnter] + [DropDb] + [CloseLeave]);
            s.closer.Closed? && !s.db && s.owner.Nobody? && s.calls == After(calls, trace).calls
  {
    hide After;
    AfterMore(calls, trace, CloseEnter);
    AfterMore(calls, trace + [CloseEnter], DropDb);
    AfterMore(calls, trace + [CloseEnter] + [DropDb], CloseLeave);
  }

  /**
   * The two tests: the guard lets a message through only if there is one and the flag is down; a late call turns
   * round.
   */
  lemma TestsDecide(s: State, id: nat, more: bool)
    ensures Enabled(s, TestGuard(id, more)) ==> (At(Step(s, TestGuard(id, more)), id, Passed) <==> more && !s.flag)
    ensures Enabled(s, TestFlag(id)) ==> (At(Step(s, TestFlag(id)), id, Returned) <==> s.flag)
  {
  }
}
