/** What a run remembers: the files an application was added with, and the handshake. */
module HistoryLaws {
  import opened Bytes
  import opened Protocol
  import opened ClientRead
  import opened Paths
  import opened FileEntries
  import opened FileSys
  import opened TreeWalk
  import opened WalkLaws
  import opened Client
  import opened ClientLaws
  import opened SessionLaws
  import opened SyncLaws
  import ServerLoop

  // Update, then delete

  /** Neither the closing of the channel nor a successful delete of the key. */
  predicate Keeps(c: Client, e: Event, key: WStr)
    requires Deletes(c, e) ==> c.db.Some?
  {
    && !e.Closing?
    && (Deletes(c, e) && Key(e.msg.delete.appGroup, e.msg.delete.appId) == key
        ==> OnDelete(c, e.msg.delete).1.NotFound?)
  }

  predicate RunKeeps(host: Host, c: Client, es: seq<Event>, key: WStr)
    requires !c.closed ==> c.db.Some?
    decreases |es|
  {
    es == []
    || (&& Keeps(c, es[0], key)
        && var c' := Step(host, c, es[0]);
        (!c'.closed ==> c'.db.Some?) && RunKeeps(host, c', es[1..], key))
  }

  lemma InsertKeepsOthers(db: Entries, e: FileEntry, key: WStr)
    requires Sorted(db)
    ensures Find(db, key).Some? ==> Find(Insert(db, e), key) == Find(db, key)
    ensures e.id != key ==> Find(Insert(db, e), key) == Find(db, key)
  {
    hide Sorted, Insert, Find, AsMap, Ids;
    FindRefines(db, key);
    InsertSorted(db, e);
    InsertRefines(db, e);
    FindRefines(Insert(db, e), key);
  }

  lemma EraseKeepsOthers(db: Entries, other: WStr, key: WStr)
    requires Sorted(db) && key != other
    ensures Find(Erase(db, other), key) == Find(db, key)
  {
    hide Sorted, Erase, Find, AsMap, Ids;
    FindRefines(db, key);
    EraseSorted(db, other);
    EraseRefines(db, other);
    FindRefines(Erase(db, other), key);
  }

  lemma EntryStays(host: Host, c: Client, e: Event, key: WStr)
    requires Valid(c) && !c.closed && Find(c.db.value, key).Some? && Keeps(c, e, key)
    ensures var c' := Step(host, c, e);
            Valid(c') && !c'.closed && Find(c'.db.value, key) == Find(c.db.value, key)
  {
    hide Has, WellFormed, Sorted, Ids, Insert, Erase, Find, Key, OnUpdate, OnCaps, Associates, Fits, LinkPath;
    hide IconPath, Candidates;
    hide DeleteIfNamed, PathsFit, AsMap;
    StepKeepsValid(host, c, e);
    if Updates(c, e) {
      UpdateEffect(c, e.msg.update, e.msg.icon);
      var (c', r) := OnUpdate(c, e.msg.update, e.msg.icon);
      if r.Accepted? {
        var x: FileEntry :| c'.db.value == Insert(c.db.value, x);
        InsertKeepsOthers(c.db.value, x, key);
      }
    } else if Deletes(c, e) {
      var other := Key(e.msg.delete.appGroup, e.msg.delete.appId);
      if other != key {
        EraseKeepsOthers(c.db.value, other, key);
      }
    } else {
      OtherEffect(host, c, e);
    }
  }

  lemma {:induction false} EntryStaysAlong(host: Host, c: Client, es: seq<Event>, key: WStr)
    requires Valid(c) && !c.closed && Find(c.db.value, key).Some? && RunKeeps(host, c, es, key)
    ensures var c' := Run(host, c, es);
            Valid(c') && !c'.closed && Find(c'.db.value, key) == Find(c.db.value, key)
    decreases |es|
  {
    hide Step, Find, WellFormed, DbOk, Sorted, Keeps;
    if es != [] {
      EntryStays(host, c, es[0], key);
      EntryStaysAlong(host, Step(host, c, es[0]), es[1..], key);
    }
  }

  /**
   * After an accepted update and any run that does not delete its key, rejected, repeated and conflicting updates of
   * that key included, a delete of the key deletes the very files of that update, and removes that key alone.
   */
  lemma DeleteFindsUpdate(host: Host, c: Client, u: UpdatePdu, icon: Option<IconPdu>, es: seq<Event>, d: DeletePdu)
    requires Valid(c) && !c.closed
    requires var (c1, r) := OnUpdate(c, u, icon); r.Accepted? && RunKeeps(host, c1, es, Key(u.appGroup, u.appId))
    requires Key(d.appGroup, d.appId) == Key(u.appGroup, u.appId)
    ensures var (c1, r) := OnUpdate(c, u, icon);
            var c2 := Run(host, c1, es);
            c2.db.Some? &&
            var (c3, s) := OnDelete(c2, d);
            && s == Deleted(Key(d.appGroup, d.appId), r.link, r.icon)
            && r.link == LinkPath(c, u) && r.icon == IconPath(c, u, icon.Some?)
            && c3.db.Some? && AsMap(c3.db.value) == AsMap(c2.db.value) - {Key(u.appGroup, u.appId)}
            && Lost(c2, c3) <= {r.link, r.icon}
            && (Reliable(c2.disk) ==> r.link !in c3.disk.files && (icon.Some? ==> r.icon !in c3.disk.files))
  {
    hide Has, WellFormed, DbOk, Sorted, Ids, Insert, Find, Key, OnUpdate, OnDelete, LinkPath, IconPath, Candidates;
    hide AsMap;
    hide Run, RunKeeps, Step, Fits;
    var key := Key(u.appGroup, u.appId);
    UpdateEffect(c, u, icon);
    AcceptedKeyFits(c, u, icon);
    var c1 := OnUpdate(c, u, icon).0;
    EntryStaysAlong(host, c1, es, key);
    DeleteEffect(Run(host, c1, es), d);
    NoEmptyTargets(c, u);
  }

  lemma AcceptedKeyFits(c: Client, u: UpdatePdu, icon: Option<IconPdu>)
    requires Valid(c) && !c.closed && OnUpdate(c, u, icon).1.Accepted?
    ensures Fits(Key(u.appGroup, u.appId))
  {
    hide Has, WellFormed, DbOk, Sorted, Ids, Insert, Find, Admit, Complete, LinkPath, IconPath, Key, Fits, SyncStart;
    hide PathsFit;
    AdmitEffect(c, u, icon.Some?);
    var plan := Admit(c, u, icon.Some?).1;
    assert plan.Some?;
    assert PlanIs(c, u, icon.Some?, plan.value);
  }

  lemma NoEmptyTargets(c: Client, u: UpdatePdu)
    ensures LinkPath(c, u) != [] && IconPath(c, u, true) != []
  {
  }

  // An entry and its files

  /**
   * The sweep does not touch the database. When an update ends a session on a disk that fails nothing, an entry that
   * was there stays, and a link of it that was there stays if and only if it is not among those recorded at the
   * session's start and not unmarked since.
   */
  lemma EntryOutlivesItsLink(host: Host, b: Books, e: Event, key: WStr)
    requires Balanced(b) && Reliable(b.c.disk) && Updates(b.c, e) && Has(e.msg.update.flags, HINT_SYNC_END)
    requires OnUpdate(b.c, e.msg.update, e.msg.icon).1.Accepted?
    requires Find(b.c.db.value, key).Some? && Find(b.c.db.value, key).value.link in b.c.disk.files
    ensures var (x, l, c') := (Find(b.c.db.value, key).value, Note(b.c, e, b.l), Step(host, b.c, e));
            && c'.db.Some? && Find(c'.db.value, key) == Some(x)
            && (x.link in c'.disk.files <==> x.link !in l.recorded - l.unmarked)
  {
    hide Has, WellFormed, DbOk, Sorted, Ids, OnUpdate, Find, Note, Key;
    TurnKeepsBalance(host, b, e);
    EntryStays(host, b.c, e, key);
  }

  lemma {:induction false} SessionKeeps(host: Host, c: Client, es: seq<Event>, key: WStr)
    requires Valid(c) && Session(host, c, es)
    ensures RunKeeps(host, c, es, key)
    decreases |es|
  {
    hide Has, WellFormed, DbOk, Sorted, OnUpdate, OnDelete, GoodReport, Key, Step;
    StepKeepsValid(host, c, es[0]);
    if |es| > 1 {
      SessionKeeps(host, Step(host, c, es[0]), es[1..], key);
    }
  }

  /**
   * Over a whole session: every entry there was is still there, and its link, if it was under the menu, is there if
   * and only if the session reported it. So an application that was added and then not reported is a stale entry.
   */
  lemma UnreportedGoesStale(host: Host, c: Client, es: seq<Event>, key: WStr)
    requires Valid(c) && c.sync.None? && Reliable(c.disk) && Session(host, c, es) && Updates(c, es[0])
    requires Find(c.db.value, key).Some?
    requires var link := Find(c.db.value, key).value.link; link in LinksBelow(c.disk, c.menuPath)
    ensures var (x, c') := (Find(c.db.value, key).value, Run(host, c, es));
            && c'.db.Some? && Find(c'.db.value, key) == Some(x)
            && (x.link in c'.disk.files <==> x.link in ReportedLinks(c, Reports(host, c, es)))
  {
    hide Has, WellFormed, DbOk, Sorted, Find, Session, Run, Reports, Contents, ReportedLinks, Candidates, Step, IsLnk;
    hide Under;
    SessionKeeps(host, c, es, key);
    EntryStaysAlong(host, c, es, key);
    SyncConvergence(host, c, es);
    var link := Find(c.db.value, key).value.link;
    assert link in LinksBelow(Run(host, c, es).disk, c.menuPath) <==> link in Run(host, c, es).disk.files;
  }

  // The handshake

  predicate Answered(host: Host, c: Client, e: Event) {
    !c.closed && e.Message? && e.msg.CapsMsg? && OnCaps(host, c, e.msg.caps).1
  }

  /** What the client answered along a run. */
  function Answers(host: Host, c: Client, es: seq<Event>): seq<ServerLoop.ClientCaps>
    decreases |es|
  {
    if es == [] then []
    else
      var rest := Answers(host, Step(host, c, es[0]), es[1..]);
      if Answered(host, c, es[0]) then [ServerLoop.ClientCaps(CHANNEL_VERSION, host.language)] + rest else rest
  }

  /**
   * One event: bytes are sent only as the answer to capabilities of version 4 or later, and only those make the
   * handshake.
   */
  lemma StepSends(host: Host, c: Client, e: Event)
    requires Valid(c)
    ensures var c' := Step(host, c, e);
            if Answered(host, c, e) then
              e.msg.caps.version >= 4
                  && c'.sent == c.sent + ServerLoop.Reply(ServerLoop.ClientCaps(CHANNEL_VERSION, host.language))
            else c'.sent == c.sent && (c'.handshake ==> c.handshake)
  {
    hide Has, WellFormed, DbOk, Sorted, Ids, Insert, Find, OnUpdate, OnDelete, OnCaps, Associates, LinkPath, IconPath;
    hide Candidates, AsMap;
    hide Key, Fits, ServerLoop.Reply;
    if c.closed {
    } else if Updates(c, e) {
      UpdateEffect(c, e.msg.update, e.msg.icon);
    } else if Deletes(c, e) {
      DeleteEffect(c, e.msg.delete);
    } else if e.Message? && e.msg.CapsMsg? {
      CapsEffect(host, c, e.msg.caps);
    }
  }

  lemma {:induction false} RunSends(host: Host, c: Client, es: seq<Event>)
    requires Valid(c)
    ensures var c' := Run(host, c, es);
            && c'.sent == c.sent + ServerLoop.Replies(Answers(host, c, es))
            && (c'.handshake ==> c.handshake || Answers(host, c, es) != [])
    ensures forall a | a in Answers(host, c, es) :: a == ServerLoop.ClientCaps(CHANNEL_VERSION, host.language)
    decreases |es|
  {
    hide Valid, Step, Answered, ServerLoop.Reply;
    if es != [] {
      var c1 := Step(host, c, es[0]);
      StepKeepsValid(host, c, es[0]);
      StepSends(host, c, es[0]);
      RunSends(host, c1, es[1..]);
      var (a, rest) := (ServerLoop.ClientCaps(CHANNEL_VERSION, host.language), Answers(host, c1, es[1..]));
      if Answered(host, c, es[0]) {
        assert ([a] + rest)[1..] == rest;
        assert c.sent + (ServerLoop.Reply(a) + ServerLoop.Replies(rest))
            == c.sent + ServerLoop.Reply(a) + ServerLoop.Replies(rest);
      }
    }
  }

  /** Somewhere along the run capabilities of version 4 or later were answered. */
  ghost predicate Greeted(host: Host, c: Client, es: seq<Event>) {
    exists i: nat | i < |es| :: GreetedAt(host, c, es, i)
  }

  predicate GreetedAt(host: Host, c: Client, es: seq<Event>, i: nat)
    requires i < |es|
  {
    Answered(host, Run(host, c, es[..i]), es[i]) && es[i].msg.caps.version >= 4
  }

  lemma {:induction false} AnswersGreet(host: Host, c: Client, es: seq<Event>)
    requires Valid(c) && Answers(host, c, es) != []
    ensures Greeted(host, c, es)
    decreases |es|
  {
    hide Valid, Step, Answered;
    StepSends(host, c, es[0]);
    if Answered(host, c, es[0]) {
      assert Run(host, c, es[..0]) == c;
      assert GreetedAt(host, c, es, 0);
    } else {
      var c1 := Step(host, c, es[0]);
      StepKeepsValid(host, c, es[0]);
      AnswersGreet(host, c1, es[1..]);
      var i: nat :| i < |es| - 1 && GreetedAt(host, c1, es[1..], i);
      assert es[..i + 1][1..] == es[1..][..i];
      assert Run(host, c, es[..i + 1]) == Run(host, c1, es[1..][..i]);
      assert es[i + 1] == es[1..][i];
      assert GreetedAt(host, c, es, i + 1);
    }
  }

  /**
   * In every run the handshake means that such an answer was given; without it a message other than capabilities is
   * refused without effect. `ClientStream.HandledAfterGreeting` says the same of the handlers entered.
   */
  lemma HandshakeGates(host: Host, disk: Disk, es: seq<Event>, msg: Msg)
    requires WellFormed(disk)
    ensures var c := Run(host, Fresh(disk), es);
            && (c.handshake ==> Greeted(host, Fresh(disk), es))
            && (c.db.Some? && !msg.CapsMsg? && Deliver(host, c, msg) != (c, false) ==> Greeted(host, Fresh(disk), es))
  {
    hide OnUpdate, OnDelete, OnCaps, Associates, Greeted, WellFormed, Run, Answers;
    FreshValid(disk);
    RunSends(host, Fresh(disk), es);
    if Answers(host, Fresh(disk), es) != [] {
      AnswersGreet(host, Fresh(disk), es);
    }
  }

  /** And the server recovers every answer of a run from the bytes sent, in order, and stops exactly at their end. */
  lemma ServerHearsAnswers(host: Host, disk: Disk, es: seq<Event>, accepts: ServerLoop.Callback)
    requires WellFormed(disk) && forall a :: accepts(a)
    ensures var sent := Run(host, Fresh(disk), es).sent;
            ServerLoop.Serve(sent, 0, accepts)
                == ServerLoop.Served(Answers(host, Fresh(disk), es), ServerLoop.Drained(|sent|))
  {
    hide WellFormed, Run, Answers, ServerLoop.Serve, ServerLoop.Replies;
    FreshValid(disk);
    var as_ := Answers(host, Fresh(disk), es);
    RunSends(host, Fresh(disk), es);
    assert [] + ServerLoop.Replies(as_) == ServerLoop.Replies(as_);
    ServerLoop.RepliesRoundTrip(as_, accepts);
  }
}
