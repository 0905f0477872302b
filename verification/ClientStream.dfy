/** The client's receive loop over raw bytes, and what becomes in it of the streams a server sends. */
module ClientStream {
  import opened Bytes
  import opened Protocol
  import opened ClientRead
  import opened WireLaws
  import opened Client
  import opened ClientLaws
  import opened FileSys
  import opened FileEntries
  import opened SessionLaws
  import ServerSend

  // The loop

  /** The body behind a header; of DELETE_APPLIST_PROVIDER nothing is read. */
  function DecMsg(host: Host, cmdId: u32, b: seq<byte>): (r: Option<(Msg, seq<byte>)>)
    ensures r.Some? ==> |r.value.1| <= |b|
  {
    if cmdId == CMDID_CAPS then
      var (p, rest) :- DecCaps(b);
      Some((CapsMsg(p), rest))
    else if cmdId == CMDID_UPDATE_APPLIST then
      var (u, b1) :- DecUpdate(b);
      if !Has(u.flags, FIELD_ICON) then Some((UpdateMsg(u, None), b1))
      else
        var (icon, b2) :- DecIcon(b1, host.allocLimit);
        Some((UpdateMsg(u, Some(icon)), b2))
    else if cmdId == CMDID_DELETE_APPLIST then
      var (d, rest) :- DecDelete(b);
      Some((DeleteMsg(d), rest))
    else if cmdId == CMDID_DELETE_APPLIST_PROVIDER then Some((ProviderMsg, b))
    else if cmdId == CMDID_ASSOCIATE_WINDOW_ID then
      var (a, rest) :- DecAssociate(b);
      Some((AssociateMsg(a), rest))
    else None
  }

  /** What is let in at all: capabilities always, the rest after the handshake, an association from version 4 on. */
  predicate Admits(c: Client, cmdId: u32) {
    cmdId == CMDID_CAPS || (c.handshake && (cmdId == CMDID_ASSOCIATE_WINDOW_ID ==> c.version >= 4))
  }

  /** A failed read of capabilities has stored the version all the same. */
  function Unread(c: Client, cmdId: u32, b: seq<byte>): Client {
    if cmdId == CMDID_CAPS && ReadU16(b).Some? then c.(version := ReadU16(b).value.0) else c
  }

  /**
   * `handled` lists the messages that reached their handler; the loop ends with the first failure. It always ends,
   * since every pass that goes on has consumed a header.
   */
  datatype Received = Received(client: Client, ok: bool, left: seq<byte>, handled: seq<Msg>)

  predicate Open(c: Client) {
    !c.closed ==> c.db.Some?
  }

  /**
   * One pass, once the header is read: the client after it, whether it went well, what is left, and what was handled.
   */
  function Pass(host: Host, c: Client, cmdId: u32, b: seq<byte>): (r: (Client, bool, seq<byte>, seq<Msg>))
    requires c.db.Some?
    ensures |r.2| <= |b| && r.0.db.Some? && r.0.closed == c.closed
  {
    if !Admits(c, cmdId) then (c, false, b, [])
    else
      match DecMsg(host, cmdId, b)
      case None => (Unread(c, cmdId, b), false, b, [])
      case Some((msg, rest)) =>
        DeliverStaysOpen(host, c, msg);
        var (c', ok) := Deliver(host, c, msg);
        (c', ok, rest, [msg])
  }

  function Receive(host: Host, c: Client, b: seq<byte>): Received
    requires Open(c)
    decreases |b|
  {
    if b == [] || c.closed then Received(c, true, b, [])
    else
      match DecHeader(b)
      case None => Received(c, false, b, [])
      case Some(((cmdId, _), body)) =>
        var (c', ok, left, msgs) := Pass(host, c, cmdId, body);
        if !ok then Received(c', false, left, msgs)
        else
          var r := Receive(host, c', left);
          r.(handled := msgs + r.handled)
  }

  // One pass, as its handlers account for it

  /**
   * What a handler makes of the bytes it is given: it reads its message and acts on it, or changes nothing more than
   * `Unread` says.
   */
  predicate Handles(host: Host, cmdId: u32, before: Client, b: seq<byte>, after: Client, ok: bool, left: seq<byte>)
    requires before.db.Some?
  {
    match DecMsg(host, cmdId, b)
    case None => !ok && after == Unread(before, cmdId, b) && left == b
    case Some((msg, rest)) => (after, ok) == Deliver(host, before, msg) && left == rest
  }

  lemma HandledPasses(host: Host, cmdId: u32, before: Client, b: seq<byte>, after: Client, ok: bool, left: seq<byte>)
    requires before.db.Some?
    requires if Admits(before, cmdId) then Handles(host, cmdId, before, b, after, ok, left)
             else after == before && !ok && left == b
    ensures var r := Pass(host, before, cmdId, b); (after, ok, left) == (r.0, r.1, r.2)
  {
    hide DecMsg, Deliver, Unread;
  }

  lemma ProviderHandled(host: Host, c: Client, b: seq<byte>)
    requires c.db.Some? && c.handshake
    ensures Handles(host, CMDID_DELETE_APPLIST_PROVIDER, c, b, c, true, b)
  {
    hide DecCaps, DecUpdate, DecIcon, DecDelete, DecAssociate;
  }

  lemma UnknownFails(host: Host, cmdId: u32, c: Client, b: seq<byte>)
    requires c.db.Some? && !(1 <= cmdId <= 5)
    ensures Handles(host, cmdId, c, b, c, false, b)
  {
    hide DecCaps, DecUpdate, DecIcon, DecDelete, DecAssociate;
  }

  lemma ReceiveUnfolds(host: Host, c: Client, b: seq<byte>)
    requires Open(c)
    ensures Receive(host, c, b)
            == if b == [] || c.closed then Received(c, true, b, [])
               else if DecHeader(b).None? then Received(c, false, b, [])
               else
                 var ((cmdId, _), body) := DecHeader(b).value;
                 var (c', ok, left, msgs) := Pass(host, c, cmdId, body);
                 if !ok then Received(c', false, left, msgs)
                 else var r := Receive(host, c', left); r.(handled := msgs + r.handled)
  {
    hide Pass, DecHeader;
  }

  /** `r` is what remains to be done of `total` when `handled` has been handled already. */
  predicate Continues(total: Received, handled: seq<Msg>, r: Received) {
    total == r.(handled := handled + r.handled)
  }

  lemma ContinuesFromStart(total: Received)
    ensures Continues(total, [], total)
  {
    assert [] + total.handled == total.handled;
  }

  lemma ContinuesOn(total: Received, handled: seq<Msg>, msgs: seq<Msg>, r: Received)
    requires Continues(total, handled, r.(handled := msgs + r.handled))
    ensures Continues(total, handled + msgs, r)
  {
    assert handled + (msgs + r.handled) == handled + msgs + r.handled;
  }

  lemma ContinuesToEnd(total: Received, handled: seq<Msg>, r: Received)
    requires Continues(total, handled, r) && r.handled == []
    ensures total == Received(r.client, r.ok, r.left, handled)
  {
    assert handled + [] == handled;
  }

  lemma DeliverStaysOpen(host: Host, c: Client, msg: Msg)
    requires c.db.Some?
    ensures Deliver(host, c, msg).0.db.Some? && Deliver(host, c, msg).0.closed == c.closed
  {
    hide Has, OnCaps, OnUpdate, Associates;
    match msg
    case CapsMsg(p) => CapsStaysOpen(host, c, p);
    case UpdateMsg(u, icon) => UpdateStaysOpen(c, u, icon);
    case _ =>
  }

  lemma CapsStaysOpen(host: Host, c: Client, p: CapsPdu)
    ensures OnCaps(host, c, p).0.db == c.db && OnCaps(host, c, p).0.closed == c.closed
    ensures OnCaps(host, c, p).1 ==> p.version >= 4
  {
    hide ProviderOk, Overlay, Text, Locate;
    var c0 := c.(version := p.version, provider := Overlay(c.provider, p.name));
    LocateStaysOpen(host, c0);
    if Text(p.uniqueId) in host.guids {
      LocateStaysOpen(host, c0.(guid := host.guids[Text(p.uniqueId)]));
    }
  }

  lemma LocateStaysOpen(host: Host, c: Client)
    ensures var c' := Locate(host, c).0; c'.db == c.db && c'.closed == c.closed && c'.version == c.version
  {
    hide BuildMenuPath, BuildIconPath;
  }

  lemma UpdateStaysOpen(c: Client, u: UpdatePdu, icon: Option<IconPdu>)
    requires c.db.Some?
    ensures OnUpdate(c, u, icon).0.db.Some? && OnUpdate(c, u, icon).0.closed == c.closed
  {
    hide Has, Admit, Complete;
    AdmitStaysOpen(c, u, icon.Some?);
    var (c1, plan) := Admit(c, u, icon.Some?);
    if plan.Some? {
      CompleteStaysOpen(c1, u, icon, plan.value);
    }
  }

  lemma AdmitStaysOpen(c: Client, u: UpdatePdu, wantsIcon: bool)
    requires c.db.Some?
    ensures var (c', plan) := Admit(c, u, wantsIcon);
            c'.db.Some? && c'.closed == c.closed && (plan.Some? && Has(u.flags, HINT_SYNC) ==> c'.sync.Some?)
  {
    hide Has, Screened, Prepare;
  }

  lemma CompleteStaysOpen(c: Client, u: UpdatePdu, icon: Option<IconPdu>, plan: Plan)
    requires Has(u.flags, HINT_SYNC) ==> c.sync.Some?
    ensures var c' := Complete(c, u, icon, plan).0; c'.db == c.db && c'.closed == c.closed
  {
    hide Has, WriteFiles, Unmark;
  }

  // What a server sends

  datatype ServerPdu =
    | CapsPacket(caps: ServerCaps)
    | UpdatePacket(update: ServerUpdate)
    | DeletePacket(delete: ServerDelete)
    | AssociatePacket(associate: ServerAssociate)

  predicate HasBody(p: ServerPdu) {
    p.UpdatePacket? ==> IconOk(p.update.icon) && (Has(p.update.flags, FIELD_ICON) ==> p.update.icon.Some?)
  }

  function CmdId(p: ServerPdu): u32 {
    match p
    case CapsPacket(_) => CMDID_CAPS
    case UpdatePacket(_) => CMDID_UPDATE_APPLIST
    case DeletePacket(_) => CMDID_DELETE_APPLIST
    case AssociatePacket(_) => CMDID_ASSOCIATE_WINDOW_ID
  }

  function Body(p: ServerPdu): seq<byte>
    requires HasBody(p)
  {
    match p
    case CapsPacket(c) => EncCapsBody(c)
    case UpdatePacket(u) => EncUpdateBody(u)
    case DeletePacket(d) => EncDeleteBody(d)
    case AssociatePacket(a) => EncAssociateBody(a)
  }

  predicate Sendable(p: ServerPdu) {
    HasBody(p) && 8 + |Body(p)| < U32_RANGE
  }

  function Sent(p: ServerPdu): seq<byte>
    requires Sendable(p)
  {
    Packet(CmdId(p), Body(p))
  }

  function Stream(ps: seq<ServerPdu>): seq<byte>
    requires forall p | p in ps :: Sendable(p)
  {
    if ps == [] then [] else Sent(ps[0]) + Stream(ps[1..])
  }

  /**
   * The client's required flags and bounds; capabilities count from version 4 on, where both sides agree on their
   * end.
   */
  predicate Acceptable(p: ServerPdu, allocLimit: nat)
    requires HasBody(p)
  {
    match p
    case CapsPacket(c) => CapsAcceptable(c) && c.version >= 4
    case UpdatePacket(u) =>
      UpdateAcceptable(u) && (Has(u.flags, FIELD_ICON) ==> IconAcceptable(u.icon.value, allocLimit))
    case DeletePacket(d) => DeleteAcceptable(d)
    case AssociatePacket(a) => AssociateAcceptable(a)
  }

  /** The message a PDU is meant to arrive as. */
  function View(p: ServerPdu, allocLimit: nat): Msg
    requires HasBody(p) && Acceptable(p, allocLimit)
  {
    match p
    case CapsPacket(c) => CapsMsg(CapsView(c))
    case UpdatePacket(u) =>
      UpdateMsg(UpdateView(u), if Has(u.flags, FIELD_ICON) then Some(IconView(u.icon.value)) else None)
    case DeletePacket(d) => DeleteMsg(DeleteView(d))
    case AssociatePacket(a) => AssociateMsg(AssociateView(a))
  }

  lemma UpdateBodyReadsBack(host: Host, u: ServerUpdate, rest: seq<byte>)
    requires HasBody(UpdatePacket(u))
    ensures DecMsg(host, CMDID_UPDATE_APPLIST, EncUpdateBody(u) + rest)
            == if Acceptable(UpdatePacket(u), host.allocLimit)
               then Some((View(UpdatePacket(u), host.allocLimit), rest)) else None
  {
    hide Has, EncUpdateFields, EncIcon, DecUpdate, DecIcon, UpdateAcceptable, IconAcceptable;
    if Has(u.flags, FIELD_ICON) {
      var icon := EncIcon(u.icon.value);
      assert EncUpdateBody(u) + rest == EncUpdateFields(u) + (icon + rest);
      UpdateReadsBack(u, icon + rest);
      IconReadsBack(u.icon.value, rest, host.allocLimit);
    } else {
      assert EncUpdateBody(u) + rest == EncUpdateFields(u) + rest;
      UpdateReadsBack(u, rest);
    }
  }

  /** A body is read back as its view and leaves exactly what follows it, if and only if the client accepts the PDU. */
  lemma BodyReadsBack(host: Host, p: ServerPdu, rest: seq<byte>)
    requires HasBody(p)
    ensures Acceptable(p, host.allocLimit) <==> DecMsg(host, CmdId(p), Body(p) + rest).Some?
                                                && DecMsg(host, CmdId(p), Body(p) + rest).value.1 == rest
    ensures Acceptable(p, host.allocLimit)
        ==> DecMsg(host, CmdId(p), Body(p) + rest).value.0 == View(p, host.allocLimit)
  {
    hide Has, EncCapsBody, EncUpdateBody, EncDeleteBody, EncAssociateBody, DecCaps, DecUpdate, DecIcon, DecDelete;
    hide DecAssociate;
    hide CapsAcceptable, UpdateAcceptable, IconAcceptable, DeleteAcceptable, AssociateAcceptable;
    match p
    case CapsPacket(c) => CapsReadBack(c, rest);
    case UpdatePacket(u) => UpdateBodyReadsBack(host, u, rest);
    case DeletePacket(d) => DeleteReadsBack(d, rest);
    case AssociatePacket(a) => AssociateReadsBack(a, rest);
  }

  // Round trip

  predicate AllAcceptable(ps: seq<ServerPdu>, allocLimit: nat) {
    forall p | p in ps :: Sendable(p) && Acceptable(p, allocLimit)
  }

  /** The same messages handed to their handlers one after the other, without any bytes. */
  function Handle(host: Host, c: Client, ps: seq<ServerPdu>): (Client, bool, seq<Msg>)
    requires !c.closed && c.db.Some? && AllAcceptable(ps, host.allocLimit)
    decreases |ps|
  {
    if ps == [] then (c, true, [])
    else if !Admits(c, CmdId(ps[0])) then (c, false, [])
    else
      assert ps[0] in ps;
      var msg := View(ps[0], host.allocLimit);
      var (c', ok) := Deliver(host, c, msg);
      if !ok then (c', false, [msg])
      else
        DeliverStaysOpen(host, c, msg);
        var (c2, ok2, handled) := Handle(host, c', ps[1..]);
        (c2, ok2, [msg] + handled)
  }

  lemma PacketOpens(host: Host, p: ServerPdu, rest: seq<byte>)
    requires Sendable(p)
    ensures var b := Sent(p) + rest;
            b != [] && DecHeader(b) == Some(((CmdId(p), 8 + |Body(p)|), Body(p) + rest))
  {
    hide LE32, Body, DecHeader;
    var (l1, l2) := (LE32(CmdId(p)), LE32(8 + |Body(p)|));
    assert Sent(p) + rest == l1 + l2 + (Body(p) + rest);
    HeaderReadsBack(CmdId(p), 8 + |Body(p)|, Body(p) + rest);
  }

  function Views(ps: seq<ServerPdu>, allocLimit: nat): seq<Msg>
    requires AllAcceptable(ps, allocLimit)
  {
    if ps == [] then [] else (assert ps[0] in ps; [View(ps[0], allocLimit)] + Views(ps[1..], allocLimit))
  }

  /**
   * Stream round trip: the bytes of any list of PDUs the client can accept are handled as that list, in order, up to
   * the first refusal, and when nothing is refused every PDU is handled and no byte is left.
   */
  lemma {:induction false} StreamRoundTrip(host: Host, c: Client, ps: seq<ServerPdu>)
    requires !c.closed && c.db.Some? && AllAcceptable(ps, host.allocLimit)
    ensures RoundTrips(host, ps, Receive(host, c, Stream(ps)), Handle(host, c, ps))
    decreases |ps|
  {
    hide Deliver, DecMsg, DecHeader, Acceptable, Body, Sent, Unread, Admits, View;
    if ps != [] {
      assert ps[0] in ps;
      var (p, rest) := (ps[0], Stream(ps[1..]));
      PacketOpens(host, p, rest);
      BodyReadsBack(host, p, rest);
      var msg := View(p, host.allocLimit);
      if Admits(c, CmdId(p)) && Deliver(host, c, msg).1 {
        DeliverStaysOpen(host, c, msg);
        StreamRoundTrip(host, Deliver(host, c, msg).0, ps[1..]);
      }
    }
  }

  predicate RoundTrips(host: Host, ps: seq<ServerPdu>, r: Received, h: (Client, bool, seq<Msg>))
    requires AllAcceptable(ps, host.allocLimit)
  {
    && (r.client, r.ok, r.handled) == h
    && (r.ok ==> r.left == [] && r.handled == Views(ps, host.allocLimit))
  }

  predicate ServerAllows(p: ServerPdu) {
    match p
    case CapsPacket(c) => ServerSend.CapsOk(c)
    case UpdatePacket(u) => ServerSend.UpdateOk(u)
    case DeletePacket(d) => ServerSend.DeleteOk(d)
    case AssociatePacket(a) => ServerSend.AssociateOk(a)
  }

  /**
   * What the client accepts the server lets through and sends as exactly these bytes, when the host fails no step of
   * it.
   */
  lemma ServerSendsAcceptable(io: ServerSend.Io, p: ServerPdu, allocLimit: nat)
    requires Sendable(p) && Acceptable(p, allocLimit)
    requires io.allocOk && io.writeOk && io.taken >= |Sent(p)|
    ensures ServerAllows(p) && ServerSend.Outcome(io, CmdId(p), Body(p)) == (ServerSend.Ok, Sent(p))
  {
    hide Has, Body, LE32;
    assert Sent(p)[..|Sent(p)|] == Sent(p);
  }

  /**
   * Capabilities cut off behind their version fail, and leave the client with that version and the handshake it had.
   */
  lemma CutCapsKeepVersion(host: Host, c: Client, length: u32, version: u16)
    requires !c.closed && c.db.Some?
    ensures var r := Receive(host, c, LE32(1) + LE32(length) + LE16(version));
            !r.ok && r.handled == [] && r.client == c.(version := version)
  {
    hide LE32, LE16, FromLE16, DecHeader, Deliver;
    var (l1, l2, v) := (LE32(1), LE32(length), LE16(version));
    HeaderReadsBack(1, length, v);
    assert v + [] == v;
    ReadU16Of(version, []);
  }

  /** A window association from a server older than version 4 fails before its body is read, whatever it claims. */
  lemma OldServersAssociateNothing(host: Host, c: Client, length: u32, body: seq<byte>)
    requires !c.closed && c.db.Some? && c.version < 4
    ensures Receive(host, c, LE32(5) + LE32(length) + body) == Received(c, false, body, [])
  {
    hide LE32, DecHeader, DecMsg, Deliver;
    HeaderReadsBack(5, length, body);
  }

  /** Once the channel is closed no byte is looked at, and none fails. */
  lemma ClosedTakesNothing(host: Host, c: Client, b: seq<byte>)
    ensures Receive(host, OnClose(c), b) == Received(OnClose(c), true, b, [])
  {
  }

  // Nothing else gets through

  /** Whatever list of PDUs is sent, the loop comes to a good end only if the client can accept every one of them. */
  lemma {:induction false} OnlyAcceptable(host: Host, c: Client, ps: seq<ServerPdu>)
    requires !c.closed && c.db.Some? && forall p | p in ps :: Sendable(p)
    ensures Receive(host, c, Stream(ps)).ok ==> AllAcceptable(ps, host.allocLimit)
    decreases |ps|
  {
    hide OnCaps, OnUpdate, OnDelete, Associates, DecMsg, DecHeader, Body, Sent, Unread, Admits, View;
    if ps != [] && Receive(host, c, Stream(ps)).ok {
      assert ps[0] in ps && ps == [ps[0]] + ps[1..];
      var (p, rest) := (ps[0], Stream(ps[1..]));
      PacketOpens(host, p, rest);
      BodyReadsBack(host, p, rest);
      var (msg, b2) := DecMsg(host, CmdId(p), Body(p) + rest).value;
      CapsFromCaps(host, p, rest);
      if msg.CapsMsg? {
        CapsStaysOpen(host, c, msg.caps);
      }
      DeliverStaysOpen(host, c, msg);
      OnlyAcceptable(host, Deliver(host, c, msg).0, ps[1..]);
    }
  }

  /** A PDU of the server that is read at all is read to its end, unless it is capabilities of an earlier version. */
  lemma CapsFromCaps(host: Host, p: ServerPdu, rest: seq<byte>)
    requires HasBody(p) && DecMsg(host, CmdId(p), Body(p) + rest).Some?
    ensures var msg := DecMsg(host, CmdId(p), Body(p) + rest).value.0;
            Acceptable(p, host.allocLimit) || (msg.CapsMsg? && msg.caps.version < 4)
  {
    hide Has, EncCapsBody, EncUpdateBody, EncDeleteBody, EncAssociateBody, DecCaps, DecUpdate, DecIcon, DecDelete;
    hide DecAssociate;
    hide CapsAcceptable, UpdateAcceptable, IconAcceptable, DeleteAcceptable, AssociateAcceptable;
    match p
    case CapsPacket(c) => CapsReadBack(c, rest);
    case UpdatePacket(u) => UpdateBodyReadsBack(host, u, rest);
    case DeletePacket(d) => DeleteReadsBack(d, rest);
    case AssociatePacket(a) => AssociateReadsBack(a, rest);
  }

  /** DELETE_APPLIST_PROVIDER has no place in such streams: its body stays unread and is taken for the next header. */
  lemma ProviderBodyUnread(host: Host, c: Client, d: ServerDeleteProvider, rest: seq<byte>)
    requires !c.closed && c.db.Some? && c.handshake
    ensures 8 + |EncDeleteProviderBody(d)| < U32_RANGE
    ensures var body := EncDeleteProviderBody(d);
            var r := Receive(host, c, Packet(CMDID_DELETE_APPLIST_PROVIDER, body) + rest);
            r == Receive(host, c, body + rest).(handled := [ProviderMsg] + Receive(host, c, body + rest).handled)
  {
    hide LE32, EncDeleteProviderBody, DecHeader, Has, Receive, Pass;
    ProviderBodySize(d);
    var body := EncDeleteProviderBody(d);
    var (l1, l2) := (LE32(CMDID_DELETE_APPLIST_PROVIDER), LE32(8 + |body|));
    assert Packet(CMDID_DELETE_APPLIST_PROVIDER, body) + rest == l1 + l2 + (body + rest);
    HeaderReadsBack(CMDID_DELETE_APPLIST_PROVIDER, 8 + |body|, body + rest);
    ProviderPasses(host, c, body + rest);
    ReceiveUnfolds(host, c, l1 + l2 + (body + rest));
  }

  lemma ProviderPasses(host: Host, c: Client, b: seq<byte>)
    requires c.db.Some? && c.handshake
    ensures Pass(host, c, CMDID_DELETE_APPLIST_PROVIDER, b) == (c, true, b, [ProviderMsg])
  {
    hide DecCaps, DecUpdate, DecIcon, DecDelete, DecAssociate, OnCaps, OnUpdate, OnDelete, Associates;
  }

  /**
   * The flags of such a body are taken for the next command. So behind such a packet the loop can end well only if
   * they read as one, which they never do once the flag of the provider field is set.
   */
  lemma ProviderPacketFails(host: Host, c: Client, d: ServerDeleteProvider, rest: seq<byte>)
    requires !c.closed && c.db.Some? && c.handshake
    ensures 8 + |EncDeleteProviderBody(d)| < U32_RANGE
    ensures var r := Receive(host, c, Packet(CMDID_DELETE_APPLIST_PROVIDER, EncDeleteProviderBody(d)) + rest);
            && (r.ok ==> CMDID_CAPS <= d.flags <= CMDID_ASSOCIATE_WINDOW_ID)
            && (Has(d.flags, FIELD_PROVIDER) ==> !r.ok && r.client == c && r.handled == [ProviderMsg])
  {
    hide LE32, EncDeleteProviderBody, DecHeader, Receive, Pass, ReadU32;
    ProviderBodyUnread(host, c, d, rest);
    ProviderBodySize(d);
    var b := EncDeleteProviderBody(d) + rest;
    ReceiveUnfolds(host, c, b);
    if DecHeader(b).Some? {
      var ((cmdId, _), body) := DecHeader(b).value;
      ProviderFlagsFirst(d, rest);
      if !(CMDID_CAPS <= cmdId <= CMDID_ASSOCIATE_WINDOW_ID) {
        UnknownStops(host, c, cmdId, body);
      }
    }
    FlagIsNoCommand(d.flags);
  }

  lemma UnknownStops(host: Host, c: Client, cmdId: u32, b: seq<byte>)
    requires c.db.Some? && c.handshake && !(CMDID_CAPS <= cmdId <= CMDID_ASSOCIATE_WINDOW_ID)
    ensures var r := Pass(host, c, cmdId, b); r.0 == c && !r.1 && r.3 == []
  {
    hide DecCaps, DecUpdate, DecIcon, DecDelete, DecAssociate;
  }

  lemma ProviderFlagsFirst(d: ServerDeleteProvider, rest: seq<byte>)
    ensures var b := EncDeleteProviderBody(d) + rest; DecHeader(b).Some? ==> DecHeader(b).value.0.0 == d.flags
  {
    hide LE32, ReadU32;
    var tail := EncField(d.flags, FIELD_PROVIDER, d.name) + rest;
    assert EncDeleteProviderBody(d) + rest == LE32(d.flags) + tail;
    ReadU32Of(d.flags, tail);
  }

  lemma FlagIsNoCommand(flags: u32)
    ensures Has(flags, FIELD_PROVIDER) ==> flags > CMDID_ASSOCIATE_WINDOW_ID
  {
  }

  lemma ProviderBodySize(d: ServerDeleteProvider)
    ensures 4 <= |EncDeleteProviderBody(d)| <= 0x1_0005
  {
  }

  /**
   * Over any bytes, a handler other than that of capabilities is entered only with the handshake made: before the
   * loop began, or by capabilities of version 4 or later handled earlier in it.
   */
  lemma {:induction false} HandledAfterGreeting(host: Host, c: Client, b: seq<byte>, i: nat)
    requires Open(c) && i < |Receive(host, c, b).handled| && !Receive(host, c, b).handled[i].CapsMsg?
    ensures c.handshake || exists j: nat :: j < i && GreetsAt(Receive(host, c, b).handled, j)
    decreases |b|
  {
    hide DecMsg, DecHeader, Deliver, Unread;
    ReceiveUnfolds(host, c, b);
    var r := Receive(host, c, b);
    var ((cmdId, _), body) := DecHeader(b).value;
    var (c', ok, left, msgs) := Pass(host, c, cmdId, body);
    CapsByCommand(host, cmdId, body);
    if !c.handshake {
      assert msgs == [r.handled[0]] && r.handled[0].CapsMsg?;
      var rest := Receive(host, c', left);
      assert r.handled[1..] == rest.handled;
      CapsStaysOpen(host, c, r.handled[0].caps);
      CapsIsOnCaps(host, c, r.handled[0]);
      assert GreetsAt(r.handled, 0);
    }
  }

  predicate GreetsAt(handled: seq<Msg>, j: nat) {
    j < |handled| && handled[j].CapsMsg? && handled[j].caps.version >= 4
  }

  lemma CapsByCommand(host: Host, cmdId: u32, b: seq<byte>)
    requires DecMsg(host, cmdId, b).Some?
    ensures DecMsg(host, cmdId, b).value.0.CapsMsg? <==> cmdId == CMDID_CAPS
  {
    hide DecCaps, DecUpdate, DecIcon, DecDelete, DecAssociate, Has;
  }

  lemma CapsIsOnCaps(host: Host, c: Client, msg: Msg)
    requires c.db.Some? && msg.CapsMsg?
    ensures Deliver(host, c, msg) == OnCaps(host, c, msg.caps)
  {
    hide OnCaps;
  }

  // Every run over bytes is a run over messages

  /** What the loop does to the client is what some run of events does to it. */
  lemma {:induction false} ReceiveIsRun(host: Host, c: Client, b: seq<byte>) returns (es: seq<Event>)
    requires Open(c)
    ensures Run(host, c, es) == Receive(host, c, b).client
    decreases |b|
  {
    hide OnCaps, OnUpdate, OnDelete, Associates, DecMsg, DecHeader;
    es := [];
    if b != [] && !c.closed && DecHeader(b).Some? {
      var ((cmdId, _), b1) := DecHeader(b).value;
      if Admits(c, cmdId) {
        var m := DecMsg(host, cmdId, b1);
        if m.None? {
          if cmdId == CMDID_CAPS && ReadU16(b1).Some? {
            es := [BadCaps(ReadU16(b1).value.0)];
          }
        } else {
          var (msg, b2) := m.value;
          es := [Message(msg)];
          if Deliver(host, c, msg).1 {
            DeliverStaysOpen(host, c, msg);
            var more := ReceiveIsRun(host, Deliver(host, c, msg).0, b2);
            es := es + more;
          }
        }
      }
    }
  }

  /** What the channel calls: data, in pieces cut anywhere, and its closing. */
  datatype Call = Data(bytes: seq<byte>) | Close

  function Called(host: Host, c: Client, calls: seq<Call>): Client
    requires Valid(c)
    decreases |calls|
  {
    if calls == [] then c
    else
      CallKeepsValid(host, c, calls[0]);
      Called(host, After(host, c, calls[0]), calls[1..])
  }

  function After(host: Host, c: Client, call: Call): Client
    requires Open(c)
  {
    match call
    case Data(bytes) => Receive(host, c, bytes).client
    case Close => if c.closed then c else OnClose(c)
  }

  lemma CallIsRun(host: Host, c: Client, call: Call) returns (es: seq<Event>)
    requires Open(c)
    ensures Run(host, c, es) == After(host, c, call)
  {
    hide Receive;
    match call
    case Data(bytes) => es := ReceiveIsRun(host, c, bytes);
    case Close => es := [Closing];
  }

  lemma CallKeepsValid(host: Host, c: Client, call: Call)
    requires Valid(c)
    ensures Open(c) && Valid(After(host, c, call))
  {
    hide After, Run, WellFormed, DbOk, Sorted;
    var es := CallIsRun(host, c, call);
    RunKeepsValid(host, c, es);
  }

  /** So whatever holds in every state a run of events can reach holds after any calls with any bytes. */
  lemma {:induction false} CallsAreRun(host: Host, c: Client, calls: seq<Call>) returns (es: seq<Event>)
    requires Valid(c)
    ensures Run(host, c, es) == Called(host, c, calls)
    decreases |calls|
  {
    hide Valid, After, Step;
    es := [];
    if calls != [] {
      CallKeepsValid(host, c, calls[0]);
      var first := CallIsRun(host, c, calls[0]);
      var more := CallsAreRun(host, After(host, c, calls[0]), calls[1..]);
      RunConcat(host, c, first, more);
      es := first + more;
    }
  }
}
