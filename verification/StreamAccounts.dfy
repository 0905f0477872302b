/** The bytes behind the messages of a stream: what each consumes, and that it does not matter where a stream is cut. */
module StreamAccounts {
  import opened Bytes
  import opened Protocol
  import opened ClientRead
  import opened Client
  import opened ClientStream
  import opened WireLaws
  import IconFile

  // More bytes behind a message change nothing about it

  lemma U16Extends(b: seq<byte>, t: seq<byte>)
    ensures ReadU16(b).Some? ==> ReadU16(b + t) == Some((ReadU16(b).value.0, ReadU16(b).value.1 + t))
  {
    if |b| >= 2 {
      assert (b + t)[..2] == b[..2] && (b + t)[2..] == b[2..] + t;
    }
  }

  lemma U32Extends(b: seq<byte>, t: seq<byte>)
    ensures ReadU32(b).Some? ==> ReadU32(b + t) == Some((ReadU32(b).value.0, ReadU32(b).value.1 + t))
  {
    if |b| >= 4 {
      assert (b + t)[..4] == b[..4] && (b + t)[4..] == b[4..] + t;
    }
  }

  lemma StringExtends(b: seq<byte>, t: seq<byte>, required: bool)
    ensures ReadString(b, required).Some?
            ==> ReadString(b + t, required)
                == Some((ReadString(b, required).value.0, ReadString(b, required).value.1 + t))
  {
    hide ReadU16, Stored;
    if ReadString(b, required).Some? {
      U16Extends(b, t);
      var (n, b1) := ReadU16(b).value;
      if n > 0 {
        assert (b1 + t)[..n] == b1[..n] && (b1 + t)[n..] == b1[n..] + t;
      }
    }
  }

  lemma FieldExtends(flags: u32, mask: u32, b: seq<byte>, t: seq<byte>, required: bool)
    requires mask > 0
    ensures var r := ReadField(flags, mask, b, required);
            r.Some? ==> ReadField(flags, mask, b + t, required) == Some((r.value.0, r.value.1 + t))
  {
    hide Has, ReadString;
    StringExtends(b, t, required);
  }

  lemma HeaderExtends(b: seq<byte>, t: seq<byte>)
    ensures DecHeader(b).Some? ==> DecHeader(b + t) == Some((DecHeader(b).value.0, DecHeader(b).value.1 + t))
  {
    hide ReadU32;
    if DecHeader(b).Some? {
      U32Extends(b, t);
      U32Extends(ReadU32(b).value.1, t);
    }
  }

  lemma CapsExtends(b: seq<byte>, t: seq<byte>)
    ensures DecCaps(b).Some? ==> DecCaps(b + t) == Some((DecCaps(b).value.0, DecCaps(b).value.1 + t))
  {
    hide ReadU16, ReadString;
    if DecCaps(b).Some? {
      U16Extends(b, t);
      var b1 := ReadU16(b).value.1;
      StringExtends(b1, t, true);
      StringExtends(ReadString(b1, true).value.1, t, true);
    }
  }

  lemma UpdateExtends(b: seq<byte>, t: seq<byte>)
    ensures DecUpdate(b).Some? ==> DecUpdate(b + t) == Some((DecUpdate(b).value.0, DecUpdate(b).value.1 + t))
  {
    hide ReadU32, ReadField, Has;
    if DecUpdate(b).Some? {
      U32Extends(b, t);
      var (f, b1) := ReadU32(b).value;
      FieldExtends(f, FIELD_ID, b1, t, true);
      var b2 := ReadField(f, FIELD_ID, b1, true).value.1;
      FieldExtends(f, FIELD_GROUP, b2, t, false);
      var b3 := ReadField(f, FIELD_GROUP, b2, false).value.1;
      FieldExtends(f, FIELD_EXECPATH, b3, t, true);
      var b4 := ReadField(f, FIELD_EXECPATH, b3, true).value.1;
      FieldExtends(f, FIELD_WORKINGDIR, b4, t, false);
      var b5 := ReadField(f, FIELD_WORKINGDIR, b4, false).value.1;
      FieldExtends(f, FIELD_DESC, b5, t, true);
    }
  }

  lemma IconHeadExtends(b: seq<byte>, t: seq<byte>)
    ensures DecIconHead(b).Some?
            ==> DecIconHead(b + t) == Some((DecIconHead(b).value.0, DecIconHead(b).value.1 + t))
  {
    hide ReadU32;
    if DecIconHead(b).Some? {
      var b1 := ReadU32(b).value.1;
      var b2 := ReadU32(b1).value.1;
      var b3 := ReadU32(b2).value.1;
      var b4 := ReadU32(b3).value.1;
      var b5 := ReadU32(b4).value.1;
      var b6 := ReadU32(b5).value.1;
      U32Extends(b, t);
      U32Extends(b1, t);
      U32Extends(b2, t);
      U32Extends(b3, t);
      U32Extends(b4, t);
      U32Extends(b5, t);
      U32Extends(b6, t);
    }
  }

  lemma IconExtends(b: seq<byte>, t: seq<byte>, allocLimit: nat)
    ensures var r := DecIcon(b, allocLimit);
            r.Some? ==> DecIcon(b + t, allocLimit) == Some((r.value.0, r.value.1 + t))
  {
    hide DecIconHead, IconFile.Container;
    if DecIcon(b, allocLimit).Some? {
      IconHeadExtends(b, t);
      var (h, rest) := DecIconHead(b).value;
      assert (rest + t)[..h.bitsLength] == rest[..h.bitsLength];
      assert (rest + t)[h.bitsLength..] == rest[h.bitsLength..] + t;
    }
  }

  lemma DeleteExtends(b: seq<byte>, t: seq<byte>)
    ensures DecDelete(b).Some? ==> DecDelete(b + t) == Some((DecDelete(b).value.0, DecDelete(b).value.1 + t))
  {
    hide ReadU32, ReadField, Has;
    if DecDelete(b).Some? {
      U32Extends(b, t);
      var (f, b1) := ReadU32(b).value;
      FieldExtends(f, FIELD_ID, b1, t, true);
      FieldExtends(f, FIELD_GROUP, ReadField(f, FIELD_ID, b1, true).value.1, t, false);
    }
  }

  lemma AssociateExtends(b: seq<byte>, t: seq<byte>)
    ensures DecAssociate(b).Some?
        ==> DecAssociate(b + t) == Some((DecAssociate(b).value.0, DecAssociate(b).value.1 + t))
  {
    hide ReadU32, ReadField, Has;
    if DecAssociate(b).Some? {
      U32Extends(b, t);
      var (f, b1) := ReadU32(b).value;
      U32Extends(b1, t);
      var b2 := ReadU32(b1).value.1;
      FieldExtends(f, FIELD_ID, b2, t, true);
      var b3 := ReadField(f, FIELD_ID, b2, true).value.1;
      FieldExtends(f, FIELD_GROUP, b3, t, false);
      var b4 := ReadField(f, FIELD_GROUP, b3, false).value.1;
      FieldExtends(f, FIELD_EXECPATH, b4, t, true);
      var b5 := ReadField(f, FIELD_EXECPATH, b4, true).value.1;
      FieldExtends(f, FIELD_DESC, b5, t, true);
    }
  }

  lemma MessageExtends(host: Host, cmdId: u32, b: seq<byte>, t: seq<byte>)
    ensures var r := DecMsg(host, cmdId, b);
            r.Some? ==> DecMsg(host, cmdId, b + t) == Some((r.value.0, r.value.1 + t))
  {
    hide DecCaps, DecUpdate, DecIcon, DecDelete, DecAssociate, Has;
    CapsExtends(b, t);
    UpdateExtends(b, t);
    if DecUpdate(b).Some? {
      IconExtends(DecUpdate(b).value.1, t, host.allocLimit);
    }
    DeleteExtends(b, t);
    AssociateExtends(b, t);
  }

  // Where a stream is cut

  /**
   * Bytes that are handled to a good end in one call, and any bytes in the next call, come to the same as all of them
   * in one call. So a stream may be cut between any two packets.
   */
  lemma {:induction false} HandledInPieces(host: Host, c: Client, b: seq<byte>, t: seq<byte>)
    requires !c.closed && c.db.Some? && Receive(host, c, b).ok
    ensures Open(Receive(host, c, b).client)
    ensures var r1 := Receive(host, c, b);
            var r2 := Receive(host, r1.client, t);
            r1.left == [] && Receive(host, c, b + t) == r2.(handled := r1.handled + r2.handled)
    decreases |b|
  {
    hide DecMsg, DecHeader, Deliver, Unread, Admits;
    if b == [] {
      assert b + t == t;
      assert [] + Receive(host, c, t).handled == Receive(host, c, t).handled;
    } else {
      var ((cmdId, length), body) := DecHeader(b).value;
      HeaderExtends(b, t);
      MessageExtends(host, cmdId, body, t);
      var (c', ok, left, msgs) := Pass(host, c, cmdId, body);
      HandledInPieces(host, c', left, t);
      var r1 := Receive(host, c', left);
      var r2 := Receive(host, r1.client, t);
      assert msgs + r1.handled + r2.handled == msgs + (r1.handled + r2.handled);
    }
  }

  /**
   * In particular for what a server sends: cut between two packets, the stream is handled as if it came in one piece.
   */
  lemma CutBetweenPackets(host: Host, c: Client, ps: seq<ServerPdu>, qs: seq<ServerPdu>)
    requires !c.closed && c.db.Some?
    requires (forall p | p in ps :: Sendable(p)) && (forall q | q in qs :: Sendable(q))
    requires Receive(host, c, Stream(ps)).ok
    ensures Open(Receive(host, c, Stream(ps)).client)
    ensures var r1 := Receive(host, c, Stream(ps));
            var r2 := Receive(host, r1.client, Stream(qs));
            Receive(host, c, Stream(ps + qs)) == r2.(handled := r1.handled + r2.handled)
  {
    hide Receive, Sendable, Sent;
    StreamConcat(ps, qs);
    HandledInPieces(host, c, Stream(ps), Stream(qs));
  }

  lemma CutBodyUnread(host: Host, p: ServerPdu, k: nat)
    requires HasBody(p) && Acceptable(p, host.allocLimit) && k < |Body(p)|
    ensures DecMsg(host, CmdId(p), Body(p)[..k]).None?
  {
    hide DecMsg, Acceptable, Body, HasBody, CmdId, View;
    var b := Body(p);
    assert b + [] == b && b[..k] + b[k..] == b && b[k..] != [];
    BodyReadsBack(host, p, []);
    MessageExtends(host, CmdId(p), b[..k], b[k..]);
  }

  /**
   * But nowhere else: a call that brings a packet the client could accept, but not all of it, fails and handles
   * nothing.
   */
  lemma CutInsidePacket(host: Host, c: Client, p: ServerPdu, n: nat)
    requires !c.closed && c.db.Some? && Sendable(p) && Acceptable(p, host.allocLimit) && 0 < n < |Sent(p)|
    ensures !Receive(host, c, Sent(p)[..n]).ok && Receive(host, c, Sent(p)[..n]).handled == []
  {
    hide LE32, DecMsg, DecHeader, Deliver, Unread, Admits, Acceptable, Body, HasBody, CmdId, Receive;
    var (b, l1, l2) := (Body(p), LE32(CmdId(p)), LE32(8 + |Body(p)|));
    ReceiveUnfolds(host, c, Sent(p)[..n]);
    if n >= 8 {
      assert Sent(p)[..n] == l1 + l2 + b[..n - 8];
      HeaderReadsBack(CmdId(p), 8 + |b|, b[..n - 8]);
      CutBodyUnread(host, p, n - 8);
    }
  }

  lemma {:induction false} StreamConcat(ps: seq<ServerPdu>, qs: seq<ServerPdu>)
    requires (forall p | p in ps :: Sendable(p)) && (forall q | q in qs :: Sendable(q))
    ensures Stream(ps + qs) == Stream(ps) + Stream(qs)
    decreases |ps|
  {
    hide Sendable, Sent;
    if ps == [] {
      assert ps + qs == qs;
    } else {
      assert ps[0] in ps;
      assert (ps + qs)[1..] == ps[1..] + qs;
      StreamConcat(ps[1..], qs);
      assert Sent(ps[0]) + (Stream(ps[1..]) + Stream(qs)) == Sent(ps[0]) + Stream(ps[1..]) + Stream(qs);
    }
  }

  // What a message consumes

  function FieldBytes(flags: u32, mask: u32, w: WireString): nat
    requires mask > 0
  {
    if Has(flags, mask) then 2 + w.length else 0
  }

  /** The body bytes behind a message, told from the message alone. */
  function BodyBytes(msg: Msg): nat {
    match msg
    case CapsMsg(p) => 2 + 2 + p.name.length + if p.version >= 4 then 2 + p.uniqueId.length else 0
    case UpdateMsg(u, icon) =>
      4 + FieldBytes(u.flags, FIELD_ID, u.appId) + FieldBytes(u.flags, FIELD_GROUP, u.appGroup)
      + FieldBytes(u.flags, FIELD_EXECPATH, u.execPath) + FieldBytes(u.flags, FIELD_WORKINGDIR, u.workingDir)
      + FieldBytes(u.flags, FIELD_DESC, u.desc) + if icon.Some? then 28 + icon.value.bitsLength else 0
    case DeleteMsg(d) => 4 + FieldBytes(d.flags, FIELD_ID, d.appId) + FieldBytes(d.flags, FIELD_GROUP, d.appGroup)
    case AssociateMsg(a) =>
      8 + FieldBytes(a.flags, FIELD_ID, a.appId) + FieldBytes(a.flags, FIELD_GROUP, a.appGroup)
      + FieldBytes(a.flags, FIELD_EXECPATH, a.execPath) + FieldBytes(a.flags, FIELD_DESC, a.desc)
    case ProviderMsg => 0
  }

  function WireBytes(msgs: seq<Msg>): nat {
    if msgs == [] then 0 else 8 + BodyBytes(msgs[0]) + WireBytes(msgs[1..])
  }

  lemma StringConsumes(b: seq<byte>, required: bool)
    ensures var r := ReadString(b, required); r.Some? ==> |b| == 2 + r.value.0.length + |r.value.1|
  {
    hide FromLE16;
  }

  lemma FieldConsumes(flags: u32, mask: u32, b: seq<byte>, required: bool)
    requires mask > 0
    ensures var r := ReadField(flags, mask, b, required);
            r.Some? ==> |b| == FieldBytes(flags, mask, r.value.0) + |r.value.1|
  {
    hide Has, ReadString;
    StringConsumes(b, required);
  }

  lemma CapsConsumes(b: seq<byte>)
    ensures DecCaps(b).Some? ==> |b| == BodyBytes(CapsMsg(DecCaps(b).value.0)) + |DecCaps(b).value.1|
  {
    hide FromLE16, ReadString;
    if DecCaps(b).Some? {
      var b1 := ReadU16(b).value.1;
      StringConsumes(b1, true);
      StringConsumes(ReadString(b1, true).value.1, true);
    }
  }

  lemma UpdateConsumes(b: seq<byte>)
    ensures DecUpdate(b).Some? ==> |b| == BodyBytes(UpdateMsg(DecUpdate(b).value.0, None)) + |DecUpdate(b).value.1|
  {
    hide FromLE32, ReadField, Has, FieldBytes;
    if DecUpdate(b).Some? {
      var (f, b1) := ReadU32(b).value;
      FieldConsumes(f, FIELD_ID, b1, true);
      var b2 := ReadField(f, FIELD_ID, b1, true).value.1;
      FieldConsumes(f, FIELD_GROUP, b2, false);
      var b3 := ReadField(f, FIELD_GROUP, b2, false).value.1;
      FieldConsumes(f, FIELD_EXECPATH, b3, true);
      var b4 := ReadField(f, FIELD_EXECPATH, b3, true).value.1;
      FieldConsumes(f, FIELD_WORKINGDIR, b4, false);
      var b5 := ReadField(f, FIELD_WORKINGDIR, b4, false).value.1;
      FieldConsumes(f, FIELD_DESC, b5, true);
    }
  }

  lemma DeleteConsumes(b: seq<byte>)
    ensures DecDelete(b).Some? ==> |b| == BodyBytes(DeleteMsg(DecDelete(b).value.0)) + |DecDelete(b).value.1|
  {
    hide FromLE32, ReadField, Has, FieldBytes;
    if DecDelete(b).Some? {
      var (f, b1) := ReadU32(b).value;
      FieldConsumes(f, FIELD_ID, b1, true);
      FieldConsumes(f, FIELD_GROUP, ReadField(f, FIELD_ID, b1, true).value.1, false);
    }
  }

  lemma AssociateConsumes(b: seq<byte>)
    ensures DecAssociate(b).Some?
            ==> |b| == BodyBytes(AssociateMsg(DecAssociate(b).value.0)) + |DecAssociate(b).value.1|
  {
    hide FromLE32, ReadField, Has, FieldBytes;
    if DecAssociate(b).Some? {
      var (f, b1) := ReadU32(b).value;
      var b2 := ReadU32(b1).value.1;
      FieldConsumes(f, FIELD_ID, b2, true);
      var b3 := ReadField(f, FIELD_ID, b2, true).value.1;
      FieldConsumes(f, FIELD_GROUP, b3, false);
      var b4 := ReadField(f, FIELD_GROUP, b3, false).value.1;
      FieldConsumes(f, FIELD_EXECPATH, b4, true);
      var b5 := ReadField(f, FIELD_EXECPATH, b4, true).value.1;
      FieldConsumes(f, FIELD_DESC, b5, true);
    }
  }

  lemma MessageConsumes(host: Host, cmdId: u32, b: seq<byte>)
    ensures var r := DecMsg(host, cmdId, b); r.Some? ==> |b| == BodyBytes(r.value.0) + |r.value.1|
  {
    hide DecCaps, DecUpdate, DecDelete, DecAssociate, Has, FieldBytes, DecIconHead, IconFile.Container;
    CapsConsumes(b);
    UpdateConsumes(b);
    DeleteConsumes(b);
    AssociateConsumes(b);
  }

  /** Every byte of a stream that comes to a good end is accounted for by the messages handled. */
  lemma {:induction false} BytesAccounted(host: Host, c: Client, b: seq<byte>)
    requires !c.closed && c.db.Some?
    ensures Receive(host, c, b).ok ==> |b| == WireBytes(Receive(host, c, b).handled)
    decreases |b|
  {
    hide DecMsg, DecHeader, Deliver, Unread, Admits, BodyBytes;
    if b != [] && Receive(host, c, b).ok {
      var ((cmdId, length), body) := DecHeader(b).value;
      MessageConsumes(host, cmdId, body);
      var (c', ok, left, msgs) := Pass(host, c, cmdId, body);
      BytesAccounted(host, c', left);
      assert Receive(host, c, b).handled[1..] == Receive(host, c', left).handled;
    }
  }

  lemma {:induction false} StreamBytes(host: Host, ps: seq<ServerPdu>)
    requires AllAcceptable(ps, host.allocLimit)
    ensures |Stream(ps)| == WireBytes(Views(ps, host.allocLimit))
    decreases |ps|
  {
    hide Acceptable, Body, View, BodyBytes, DecMsg;
    if ps != [] {
      assert ps[0] in ps;
      BodyReadsBack(host, ps[0], []);
      MessageConsumes(host, CmdId(ps[0]), Body(ps[0]) + []);
      StreamBytes(host, ps[1..]);
      assert Views(ps, host.allocLimit)[1..] == Views(ps[1..], host.allocLimit);
    }
  }

  /** No list of PDUs behind a provider packet is ever handled as that list: the unread body is always in the way. */
  lemma NothingBehindProvider(host: Host, c: Client, d: ServerDeleteProvider, ps: seq<ServerPdu>)
    requires !c.closed && c.db.Some? && AllAcceptable(ps, host.allocLimit)
    ensures 8 + |EncDeleteProviderBody(d)| < U32_RANGE
    ensures var b := Packet(CMDID_DELETE_APPLIST_PROVIDER, EncDeleteProviderBody(d)) + Stream(ps);
            var r := Receive(host, c, b);
            !(r.ok && r.handled == [ProviderMsg] + Views(ps, host.allocLimit))
  {
    hide Receive, EncDeleteProviderBody, Stream, Views, BodyBytes;
    ProviderBodySize(d);
    var b := Packet(CMDID_DELETE_APPLIST_PROVIDER, EncDeleteProviderBody(d)) + Stream(ps);
    BytesAccounted(host, c, b);
    StreamBytes(host, ps);
    var msgs := [ProviderMsg] + Views(ps, host.allocLimit);
    assert msgs[1..] == Views(ps, host.allocLimit);
    ProviderHasNoBytes();
  }

  lemma ProviderHasNoBytes()
    ensures BodyBytes(ProviderMsg) == 0
  {
  }
}
