/** The reverse direction: the client's capability reply and the server's loop over what it receives. */
module ServerLoop {
  import opened Bytes
  import opened Protocol

  /** RDPAPPLIST_CLIENT_CAPS_PDU; the language is a fixed field of 32 bytes. */
  datatype ClientCaps = ClientCaps(version: u16, lang: Lang)
  type Lang = s: seq<byte> | |s| == LANG_SIZE witness seq(LANG_SIZE, _ => 0)

  const REPLY_SIZE := 42

  /** The packet a client answers capabilities with. */
  function Reply(c: ClientCaps): (b: seq<byte>)
    ensures |b| == REPLY_SIZE
  {
    LE32(CMDID_CAPS) + LE32(REPLY_SIZE) + (LE16(c.version) + c.lang)
  }

  function Replies(cs: seq<ClientCaps>): seq<byte> {
    if cs == [] then [] else Reply(cs[0]) + Replies(cs[1..])
  }

  /** The application's ApplicationListClientCaps callback; an absent one accepts everything. */
  type Callback = ClientCaps -> bool

  // What the loop does, as a function of the buffer and the position

  /** One PDU: whether it was accepted, the position it leaves, and what the callback was given. */
  function Receive(buf: seq<byte>, pos: nat, accepts: Callback): (bool, nat, Option<ClientCaps>)
    requires pos <= |buf|
  {
    if |buf| - pos < 8 then (false, pos, None)
    else
      var (cmdId, length) := (FromLE32(buf[pos..pos + 4]), FromLE32(buf[pos + 4..pos + 8]));
      if cmdId != CMDID_CAPS || |buf| - pos < REPLY_SIZE then (false, pos + length, None)
      else
        var caps := ClientCaps(FromLE16(buf[pos + 8..pos + 10]), buf[pos + 10..pos + REPLY_SIZE]);
        (accepts(caps), pos + length, Some(caps))
  }

  datatype End = Drained(pos: nat) | Failed | Spins
  datatype Served = Served(given: seq<ClientCaps>, end: End)

  /**
   * The whole loop. A PDU that is accepted but claims length 0 puts the position back where it was,
   * and the loop then reads the same bytes again and again: `Spins`.
   */
  function Serve(buf: seq<byte>, pos: nat, accepts: Callback): Served
    decreases |buf| - pos
  {
    if pos >= |buf| then Served([], Drained(pos))
    else
      var (ok, next, caps) := Receive(buf, pos, accepts);
      var given := if caps.Some? then [caps.value] else [];
      if !ok then Served(given, Failed)
      else if next == pos then Served(given, Spins)
      else
        var rest := Serve(buf, next, accepts);
        Served(given + rest.given, rest.end)
  }

  /** winpr's input stream: a position that reads advance and SetPosition overwrites. */
  class InputStream {
    const buffer: array<byte>
    var pos: nat

    constructor (buffer: array<byte>)
      ensures this.buffer == buffer && pos == 0
    {
      this.buffer, pos := buffer, 0;
    }

    method ReadHeader() returns (ok: bool, cmdId: u32, length: u32)
      requires pos <= buffer.Length
      modifies this
      ensures ok <==> old(pos) + 8 <= buffer.Length
      ensures pos == old(pos) + if ok then 8 else 0
      ensures ok ==> cmdId == FromLE32(buffer[old(pos)..old(pos) + 4])
                     && length == FromLE32(buffer[old(pos) + 4..old(pos) + 8])
    {
      if buffer.Length - pos < 8 {
        return false, 0, 0;
      }
      ok, cmdId, length := true, FromLE32(buffer[pos..pos + 4]), FromLE32(buffer[pos + 4..pos + 8]);
      pos := pos + 8;
    }

    method ReceiveCaps(accepts: Callback) returns (ok: bool, caps: Option<ClientCaps>)
      requires pos <= buffer.Length
      modifies this
      ensures caps.Some? <==> old(pos) + 2 + LANG_SIZE <= buffer.Length
      ensures caps.Some? ==> caps.value == ClientCaps(FromLE16(buffer[old(pos)..old(pos) + 2]),
                                                      buffer[old(pos) + 2..old(pos) + 2 + LANG_SIZE])
      ensures ok <==> caps.Some? && accepts(caps.value)
    {
      if buffer.Length - pos < 2 {
        return false, None;
      }
      var version := FromLE16(buffer[pos..pos + 2]);
      pos := pos + 2;
      if buffer.Length - pos < LANG_SIZE {
        return false, None;
      }
      var pdu := ClientCaps(version, buffer[pos..pos + LANG_SIZE]);
      pos := pos + LANG_SIZE;
      ok, caps := accepts(pdu), Some(pdu);
    }

    method ReceivePdu(accepts: Callback) returns (ok: bool, caps: Option<ClientCaps>)
      requires pos <= buffer.Length
      modifies this
      ensures (ok, pos, caps) == Receive(buffer[..], old(pos), accepts)
    {
      hide FromLE32, FromLE16;
      var beg := pos;
      var cmdId, length;
      ok, cmdId, length := ReadHeader();
      assert buffer[..][beg..] == buffer[beg..];
      if !ok {
        return false, None;
      }
      if cmdId == CMDID_CAPS {
        ok, caps := ReceiveCaps(accepts);
      } else {
        ok, caps := false, None;
      }
      if pos != beg + length {
        pos := beg + length;
      }
    }

    /** `Spins` stands for never returning: the pass that found it would repeat without end. */
    method HandleMessages(accepts: Callback) returns (given: seq<ClientCaps>, end: End)
      modifies this
      ensures Served(given, end) == Serve(buffer[..], 0, accepts)
    {
      pos, given := 0, [];
      while pos < buffer.Length
        invariant Serve(buffer[..], 0, accepts)
                  == var rest := Serve(buffer[..], pos, accepts); Served(given + rest.given, rest.end)
        decreases buffer.Length - pos
      {
        var beg := pos;
        var ok, caps := ReceivePdu(accepts);
        given := given + if caps.Some? then [caps.value] else [];
        if !ok {
          return given, Failed;
        }
        if pos == beg {
          return given, Spins;
        }
      }
      end := Drained(pos);
    }
  }

  // Round trip

  /** What a server should make of a list of replies: all of them up to the first its callback refuses. */
  function Expected(cs: seq<ClientCaps>, accepts: Callback, pos: nat): Served {
    if cs == [] then Served([], Drained(pos))
    else if !accepts(cs[0]) then Served([cs[0]], Failed)
    else
      var rest := Expected(cs[1..], accepts, pos + REPLY_SIZE);
      Served([cs[0]] + rest.given, rest.end)
  }

  lemma ReceivesReply(buf: seq<byte>, pos: nat, c: ClientCaps, accepts: Callback)
    requires pos + REPLY_SIZE <= |buf| && buf[pos..pos + REPLY_SIZE] == Reply(c)
    ensures Receive(buf, pos, accepts) == (accepts(c), pos + REPLY_SIZE, Some(c))
  {
    hide LE32, LE16, FromLE32, FromLE16;
    var r := Reply(c);
    assert r[..4] == LE32(CMDID_CAPS) && r[4..8] == LE32(REPLY_SIZE);
    assert r[8..10] == LE16(c.version) && r[10..] == c.lang;
    var p := buf[pos..pos + REPLY_SIZE];
    SliceOfSlice(buf, pos, REPLY_SIZE, 0, 4);
    SliceOfSlice(buf, pos, REPLY_SIZE, 4, 8);
    SliceOfSlice(buf, pos, REPLY_SIZE, 8, 10);
    SliceOfSlice(buf, pos, REPLY_SIZE, 10, REPLY_SIZE);
    assert buf[pos..pos + 4] == r[..4] && buf[pos + 4..pos + 8] == r[4..8];
    assert buf[pos + 8..pos + 10] == r[8..10] && buf[pos + 10..pos + REPLY_SIZE] == r[10..];
  }

  lemma {:induction false} ServesFrom(before: seq<byte>, cs: seq<ClientCaps>, accepts: Callback)
    ensures Serve(before + Replies(cs), |before|, accepts) == Expected(cs, accepts, |before|)
    decreases |cs|
  {
    hide Reply, Receive;
    var buf := before + Replies(cs);
    if cs != [] {
      var next := before + Reply(cs[0]);
      assert buf == next + Replies(cs[1..]);
      assert buf[|before|..|before| + REPLY_SIZE] == Reply(cs[0]);
      ReceivesReply(buf, |before|, cs[0], accepts);
      ServesFrom(next, cs[1..], accepts);
    }
  }

  /** Any number of replies in one buffer: the callback sees each, in order, and the loop stops exactly at the end. */
  lemma RepliesRoundTrip(cs: seq<ClientCaps>, accepts: Callback)
    requires forall i | 0 <= i < |cs| :: accepts(cs[i])
    ensures Serve(Replies(cs), 0, accepts) == Served(cs, Drained(|Replies(cs)|))
  {
    hide Serve, Expected, Reply;
    assert [] + Replies(cs) == Replies(cs);
    ServesFrom([], cs, accepts);
    AllExpected(cs, accepts, 0);
  }

  lemma {:induction false} AllExpected(cs: seq<ClientCaps>, accepts: Callback, pos: nat)
    requires forall i | 0 <= i < |cs| :: accepts(cs[i])
    ensures Expected(cs, accepts, pos) == Served(cs, Drained(pos + |Replies(cs)|))
    decreases |cs|
  {
    hide Reply;
    if cs != [] {
      AllExpected(cs[1..], accepts, pos + REPLY_SIZE);
      assert cs == [cs[0]] + cs[1..];
    }
  }

  // Termination

  /** The bytes of a capability header that claims length 0 stand at q. */
  predicate ZeroLengthCapsAt(buf: seq<byte>, q: nat) {
    q + REPLY_SIZE <= |buf| && buf[q..q + 4] == LE32(CMDID_CAPS) && buf[q + 4..q + 8] == LE32(0)
  }

  /**
   * A pass leaves the position where it was, with success, exactly on an accepted capability PDU of claimed length 0.
   */
  lemma StuckExactly(buf: seq<byte>, pos: nat, accepts: Callback)
    requires pos <= |buf|
    ensures var (ok, next, caps) := Receive(buf, pos, accepts);
            ok && next == pos <==> ZeroLengthCapsAt(buf, pos) && accepts(caps.value)
  {
    hide LE32, FromLE32, FromLE16;
    if |buf| - pos >= 8 {
      LE32OfFrom(buf[pos..pos + 4]);
      LE32OfFrom(buf[pos + 4..pos + 8]);
    }
  }

  /** The PDU the callback would be given there. */
  function CapsAt(buf: seq<byte>, q: nat): ClientCaps
    requires q + REPLY_SIZE <= |buf|
  {
    ClientCaps(FromLE16(buf[q + 8..q + 10]), buf[q + 10..q + REPLY_SIZE])
  }

  /** The loop comes to position q: from pos on it follows the claimed lengths of the PDUs it accepts. */
  predicate Visits(buf: seq<byte>, pos: nat, q: nat, accepts: Callback)
    decreases |buf| - pos
  {
    q == pos
    || (&& pos < |buf|
        && var (ok, next, _) := Receive(buf, pos, accepts);
        ok && next > pos && Visits(buf, next, q, accepts))
  }

  /** A position where the loop is held for good. */
  predicate HeldAt(buf: seq<byte>, pos: nat, q: nat, accepts: Callback) {
    Visits(buf, pos, q, accepts) && ZeroLengthCapsAt(buf, q) && accepts(CapsAt(buf, q))
  }

  /**
   * The loop never ends if and only if it comes to a capability PDU of claimed length 0 that the callback accepts.
   * Such bytes elsewhere, inside a language field or behind a refused PDU, do no harm.
   */
  lemma {:induction false} SpinsExactly(buf: seq<byte>, pos: nat, accepts: Callback)
    ensures Serve(buf, pos, accepts).end.Spins? <==> exists q: nat :: HeldAt(buf, pos, q, accepts)
    decreases |buf| - pos
  {
    hide LE32, FromLE32, FromLE16;
    if pos < |buf| {
      StuckExactly(buf, pos, accepts);
      var (ok, next, caps) := Receive(buf, pos, accepts);
      if ok && next == pos {
        assert HeldAt(buf, pos, pos, accepts);
      } else if ok {
        SpinsExactly(buf, next, accepts);
        if q: nat :| HeldAt(buf, next, q, accepts) {
          assert HeldAt(buf, pos, q, accepts);
        }
        if q: nat :| HeldAt(buf, pos, q, accepts) {
          NotHeldHere(buf, pos, accepts);
          assert HeldAt(buf, next, q, accepts);
        }
      } else if q: nat :| HeldAt(buf, pos, q, accepts) {
        NotHeldHere(buf, pos, accepts);
      }
    }
  }

  lemma NotHeldHere(buf: seq<byte>, pos: nat, accepts: Callback)
    requires pos < |buf| && !(Receive(buf, pos, accepts).0 && Receive(buf, pos, accepts).1 == pos)
    ensures !HeldAt(buf, pos, pos, accepts)
  {
    hide LE32, FromLE32, FromLE16;
    StuckExactly(buf, pos, accepts);
  }

  /** A buffer in which no such header stands at all is always finished, whatever else it holds. */
  lemma TerminatesWithoutZeroLength(buf: seq<byte>, pos: nat, accepts: Callback)
    requires forall q | pos <= q :: !ZeroLengthCapsAt(buf, q)
    ensures !Serve(buf, pos, accepts).end.Spins?
  {
    hide LE32, FromLE32, FromLE16, Receive, Serve;
    SpinsExactly(buf, pos, accepts);
    if q: nat :| HeldAt(buf, pos, q, accepts) {
      VisitsForward(buf, pos, q, accepts);
    }
  }

  lemma {:induction false} VisitsForward(buf: seq<byte>, pos: nat, q: nat, accepts: Callback)
    requires Visits(buf, pos, q, accepts)
    ensures pos <= q
    decreases |buf| - pos
  {
    hide Receive;
    if q != pos {
      VisitsForward(buf, Receive(buf, pos, accepts).1, q, accepts);
    }
  }

  /** And the failing input: one such header, with enough bytes behind it, holds the server in its loop for good. */
  lemma ZeroLengthSpins(buf: seq<byte>, accepts: Callback)
    requires ZeroLengthCapsAt(buf, 0) && accepts(CapsAt(buf, 0))
    ensures Serve(buf, 0, accepts).end == Spins
  {
    hide LE32, FromLE32, FromLE16, Receive, Serve;
    SpinsExactly(buf, 0, accepts);
    assert HeldAt(buf, 0, 0, accepts);
  }

  /**
   * A capability packet is left by the length it claims, whatever that is and whatever stands in the claimed part
   * beyond the fields; a refused or unknown one ends the loop.
   */
  lemma LeavesByClaimedLength(before: seq<byte>, claimed: u32, c: ClientCaps, rest: seq<byte>, accepts: Callback)
    ensures var buf := before + LE32(1) + LE32(claimed) + LE16(c.version) + c.lang + rest;
            Receive(buf, |before|, accepts) == (accepts(c), |before| + claimed, Some(c))
  {
    hide LE32, LE16, FromLE32, FromLE16;
    var buf := before + LE32(1) + LE32(claimed) + LE16(c.version) + c.lang + rest;
    var p := |before|;
    assert buf[p..p + 4] == LE32(1) && buf[p + 4..p + 8] == LE32(claimed);
    assert buf[p + 8..p + 10] == LE16(c.version) && buf[p + 10..p + 42] == c.lang;
  }

  lemma UnknownIsRefused(before: seq<byte>, cmdId: u32, claimed: u32, rest: seq<byte>, accepts: Callback)
    requires cmdId != 1
    ensures var buf := before + LE32(cmdId) + LE32(claimed) + rest;
            !Receive(buf, |before|, accepts).0 && Serve(buf, |before|, accepts) == Served([], Failed)
  {
    hide LE32, FromLE32, Receive;
    var buf := before + LE32(cmdId) + LE32(claimed) + rest;
    CommandAt(before, LE32(cmdId), LE32(claimed), rest);
    UnknownFailsHere(buf, |before|, accepts);
  }

  lemma CommandAt(before: seq<byte>, l1: seq<byte>, l2: seq<byte>, rest: seq<byte>)
    requires |l1| == |l2| == 4
    ensures (before + l1 + l2 + rest)[|before|..|before| + 4] == l1
  {
  }

  lemma UnknownFailsHere(buf: seq<byte>, pos: nat, accepts: Callback)
    requires pos + 8 <= |buf| && FromLE32(buf[pos..pos + 4]) != CMDID_CAPS
    ensures var r := Receive(buf, pos, accepts); !r.0 && r.2.None?
  {
    hide FromLE32, FromLE16;
  }
}
