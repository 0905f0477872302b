/**
 * The client's decoders: what each read takes from the bytes that remain, and the methods that move a cursor over a
 * buffer.
 */
module ClientRead {
  import opened Bytes
  import opened Protocol
  import IconFile

  /**
   * A WCHAR field of a PDU struct after a read: the byte length from the wire and the bytes in
   * front of the terminator. The terminator goes to index length / 2, so for an odd length it
   * lands on the last byte.
   */
  datatype WireString = WireString(length: u16, content: RailString)

  const EMPTY := WireString(0, [])

  function Stored(s: RailString): WireString {
    WireString(|s|, s[..|s| - |s| % 2])
  }

  datatype CapsPdu = CapsPdu(version: u16, name: WireString, uniqueId: WireString)
  datatype UpdatePdu = UpdatePdu(flags: u32, appId: WireString, appGroup: WireString, execPath: WireString,
                                 workingDir: WireString, desc: WireString)
  datatype IconPdu = IconPdu(flags: u32, width: u32, height: u32, stride: u32, bpp: u32, format: u32, bitsLength: u32,
                             file: seq<byte>)
  datatype DeletePdu = DeletePdu(flags: u32, appId: WireString, appGroup: WireString)
  datatype AssociatePdu = AssociatePdu(flags: u32, windowId: u32, appId: WireString, appGroup: WireString,
                                       execPath: WireString, desc: WireString)

  // What the decoders compute, on the bytes that remain

  /** ReadSTRING: at most 510 bytes fit beside the terminator; a required string may not be empty. */
  function ReadString(b: seq<byte>, required: bool): (r: Option<(WireString, seq<byte>)>)
    ensures r.Some? ==> |r.value.1| <= |b|
  {
    var (n, b1) :- ReadU16(b);
    if n + 2 > MAX_STRING_SIZE then None
    else if n > 0 then if |b1| >= n then Some((Stored(b1[..n]), b1[n..])) else None
    else if required then None
    else Some((EMPTY, b1))
  }

  function ReadField(flags: u32, mask: u32, b: seq<byte>, required: bool): (r: Option<(WireString, seq<byte>)>)
    requires mask > 0
    ensures r.Some? ==> |r.value.1| <= |b|
  {
    if Has(flags, mask) then ReadString(b, required) else Some((EMPTY, b))
  }

  function DecHeader(b: seq<byte>): (r: Option<((u32, u32), seq<byte>)>)
    ensures r.Some? ==> |r.value.1| == |b| - 8
  {
    var (cmdId, b1) :- ReadU32(b);
    var (length, b2) :- ReadU32(b1);
    Some(((cmdId, length), b2))
  }

  /** The unique id is on the wire only from version 4 on, as the client sees it. */
  function DecCaps(b: seq<byte>): (r: Option<(CapsPdu, seq<byte>)>)
    ensures r.Some? ==> |r.value.1| <= |b|
  {
    var (version, b1) :- ReadU16(b);
    var (name, b2) :- ReadString(b1, true);
    if version >= 4 then
      var (uniqueId, b3) :- ReadString(b2, true);
      Some((CapsPdu(version, name, uniqueId), b3))
    else Some((CapsPdu(version, name, EMPTY), b2))
  }

  predicate UpdateFlagsOk(flags: u32) {
    Has(flags, FIELD_ID) && Has(flags, FIELD_EXECPATH) && Has(flags, FIELD_DESC)
  }

  function DecUpdate(b: seq<byte>): (r: Option<(UpdatePdu, seq<byte>)>)
    ensures r.Some? ==> |r.value.1| <= |b|
  {
    var (flags, b1) :- ReadU32(b);
    if !UpdateFlagsOk(flags) then None
    else
      var (appId, b2) :- ReadField(flags, FIELD_ID, b1, true);
      var (appGroup, b3) :- ReadField(flags, FIELD_GROUP, b2, false);
      var (execPath, b4) :- ReadField(flags, FIELD_EXECPATH, b3, true);
      var (workingDir, b5) :- ReadField(flags, FIELD_WORKINGDIR, b4, false);
      var (desc, b6) :- ReadField(flags, FIELD_DESC, b5, true);
      Some((UpdatePdu(flags, appId, appGroup, execPath, workingDir, desc), b6))
  }

  /** The seven numbers in front of the icon bits; there is no file yet. */
  function DecIconHead(b: seq<byte>): (r: Option<(IconPdu, seq<byte>)>)
    ensures r.Some? <==> |b| >= 28
    ensures r.Some? ==> |r.value.1| == |b| - 28
  {
    var (flags, b1) :- ReadU32(b);
    var (width, b2) :- ReadU32(b1);
    var (height, b3) :- ReadU32(b2);
    var (stride, b4) :- ReadU32(b3);
    var (bpp, b5) :- ReadU32(b4);
    var (format, b6) :- ReadU32(b5);
    var (n, b7) :- ReadU32(b6);
    Some((IconPdu(flags, width, height, stride, bpp, format, n, []), b7))
  }

  /**
   * `allocLimit` is the largest block the host can allocate; the block is asked for before the bits are known to be
   * there.
   */
  function DecIcon(b: seq<byte>, allocLimit: nat): (r: Option<(IconPdu, seq<byte>)>)
    ensures r.Some? ==> |r.value.1| <= |b|
  {
    var (h, rest) :- DecIconHead(b);
    var n := h.bitsLength;
    if IconFile.HEADERS_SIZE + n >= U32_RANGE || IconFile.HEADERS_SIZE + n > allocLimit || |rest| < n then None
    else Some((h.(file := IconFile.Container(h.width, h.height, h.bpp, rest[..n])), rest[n..]))
  }

  function DecDelete(b: seq<byte>): (r: Option<(DeletePdu, seq<byte>)>)
    ensures r.Some? ==> |r.value.1| <= |b|
  {
    var (flags, b1) :- ReadU32(b);
    if !Has(flags, FIELD_ID) then None
    else
      var (appId, b2) :- ReadField(flags, FIELD_ID, b1, true);
      var (appGroup, b3) :- ReadField(flags, FIELD_GROUP, b2, false);
      Some((DeletePdu(flags, appId, appGroup), b3))
  }

  function DecAssociate(b: seq<byte>): (r: Option<(AssociatePdu, seq<byte>)>)
    ensures r.Some? ==> |r.value.1| <= |b|
  {
    var (flags, b1) :- ReadU32(b);
    if !(Has(flags, FIELD_ID) && Has(flags, FIELD_WINDOW_ID)) then None
    else
      var (windowId, b2) :- ReadU32(b1);
      var (appId, b3) :- ReadField(flags, FIELD_ID, b2, true);
      var (appGroup, b4) :- ReadField(flags, FIELD_GROUP, b3, false);
      var (execPath, b5) :- ReadField(flags, FIELD_EXECPATH, b4, true);
      var (desc, b6) :- ReadField(flags, FIELD_DESC, b5, true);
      Some((AssociatePdu(flags, windowId, appId, appGroup, execPath, desc), b6))
  }

  // The cursor the decoders move: a position and the count of bytes left from there

  datatype Cursor = Cursor(cur: nat, len: nat) {
    predicate In(buf: array<byte>) {
      cur + len <= buf.Length
    }

    function Rest(buf: array<byte>): seq<byte>
      requires In(buf)
      reads buf
    {
      buf[cur..cur + len]
    }

    /** The same end, not before this cursor: what any read, failed or not, may do to it. */
    predicate MovedTo(c: Cursor) {
      c.cur + c.len == cur + len && cur <= c.cur
    }
  }

  method ReadUINT16(buf: array<byte>, c: Cursor) returns (ok: bool, o: u16, c': Cursor)
    requires c.In(buf)
    ensures c.MovedTo(c') && (!ok ==> c' == c)
    ensures ReadU16(c.Rest(buf)) == if ok then Some((o, c'.Rest(buf))) else None
  {
    if c.len >= 2 {
      var field := buf[c.cur..c.cur + 2];
      assert field == c.Rest(buf)[..2];
      ok, o, c' := true, FromLE16(field), Cursor(c.cur + 2, c.len - 2);
      assert c'.Rest(buf) == c.Rest(buf)[2..];
    } else {
      ok, o, c' := false, 0, c;
    }
  }

  method ReadUINT32(buf: array<byte>, c: Cursor) returns (ok: bool, o: u32, c': Cursor)
    requires c.In(buf)
    ensures c.MovedTo(c') && (!ok ==> c' == c)
    ensures ReadU32(c.Rest(buf)) == if ok then Some((o, c'.Rest(buf))) else None
  {
    if c.len >= 4 {
      var field := buf[c.cur..c.cur + 4];
      assert field == c.Rest(buf)[..4];
      ok, o, c' := true, FromLE32(field), Cursor(c.cur + 4, c.len - 4);
      assert c'.Rest(buf) == c.Rest(buf)[4..];
    } else {
      ok, o, c' := false, 0, c;
    }
  }

  method ReadBYTES(buf: array<byte>, c: Cursor, n: nat) returns (ok: bool, o: seq<byte>, c': Cursor)
    requires c.In(buf)
    ensures c.MovedTo(c') && (!ok ==> c' == c)
    ensures ok <==> n <= c.len
    ensures ok ==> o == c.Rest(buf)[..n] && c'.Rest(buf) == c.Rest(buf)[n..]
  {
    if c.len >= n {
      ok, o, c' := true, buf[c.cur..c.cur + n], Cursor(c.cur + n, c.len - n);
    } else {
      ok, o, c' := false, [], c;
    }
  }

  method ReadSTRING(buf: array<byte>, c: Cursor, required: bool) returns (ok: bool, o: WireString, c': Cursor)
    requires c.In(buf)
    ensures c.MovedTo(c')
    ensures ReadString(c.Rest(buf), required) == if ok then Some((o, c'.Rest(buf))) else None
    ensures ok ==> |o.content| + 2 <= MAX_STRING_SIZE
  {
    hide FromLE16;
    var n, bytes;
    o := EMPTY;
    ok, n, c' := ReadUINT16(buf, c);
    if !ok {
      return;
    }
    if n + 2 > MAX_STRING_SIZE {
      ok := false;
    } else if n > 0 {
      ok, bytes, c' := ReadBYTES(buf, c', n);
      if ok {
        o := Stored(bytes);
      }
    } else if required {
      ok := false;
    }
  }

  /** The reads of a flagged string: skipped, leaving the zeroed field, when the flag is clear. */
  method ReadFlagged(buf: array<byte>, c: Cursor, flags: u32, mask: u32, required: bool)
      returns (ok: bool, o: WireString, c': Cursor)
    requires c.In(buf) && mask > 0
    ensures c.MovedTo(c')
    ensures ReadField(flags, mask, c.Rest(buf), required) == if ok then Some((o, c'.Rest(buf))) else None
  {
    ok, o, c' := true, EMPTY, c;
    if Has(flags, mask) {
      ok, o, c' := ReadSTRING(buf, c, required);
    }
  }

  // The decoders: a failed one gives the caller its own cursor back

  method ReadAppListHeader(buf: array<byte>, c: Cursor) returns (ok: bool, cmdId: u32, length: u32, c': Cursor)
    requires c.In(buf)
    ensures c.MovedTo(c') && (!ok ==> c' == c)
    ensures DecHeader(c.Rest(buf)) == if ok then Some(((cmdId, length), c'.Rest(buf))) else None
    ensures ok ==> c'.len == c.len - 8
  {
    var cur := c;
    length := 0;
    ok, cmdId, cur := ReadUINT32(buf, cur);
    if ok {
      ok, length, cur := ReadUINT32(buf, cur);
    }
    c' := if ok then cur else c;
    assert ok ==> |c'.Rest(buf)| == |c.Rest(buf)| - 8;
  }

  /** Fills `caps` as it goes, so a version that was read stays read even when the rest fails. */
  method ReadAppListServerCaps(buf: array<byte>, c: Cursor, previous: u16)
      returns (ok: bool, version: u16, caps: CapsPdu, c': Cursor)
    requires c.In(buf)
    ensures c.MovedTo(c') && (!ok ==> c' == c)
    ensures DecCaps(c.Rest(buf)) == if ok then Some((caps, c'.Rest(buf))) else None
    ensures ok ==> |caps.name.content| + 2 <= MAX_STRING_SIZE
    ensures version == if ReadU16(c.Rest(buf)).Some? then ReadU16(c.Rest(buf)).value.0 else previous
    ensures ok ==> version == caps.version
  {
    hide ReadU16, ReadString;
    var cur := c;
    caps := CapsPdu(0, EMPTY, EMPTY);
    version := previous;
    var v, name, uniqueId;
    uniqueId := EMPTY;
    ok, v, cur := ReadUINT16(buf, cur);
    if ok {
      version := v;
      ok, name, cur := ReadSTRING(buf, cur, true);
      if ok && version >= 4 {
        ok, uniqueId, cur := ReadSTRING(buf, cur, true);
      }
      if ok {
        caps := CapsPdu(version, name, uniqueId);
      }
    }
    c' := if ok then cur else c;
  }

  method ReadAppListUpdate(buf: array<byte>, c: Cursor) returns (ok: bool, pdu: UpdatePdu, c': Cursor)
    requires c.In(buf)
    ensures c.MovedTo(c') && (!ok ==> c' == c)
    ensures DecUpdate(c.Rest(buf)) == if ok then Some((pdu, c'.Rest(buf))) else None
  {
    hide ReadU32, ReadField, Has;
    pdu := UpdatePdu(0, EMPTY, EMPTY, EMPTY, EMPTY, EMPTY);
    var flags, appId, appGroup, execPath, workingDir, desc;
    var cur := c;
    ok, flags, cur := ReadUINT32(buf, cur);
    if !ok || !UpdateFlagsOk(flags) {
      return false, pdu, c;
    }
    ok, appId, cur := ReadFlagged(buf, cur, flags, FIELD_ID, true);
    if !ok {
      return false, pdu, c;
    }
    ok, appGroup, cur := ReadFlagged(buf, cur, flags, FIELD_GROUP, false);
    if !ok {
      return false, pdu, c;
    }
    ok, execPath, cur := ReadFlagged(buf, cur, flags, FIELD_EXECPATH, true);
    if !ok {
      return false, pdu, c;
    }
    ok, workingDir, cur := ReadFlagged(buf, cur, flags, FIELD_WORKINGDIR, false);
    if !ok {
      return false, pdu, c;
    }
    ok, desc, cur := ReadFlagged(buf, cur, flags, FIELD_DESC, true);
    if !ok {
      return false, pdu, c;
    }
    pdu, c' := UpdatePdu(flags, appId, appGroup, execPath, workingDir, desc), cur;
  }

  method ReadIconHead(buf: array<byte>, c: Cursor) returns (ok: bool, head: IconPdu, c': Cursor)
    requires c.In(buf)
    ensures c.MovedTo(c') && (!ok ==> c' == c)
    ensures DecIconHead(c.Rest(buf)) == if ok then Some((head, c'.Rest(buf))) else None
  {
    hide ReadU32;
    head := IconPdu(0, 0, 0, 0, 0, 0, 0, []);
    var flags, width, height, stride, bpp, format, n;
    var cur := c;
    ok, flags, cur := ReadUINT32(buf, cur);
    if !ok {
      return false, head, c;
    }
    ok, width, cur := ReadUINT32(buf, cur);
    if !ok {
      return false, head, c;
    }
    ok, height, cur := ReadUINT32(buf, cur);
    if !ok {
      return false, head, c;
    }
    ok, stride, cur := ReadUINT32(buf, cur);
    if !ok {
      return false, head, c;
    }
    ok, bpp, cur := ReadUINT32(buf, cur);
    if !ok {
      return false, head, c;
    }
    ok, format, cur := ReadUINT32(buf, cur);
    if !ok {
      return false, head, c;
    }
    ok, n, cur := ReadUINT32(buf, cur);
    if !ok {
      return false, head, c;
    }
    head, c' := IconPdu(flags, width, height, stride, bpp, format, n, []), cur;
  }

  method ReadAppListIconData(buf: array<byte>, c: Cursor, allocLimit: nat) returns (ok: bool, pdu: IconPdu, c': Cursor)
    requires c.In(buf)
    ensures c.MovedTo(c') && (!ok ==> c' == c)
    ensures DecIcon(c.Rest(buf), allocLimit) == if ok then Some((pdu, c'.Rest(buf))) else None
  {
    hide DecIconHead, IconFile.Container;
    var cur, bits;
    ok, pdu, cur := ReadIconHead(buf, c);
    var n := pdu.bitsLength;
    if !ok || IconFile.HEADERS_SIZE + n >= U32_RANGE || IconFile.HEADERS_SIZE + n > allocLimit {
      return false, pdu, c;
    }
    ok, bits, cur := ReadBYTES(buf, cur, n);
    if !ok {
      return false, pdu, c;
    }
    var file := IconFile.Build(pdu.width, pdu.height, pdu.bpp, bits);
    pdu, c' := pdu.(file := file[..]), cur;
  }

  method ReadAppListDelete(buf: array<byte>, c: Cursor) returns (ok: bool, pdu: DeletePdu, c': Cursor)
    requires c.In(buf)
    ensures c.MovedTo(c') && (!ok ==> c' == c)
    ensures DecDelete(c.Rest(buf)) == if ok then Some((pdu, c'.Rest(buf))) else None
  {
    hide ReadU32, ReadField, Has;
    pdu := DeletePdu(0, EMPTY, EMPTY);
    var flags, appId, appGroup;
    var cur := c;
    ok, flags, cur := ReadUINT32(buf, cur);
    if !ok || !Has(flags, FIELD_ID) {
      return false, pdu, c;
    }
    ok, appId, cur := ReadFlagged(buf, cur, flags, FIELD_ID, true);
    if !ok {
      return false, pdu, c;
    }
    ok, appGroup, cur := ReadFlagged(buf, cur, flags, FIELD_GROUP, false);
    if !ok {
      return false, pdu, c;
    }
    pdu, c' := DeletePdu(flags, appId, appGroup), cur;
  }

  method ReadAssociateWindowId(buf: array<byte>, c: Cursor) returns (ok: bool, pdu: AssociatePdu, c': Cursor)
    requires c.In(buf)
    ensures c.MovedTo(c') && (!ok ==> c' == c)
    ensures DecAssociate(c.Rest(buf)) == if ok then Some((pdu, c'.Rest(buf))) else None
  {
    hide ReadU32, ReadField, Has;
    pdu := AssociatePdu(0, 0, EMPTY, EMPTY, EMPTY, EMPTY);
    var flags, windowId, appId, appGroup, execPath, desc;
    var cur := c;
    ok, flags, cur := ReadUINT32(buf, cur);
    if !ok || !(Has(flags, FIELD_ID) && Has(flags, FIELD_WINDOW_ID)) {
      return false, pdu, c;
    }
    ok, windowId, cur := ReadUINT32(buf, cur);
    if !ok {
      return false, pdu, c;
    }
    ok, appId, cur := ReadFlagged(buf, cur, flags, FIELD_ID, true);
    if !ok {
      return false, pdu, c;
    }
    ok, appGroup, cur := ReadFlagged(buf, cur, flags, FIELD_GROUP, false);
    if !ok {
      return false, pdu, c;
    }
    ok, execPath, cur := ReadFlagged(buf, cur, flags, FIELD_EXECPATH, true);
    if !ok {
      return false, pdu, c;
    }
    ok, desc, cur := ReadFlagged(buf, cur, flags, FIELD_DESC, true);
    if !ok {
      return false, pdu, c;
    }
    pdu, c' := AssociatePdu(flags, windowId, appId, appGroup, execPath, desc), cur;
  }
}
