/**
 * The server's encoders: a size pre-pass in UINT32 arithmetic, then a second pass
 * that writes into a stream of exactly that size without checking its capacity.
 */
module ServerSend {
  import opened Bytes
  import opened Protocol

  datatype Code = Ok | InvalidData | NoMemory | InternalError | Overrun

  /** What the host answers during one send: allocation, channel write, and how many bytes the channel took. */
  datatype Io = Io(allocOk: bool, writeOk: bool, taken: nat)

  /**
   * A winpr stream. Its writes are unchecked, so writing past the capacity is undefined;
   * the model records that as `overrun`, which never clears.
   */
  class WStream {
    var buffer: array<byte>
    var pos: nat
    var overrun: bool
    ghost var header: seq<byte>  // the bytes asked for before the body began
    ghost var body: seq<byte>    // the bytes asked for since

    ghost predicate Valid()
      reads this, buffer
    {
      && overrun == (|header + body| > buffer.Length)
      && (!overrun ==> pos == |header + body| && buffer[..pos] == header + body)
    }

    constructor (capacity: nat)
      ensures Valid() && fresh(buffer) && buffer.Length == capacity && header == body == []
    {
      buffer := new byte[capacity];
      pos, overrun, header, body := 0, false, [], [];
    }

    method Write(b: seq<byte>)
      requires Valid()
      modifies this`pos, this`overrun, this`body, buffer
      ensures Valid() && body == old(body) + b
    {
      assert (header + body) + b == header + (body + b);
      if !overrun && pos + |b| <= buffer.Length {
        forall i | 0 <= i < |b| {
          buffer[pos + i] := b[i];
        }
        assert buffer[..pos + |b|] == old(buffer[..pos]) + b;
        pos := pos + |b|;
      } else {
        overrun := true;
      }
      body := body + b;
    }

    method WriteUINT16(n: u16)
      requires Valid()
      modifies this`pos, this`overrun, this`body, buffer
      ensures Valid() && body == old(body) + LE16(n)
    {
      Write(LE16(n));
    }

    method WriteUINT32(n: u32)
      requires Valid()
      modifies this`pos, this`overrun, this`body, buffer
      ensures Valid() && body == old(body) + LE32(n)
    {
      Write(LE32(n));
    }

    method WriteString(s: RailString)
      requires Valid()
      modifies this`pos, this`overrun, this`body, buffer
      ensures Valid() && body == old(body) + EncString(s)
    {
      WriteUINT16(|s|);
      Write(s);
      assert body == old(body) + EncString(s);
    }

    /** The optional field of a PDU: written only when its flag is set. */
    method WriteField(flags: u32, mask: u32, s: RailString)
      requires Valid() && mask > 0
      modifies this`pos, this`overrun, this`body, buffer
      ensures Valid() && body == old(body) + EncField(flags, mask, s)
    {
      if Has(flags, mask) {
        WriteString(s);
      }
    }

    method WriteCapsBody(c: ServerCaps)
      requires Valid() && body == []
      modifies this`pos, this`overrun, this`body, buffer
      ensures Valid() && body == EncCapsBody(c)
    {
      WriteUINT16(c.version);
      WriteString(c.name);
      WriteString(c.uniqueId);
    }

    method WriteUpdateBody(u: ServerUpdate)
      requires IconOk(u.icon) && (Has(u.flags, FIELD_ICON) ==> u.icon.Some?)
      requires Valid() && body == []
      modifies this`pos, this`overrun, this`body, buffer
      ensures Valid() && body == EncUpdateBody(u)
    {
      WriteUpdateFields(u);
      if Has(u.flags, FIELD_ICON) {
        WriteIcon(u.icon.value);
      }
    }

    method WriteUpdateFields(u: ServerUpdate)
      requires Valid() && body == []
      modifies this`pos, this`overrun, this`body, buffer
      ensures Valid() && body == EncUpdateFields(u)
    {
      hide EncField, EncString, LE32, LE16, Has;
      WriteUINT32(u.flags);
      WriteField(u.flags, FIELD_ID, u.appId);
      WriteField(u.flags, FIELD_GROUP, u.appGroup);
      WriteField(u.flags, FIELD_EXECPATH, u.execPath);
      WriteField(u.flags, FIELD_WORKINGDIR, u.workingDir);
      WriteField(u.flags, FIELD_DESC, u.desc);
    }

    method WriteIcon(i: ServerIcon)
      requires Valid() && |i.bits| < U32_RANGE
      modifies this`pos, this`overrun, this`body, buffer
      ensures Valid() && body == old(body) + EncIcon(i)
    {
      hide LE32, LE16;
      ghost var before := body;
      WriteUINT32(i.flags);
      WriteUINT32(i.width);
      WriteUINT32(i.height);
      WriteUINT32(i.stride);
      ghost var half := LE32(i.flags) + LE32(i.width) + LE32(i.height) + LE32(i.stride);
      assert body == before + half;
      WriteUINT32(i.bpp);
      WriteUINT32(i.format);
      WriteUINT32(|i.bits|);
      Write(i.bits);
      assert body == before + (half + LE32(i.bpp) + LE32(i.format) + LE32(|i.bits|) + i.bits);
    }

    method WriteDeleteBody(d: ServerDelete)
      requires Valid() && body == []
      modifies this`pos, this`overrun, this`body, buffer
      ensures Valid() && body == EncDeleteBody(d)
    {
      WriteUINT32(d.flags);
      WriteField(d.flags, FIELD_ID, d.appId);
      WriteField(d.flags, FIELD_GROUP, d.appGroup);
    }

    method WriteDeleteProviderBody(d: ServerDeleteProvider)
      requires Valid() && body == []
      modifies this`pos, this`overrun, this`body, buffer
      ensures Valid() && body == EncDeleteProviderBody(d)
    {
      WriteUINT32(d.flags);
      WriteField(d.flags, FIELD_PROVIDER, d.name);
    }

    method WriteAssociateBody(a: ServerAssociate)
      requires Valid() && body == []
      modifies this`pos, this`overrun, this`body, buffer
      ensures Valid() && body == EncAssociateBody(a)
    {
      hide EncField, EncString, LE32, LE16, Has;
      WriteUINT32(a.flags);
      WriteUINT32(a.windowId);
      WriteField(a.flags, FIELD_ID, a.appId);
      WriteField(a.flags, FIELD_GROUP, a.appGroup);
      WriteField(a.flags, FIELD_EXECPATH, a.execPath);
      WriteField(a.flags, FIELD_DESC, a.desc);
    }

    /** Writes the PDU header; what follows is the body. */
    method WriteHeader(cmdId: u32, length: u32)
      requires Valid() && header == body == []
      modifies this, buffer
      ensures Valid() && header == LE32(cmdId) + LE32(length) && body == []
      ensures buffer == old(buffer)
    {
      WriteUINT32(cmdId);
      WriteUINT32(length);
      assert header + body == LE32(cmdId) + LE32(length);
      header, body := LE32(cmdId) + LE32(length), [];
      assert header + body == LE32(cmdId) + LE32(length);
    }
  }

  // UINT32 arithmetic of the size pre-pass

  function Add32(a: u32, b: nat): u32 {
    (a + b) % U32_RANGE
  }

  /** One flagged string of the size pre-pass: rejected when too long, otherwise counted. */
  method CountField(flags: u32, mask: u32, s: RailString, len: u32) returns (ok: bool, len': u32)
    requires mask > 0 && len <= 0x10000
    ensures ok <==> FieldOk(flags, mask, s)
    ensures ok ==> len' == len + FieldSize(flags, mask, s)
  {
    ok, len' := true, len;
    if Has(flags, mask) {
      if |s| > MAX_STRING_SIZE {
        return false, len;
      }
      len' := Add32(len, 2 + |s|);
    }
  }

  predicate FieldOk(flags: u32, mask: u32, s: RailString)
    requires mask > 0
  {
    Has(flags, mask) ==> |s| <= MAX_STRING_SIZE
  }

  function FieldSize(flags: u32, mask: u32, s: RailString): nat
    requires mask > 0
  {
    if Has(flags, mask) then 2 + |s| else 0
  }

  predicate CapsOk(c: ServerCaps) {
    |c.name| <= MAX_STRING_SIZE
  }

  predicate UpdateOk(u: ServerUpdate) {
    && UpdateFieldsOk(u)
    && (Has(u.flags, FIELD_ICON) ==> u.icon.Some?)
  }

  predicate DeleteOk(d: ServerDelete) {
    FieldOk(d.flags, FIELD_ID, d.appId) && FieldOk(d.flags, FIELD_GROUP, d.appGroup)
  }

  predicate DeleteProviderOk(d: ServerDeleteProvider) {
    FieldOk(d.flags, FIELD_PROVIDER, d.name)
  }

  predicate AssociateOk(a: ServerAssociate) {
    && FieldOk(a.flags, FIELD_ID, a.appId) && FieldOk(a.flags, FIELD_GROUP, a.appGroup)
    && FieldOk(a.flags, FIELD_EXECPATH, a.execPath) && FieldOk(a.flags, FIELD_DESC, a.desc)
  }

  predicate UpdateFieldsOk(u: ServerUpdate) {
    && FieldOk(u.flags, FIELD_ID, u.appId) && FieldOk(u.flags, FIELD_GROUP, u.appGroup)
    && FieldOk(u.flags, FIELD_EXECPATH, u.execPath) && FieldOk(u.flags, FIELD_WORKINGDIR, u.workingDir)
    && FieldOk(u.flags, FIELD_DESC, u.desc)
  }

  method UpdateSize(u: ServerUpdate) returns (ok: bool, len: u32)
    requires IconOk(u.icon)
    ensures ok <==> UpdateOk(u)
    ensures ok ==> len == |EncUpdateBody(u)| % U32_RANGE
  {
    hide EncUpdateFields, EncIcon;
    ok, len := UpdateFieldsSize(u);
    if ok && Has(u.flags, FIELD_ICON) {
      if u.icon.None? {
        return false, len;
      }
      len := Add32(len, Add32(7 * 4, |u.icon.value.bits|));
    }
  }

  method UpdateFieldsSize(u: ServerUpdate) returns (ok: bool, len: u32)
    ensures ok <==> UpdateFieldsOk(u)
    ensures ok ==> len == |EncUpdateFields(u)| <= 2574
  {
    ok, len := CountField(u.flags, FIELD_ID, u.appId, 4);
    if !ok {
      return;
    }
    ok, len := CountField(u.flags, FIELD_GROUP, u.appGroup, len);
    if !ok {
      return;
    }
    ok, len := CountField(u.flags, FIELD_EXECPATH, u.execPath, len);
    if !ok {
      return;
    }
    ok, len := CountField(u.flags, FIELD_WORKINGDIR, u.workingDir, len);
    if !ok {
      return;
    }
    ok, len := CountField(u.flags, FIELD_DESC, u.desc, len);
  }

  method AssociateSize(a: ServerAssociate) returns (ok: bool, len: u32)
    ensures ok <==> AssociateOk(a)
    ensures ok ==> len == |EncAssociateBody(a)|
  {
    ok, len := CountField(a.flags, FIELD_ID, a.appId, 8);
    if !ok {
      return;
    }
    ok, len := CountField(a.flags, FIELD_GROUP, a.appGroup, len);
    if !ok {
      return;
    }
    ok, len := CountField(a.flags, FIELD_EXECPATH, a.execPath, len);
    if !ok {
      return;
    }
    ok, len := CountField(a.flags, FIELD_DESC, a.desc, len);
  }

  /** What a send of this body comes to: the code returned and the bytes the channel receives. */
  function Outcome(io: Io, cmdId: u32, body: seq<byte>): (Code, seq<byte>) {
    if !io.allocOk then (NoMemory, [])
    else if 8 + |body| >= U32_RANGE then (Overrun, [])
    else if !io.writeOk then (InternalError, [])
    else
      var packet := Packet(cmdId, body);
      (Ok, packet[..if io.taken < |packet| then io.taken else |packet|])
  }

  /** The code and the channel contents after sending this body. */
  ghost predicate Sent(io: Io, cmdId: u32, body: seq<byte>, code: Code, before: seq<byte>, after: seq<byte>) {
    code == Outcome(io, cmdId, body).0 && after == before + Outcome(io, cmdId, body).1
  }

  class ServerContext {
    var sent: seq<byte>  // everything the channel has accepted so far

    constructor ()
      ensures sent == []
    {
      sent := [];
    }

    /** Allocates the stream for `length` body bytes and writes the header; null when the allocation fails. */
    method SinglePacketNew(io: Io, cmdId: u32, length: u32) returns (s: WStream?)
      ensures s == null <==> !io.allocOk
      ensures s != null ==> fresh(s) && fresh(s.buffer) && s.Valid()
                            && s.buffer.Length == Add32(HEADER_SIZE, length)
      ensures s != null ==> s.header == LE32(cmdId) + LE32(Add32(HEADER_SIZE, length)) && s.body == []
    {
      if !io.allocOk {
        return null;
      }
      s := new WStream(Add32(HEADER_SIZE, length));
      s.WriteHeader(cmdId, Add32(HEADER_SIZE, length));
    }

    /** Hands the written part of the stream to the channel. */
    method PacketSend(io: Io, s: WStream, ghost cmdId: u32) returns (code: Code)
      requires s.Valid() && io.allocOk
      requires s.buffer.Length == (8 + |s.body|) % U32_RANGE
      requires s.header == LE32(cmdId) + LE32((8 + |s.body|) % U32_RANGE)
      modifies this
      ensures Sent(io, cmdId, s.body, code, old(sent), sent)
    {
      if s.overrun {
        return Overrun;
      }
      if !io.writeOk {
        return InternalError;
      }
      assert s.buffer[..s.pos] == Packet(cmdId, s.body);
      var written := if io.taken < s.pos then io.taken else s.pos;
      sent := sent + s.buffer[..written];
      assert s.buffer[..written] == s.buffer[..s.pos][..written];
      code := Ok;
    }

    method SendCaps(io: Io, c: ServerCaps) returns (code: Code)
      modifies this
      ensures !CapsOk(c) ==> code == InvalidData && sent == old(sent)
      ensures CapsOk(c) ==> Sent(io, CMDID_CAPS, EncCapsBody(c), code, old(sent), sent)
    {
      if |c.name| > MAX_STRING_SIZE {
        return InvalidData;
      }
      var len := 2 + 2 + |c.name| + 2 + |c.uniqueId|;
      var s := SinglePacketNew(io, CMDID_CAPS, len);
      if s == null {
        return NoMemory;
      }
      s.WriteCapsBody(c);
      code := PacketSend(io, s, CMDID_CAPS);
    }

    method SendUpdateAppList(io: Io, u: ServerUpdate) returns (code: Code)
      requires IconOk(u.icon)
      modifies this
      ensures !UpdateOk(u) ==> code == InvalidData && sent == old(sent)
      ensures UpdateOk(u) ==> Sent(io, CMDID_UPDATE_APPLIST, EncUpdateBody(u), code, old(sent), sent)
    {
      hide EncUpdateFields, EncIcon, LE32;
      var ok, len := UpdateSize(u);
      if !ok {
        return InvalidData;
      }
      var s := SinglePacketNew(io, CMDID_UPDATE_APPLIST, len);
      if s == null {
        return NoMemory;
      }
      s.WriteUpdateBody(u);
      code := PacketSend(io, s, CMDID_UPDATE_APPLIST);
    }

    method SendDeleteAppList(io: Io, d: ServerDelete) returns (code: Code)
      modifies this
      ensures !DeleteOk(d) ==> code == InvalidData && sent == old(sent)
      ensures DeleteOk(d) ==> Sent(io, CMDID_DELETE_APPLIST, EncDeleteBody(d), code, old(sent), sent)
    {
      var ok, len := CountField(d.flags, FIELD_ID, d.appId, 4);
      if !ok {
        return InvalidData;
      }
      ok, len := CountField(d.flags, FIELD_GROUP, d.appGroup, len);
      if !ok {
        return InvalidData;
      }
      var s := SinglePacketNew(io, CMDID_DELETE_APPLIST, len);
      if s == null {
        return NoMemory;
      }
      s.WriteDeleteBody(d);
      code := PacketSend(io, s, CMDID_DELETE_APPLIST);
    }

    method SendDeleteAppListProvider(io: Io, d: ServerDeleteProvider) returns (code: Code)
      modifies this
      ensures !DeleteProviderOk(d) ==> code == InvalidData && sent == old(sent)
      ensures DeleteProviderOk(d) ==>
                Sent(io, CMDID_DELETE_APPLIST_PROVIDER, EncDeleteProviderBody(d), code, old(sent), sent)
    {
      var ok, len := CountField(d.flags, FIELD_PROVIDER, d.name, 4);
      if !ok {
        return InvalidData;
      }
      var s := SinglePacketNew(io, CMDID_DELETE_APPLIST_PROVIDER, len);
      if s == null {
        return NoMemory;
      }
      s.WriteDeleteProviderBody(d);
      code := PacketSend(io, s, CMDID_DELETE_APPLIST_PROVIDER);
    }

    method SendAssociateWindowId(io: Io, a: ServerAssociate) returns (code: Code)
      modifies this
      ensures !AssociateOk(a) ==> code == InvalidData && sent == old(sent)
      ensures AssociateOk(a) ==> Sent(io, CMDID_ASSOCIATE_WINDOW_ID, EncAssociateBody(a), code, old(sent), sent)
    {
      var ok, len := AssociateSize(a);
      if !ok {
        return InvalidData;
      }
      var s := SinglePacketNew(io, CMDID_ASSOCIATE_WINDOW_ID, len);
      if s == null {
        return NoMemory;
      }
      s.WriteAssociateBody(a);
      code := PacketSend(io, s, CMDID_ASSOCIATE_WINDOW_ID);
    }
  }

  // The size laws, kind by kind

  /** Capabilities, deletes and associations that pass their checks never outgrow their stream. */
  lemma OthersNeverOverrun(io: Io, c: ServerCaps, d: ServerDelete, p: ServerDeleteProvider, a: ServerAssociate)
    ensures CapsOk(c) ==> Outcome(io, CMDID_CAPS, EncCapsBody(c)).0 != Overrun
    ensures DeleteOk(d) ==> Outcome(io, CMDID_DELETE_APPLIST, EncDeleteBody(d)).0 != Overrun
    ensures DeleteProviderOk(p) ==> Outcome(io, CMDID_DELETE_APPLIST_PROVIDER, EncDeleteProviderBody(p)).0 != Overrun
    ensures AssociateOk(a) ==> Outcome(io, CMDID_ASSOCIATE_WINDOW_ID, EncAssociateBody(a)).0 != Overrun
  {
  }

  /**
   * Only an update can outgrow a UINT32: its second pass stays inside the stream exactly when header, fields and icon
   * together are below 2^32, which a bits length of at most 2^32 - 1 - 2610 guarantees.
   */
  lemma UpdateOverrunExactly(io: Io, u: ServerUpdate)
    requires IconOk(u.icon) && UpdateOk(u) && io.allocOk
    ensures Outcome(io, CMDID_UPDATE_APPLIST, EncUpdateBody(u)).0 == Overrun
            <==> 8 + |EncUpdateFields(u)|
                 + (if Has(u.flags, FIELD_ICON) then 28 + |u.icon.value.bits| else 0) >= U32_RANGE
    ensures |EncUpdateFields(u)| <= 2574
    ensures !Has(u.flags, FIELD_ICON) || |u.icon.value.bits| <= U32_RANGE - 1 - 2610
            ==> Outcome(io, CMDID_UPDATE_APPLIST, EncUpdateBody(u)).0 != Overrun
  {
  }

  /** The pre-pass bound is tight: with every field full, one more byte of icon overruns the stream. */
  lemma UpdateBoundIsTight(io: Io, u: ServerUpdate)
    requires IconOk(u.icon) && UpdateOk(u) && io.allocOk && Has(u.flags, FIELD_ICON)
    requires |EncUpdateFields(u)| == 2574
    ensures Outcome(io, CMDID_UPDATE_APPLIST, EncUpdateBody(u)).0 == Overrun
            <==> |u.icon.value.bits| > U32_RANGE - 1 - 2610
  {
    UpdateOverrunExactly(io, u);
  }

  /**
   * Success does not mean that a packet went: the code is Ok if and only if stream and channel were there for it, while
   * the channel has all of it if and only if it also took that many bytes. What it has of it is its beginning.
   */
  lemma OkIsNotSent(io: Io, cmdId: u32, body: seq<byte>)
    requires 8 + |body| < U32_RANGE
    ensures var (code, bytes) := Outcome(io, cmdId, body);
            && (code == Ok <==> io.allocOk && io.writeOk)
            && (bytes == Packet(cmdId, body) <==> code == Ok && io.taken >= 8 + |body|)
            && bytes <= Packet(cmdId, body)
            && (code == Ok && io.taken < 8 + |body| ==> |bytes| == io.taken)
  {
    hide LE32;
    var packet := Packet(cmdId, body);
    assert packet[..|packet|] == packet && |packet| == 8 + |body|;
  }
}
