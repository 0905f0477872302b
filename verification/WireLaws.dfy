/** What the server's encoders and the client's decoders are to each other. */
module WireLaws {
  import opened Bytes
  import opened Protocol
  import opened ClientRead
  import IconFile
  import ServerSend

  // Strings and optional fields

  /** The client's own bounds: two bytes tighter than the server's, and no empty required string. */
  predicate ClientStringOk(s: RailString, required: bool) {
    |s| + 2 <= MAX_STRING_SIZE && (required ==> s != [])
  }

  predicate ClientFieldOk(flags: u32, mask: u32, s: RailString, required: bool)
    requires mask > 0
  {
    Has(flags, mask) ==> ClientStringOk(s, required)
  }

  /**
   * Where the two bounds part: a field the server lets through is refused by the client if and only if it is longer
   * than 510 bytes, or empty though it may not be.
   */
  lemma BoundsPartExactly(flags: u32, mask: u32, s: RailString, required: bool)
    requires mask > 0
    ensures ServerSend.FieldOk(flags, mask, s) <==> !Has(flags, mask) || |s| <= 512
    ensures ServerSend.FieldOk(flags, mask, s) && !ClientFieldOk(flags, mask, s, required)
            <==> Has(flags, mask) && (511 <= |s| <= 512 || (required && s == []))
  {
  }

  /** A field the flag leaves out arrives empty. */
  function Shown(flags: u32, mask: u32, s: RailString): WireString
    requires mask > 0
  {
    if Has(flags, mask) then Stored(s) else EMPTY
  }

  lemma StringReadsBack(s: RailString, rest: seq<byte>, required: bool)
    ensures ReadString(EncString(s) + rest, required)
            == if ClientStringOk(s, required) then Some((Stored(s), rest)) else None
  {
    hide LE16, ReadU16;
    assert EncString(s) + rest == LE16(|s|) + (s + rest);
    ReadU16Of(|s|, s + rest);
    assert (s + rest)[..|s|] == s && (s + rest)[|s|..] == rest;
  }

  lemma FieldReadsBack(flags: u32, mask: u32, s: RailString, rest: seq<byte>, required: bool)
    requires mask > 0
    ensures ReadField(flags, mask, EncField(flags, mask, s) + rest, required)
            == if ClientFieldOk(flags, mask, s, required) then Some((Shown(flags, mask, s), rest)) else None
  {
    hide Has, EncString, ReadString;
    if Has(flags, mask) {
      StringReadsBack(s, rest, required);
    } else {
      assert [] + rest == rest;
    }
  }

  /** A stored string is the string that was sent exactly when its byte length is even. */
  lemma StoredLossless(s: RailString)
    ensures Stored(s).content == s <==> |s| % 2 == 0
  {
  }

  predicate Even(w: WireString) {
    w.length % 2 == 0
  }

  /**
   * Re-encoding a string that was read gives back the bytes consumed exactly when its length was even; otherwise one
   * byte is lost.
   */
  lemma StringCanonical(b: seq<byte>, required: bool)
    requires ReadString(b, required).Some?
    ensures var (w, rest) := ReadString(b, required).value;
            && |EncString(w.content) + rest| == |b| - w.length % 2
            && (Even(w) ==> EncString(w.content) + rest == b)
  {
    hide LE16, FromLE16;
    var (n, b1) := ReadU16(b).value;
    WroteU16(b);
    if n > 0 {
      var s := b1[..n];
      assert LE16(n) + s + b1[n..] == LE16(n) + (s + b1[n..]);
      assert b1 == s + b1[n..];
      assert Even(Stored(s)) ==> s[..n] == s;
    } else {
      assert LE16(0) + [] + b1 == LE16(0) + b1;
    }
  }

  /**
   * `p` re-encodes what was read so far of `whole` and `b` is what remains; `lost` bytes went with odd strings.
   * Reading one more field keeps that account.
   */
  lemma Extend(whole: seq<byte>, p: seq<byte>, b: seq<byte>, lost: nat, flags: u32, mask: u32, required: bool)
    requires mask > 0 && ReadField(flags, mask, b, required).Some?
    requires |p + b| == |whole| - lost && (lost == 0 ==> p + b == whole)
    ensures var (w, rest) := ReadField(flags, mask, b, required).value;
            var p' := p + EncField(flags, mask, w.content);
            && |p' + rest| == |whole| - lost - w.length % 2
            && (lost + w.length % 2 == 0 ==> p' + rest == whole)
  {
    hide Has, EncString, ReadString;
    var (w, rest) := ReadField(flags, mask, b, required).value;
    if Has(flags, mask) {
      StringCanonical(b, required);
      var e := EncString(w.content);
      assert (p + e) + rest == p + (e + rest);
    } else {
      assert p + [] == p;
    }
  }

  lemma ExtendU32(whole: seq<byte>, p: seq<byte>, b: seq<byte>)
    requires p + b == whole && |b| >= 4
    ensures var (v, rest) := ReadU32(b).value; (p + LE32(v)) + rest == whole
  {
    hide LE32, FromLE32;
    WroteU32(b);
    var (v, rest) := ReadU32(b).value;
    assert (p + LE32(v)) + rest == p + (LE32(v) + rest);
  }

  // Update

  predicate UpdateAcceptable(u: ServerUpdate) {
    && Has(u.flags, FIELD_ID) && Has(u.flags, FIELD_EXECPATH) && Has(u.flags, FIELD_DESC)
    && ClientFieldOk(u.flags, FIELD_ID, u.appId, true) && ClientFieldOk(u.flags, FIELD_GROUP, u.appGroup, false)
    && ClientFieldOk(u.flags, FIELD_EXECPATH, u.execPath, true)
    && ClientFieldOk(u.flags, FIELD_WORKINGDIR, u.workingDir, false) && ClientFieldOk(u.flags, FIELD_DESC, u.desc, true)
  }

  function UpdateView(u: ServerUpdate): UpdatePdu {
    UpdatePdu(u.flags, Shown(u.flags, FIELD_ID, u.appId), Shown(u.flags, FIELD_GROUP, u.appGroup),
              Shown(u.flags, FIELD_EXECPATH, u.execPath), Shown(u.flags, FIELD_WORKINGDIR, u.workingDir),
              Shown(u.flags, FIELD_DESC, u.desc))
  }

  lemma UpdateReadsBack(u: ServerUpdate, rest: seq<byte>)
    ensures DecUpdate(EncUpdateFields(u) + rest)
            == if UpdateAcceptable(u) then Some((UpdateView(u), rest)) else None
  {
    hide Has, LE32, ReadU32, EncField, ReadField, ClientFieldOk, Shown;
    var f := u.flags;
    var t5 := EncField(f, FIELD_DESC, u.desc) + rest;
    var t4 := EncField(f, FIELD_WORKINGDIR, u.workingDir) + t5;
    var t3 := EncField(f, FIELD_EXECPATH, u.execPath) + t4;
    var t2 := EncField(f, FIELD_GROUP, u.appGroup) + t3;
    var t1 := EncField(f, FIELD_ID, u.appId) + t2;
    assert EncUpdateFields(u) + rest == LE32(f) + t1;
    ReadU32Of(f, t1);
    FieldReadsBack(f, FIELD_ID, u.appId, t2, true);
    FieldReadsBack(f, FIELD_GROUP, u.appGroup, t3, false);
    FieldReadsBack(f, FIELD_EXECPATH, u.execPath, t4, true);
    FieldReadsBack(f, FIELD_WORKINGDIR, u.workingDir, t5, false);
    FieldReadsBack(f, FIELD_DESC, u.desc, rest, true);
  }

  /** A field as far as it goes over the wire. */
  function Visible(flags: u32, mask: u32, s: RailString): RailString
    requires mask > 0
  {
    if Has(flags, mask) then s else []
  }

  lemma ShownLossless(flags: u32, mask: u32, s: RailString)
    requires mask > 0
    ensures Shown(flags, mask, s).content == Visible(flags, mask, s) <==> Even(Shown(flags, mask, s))
  {
    hide Has, Stored;
    StoredLossless(s);
    StoredLength(s);
  }

  lemma StoredLength(s: RailString)
    ensures Stored(s).length == |s|
  {
  }

  /**
   * Which updates are read, from the layout: with every string between 1 and 510 bytes long, those whose flags hold
   * the bits 0x1, 0x4 and 0x8, whatever the other bits are.
   */
  lemma UpdateReadExactly(u: ServerUpdate, rest: seq<byte>)
    requires 1 <= |u.appId| <= 510 && |u.appGroup| <= 510 && 1 <= |u.execPath| <= 510
    requires |u.workingDir| <= 510 && 1 <= |u.desc| <= 510
    ensures DecUpdate(EncUpdateFields(u) + rest).Some?
            <==> u.flags % 2 == 1 && u.flags / 4 % 2 == 1 && u.flags / 8 % 2 == 1
  {
    hide EncUpdateFields, DecUpdate, UpdateView;
    UpdateReadsBack(u, rest);
  }

  /** The same for deletes, which ask for bit 0x1. */
  lemma DeleteReadExactly(d: ServerDelete, rest: seq<byte>)
    requires 1 <= |d.appId| <= 510 && |d.appGroup| <= 510
    ensures DecDelete(EncDeleteBody(d) + rest).Some? <==> d.flags % 2 == 1
  {
    hide EncDeleteBody, DecDelete, DeleteView;
    DeleteReadsBack(d, rest);
  }

  /** And for associations, which ask for bits 0x1 and 0x80. */
  lemma AssociateReadExactly(a: ServerAssociate, rest: seq<byte>)
    requires 1 <= |a.appId| <= 510 && |a.appGroup| <= 510 && 1 <= |a.execPath| <= 510 && 1 <= |a.desc| <= 510
    ensures DecAssociate(EncAssociateBody(a) + rest).Some? <==> a.flags % 2 == 1 && a.flags / 0x80 % 2 == 1
  {
    hide EncAssociateBody, DecAssociate, AssociateView;
    AssociateReadsBack(a, rest);
  }

  predicate UpdateEven(p: UpdatePdu) {
    Even(p.appId) && Even(p.appGroup) && Even(p.execPath) && Even(p.workingDir) && Even(p.desc)
  }

  function ResendUpdate(p: UpdatePdu): ServerUpdate {
    ServerUpdate(p.flags, p.appId.content, p.appGroup.content, p.execPath.content, p.workingDir.content,
        p.desc.content, None)
  }

  /** What an update arrives as tells everything that was sent, icon apart, if and only if all its lengths are even. */
  lemma UpdateViewLossless(u: ServerUpdate)
    ensures var f := u.flags;
            ResendUpdate(UpdateView(u))
            == ServerUpdate(f, Visible(f, FIELD_ID, u.appId), Visible(f, FIELD_GROUP, u.appGroup),
                            Visible(f, FIELD_EXECPATH, u.execPath), Visible(f, FIELD_WORKINGDIR, u.workingDir),
                            Visible(f, FIELD_DESC, u.desc), None)
            <==> UpdateEven(UpdateView(u))
  {
    hide Shown, Visible, Even;
    ShownLossless(u.flags, FIELD_ID, u.appId);
    ShownLossless(u.flags, FIELD_GROUP, u.appGroup);
    ShownLossless(u.flags, FIELD_EXECPATH, u.execPath);
    ShownLossless(u.flags, FIELD_WORKINGDIR, u.workingDir);
    ShownLossless(u.flags, FIELD_DESC, u.desc);
  }

  /**
   * For every byte string: an accepted update re-encodes to exactly the bytes it consumed, or some string had an odd
   * length.
   */
  lemma UpdateCanonical(b: seq<byte>)
    requires DecUpdate(b).Some?
    ensures var (p, rest) := DecUpdate(b).value;
            EncUpdateFields(ResendUpdate(p)) + rest == b <==> UpdateEven(p)
  {
    hide Has, LE32, EncField, ReadField;
    var (f, b1) := ReadU32(b).value;
    WroteU32(b);
    var (w1, b2) := ReadField(f, FIELD_ID, b1, true).value;
    var (w2, b3) := ReadField(f, FIELD_GROUP, b2, false).value;
    var (w3, b4) := ReadField(f, FIELD_EXECPATH, b3, true).value;
    var (w4, b5) := ReadField(f, FIELD_WORKINGDIR, b4, false).value;
    var (w5, b6) := ReadField(f, FIELD_DESC, b5, true).value;
    var p1 := LE32(f);
    Extend(b, p1, b1, 0, f, FIELD_ID, true);
    var p2, lost2 := p1 + EncField(f, FIELD_ID, w1.content), w1.length % 2;
    Extend(b, p2, b2, lost2, f, FIELD_GROUP, false);
    var p3, lost3 := p2 + EncField(f, FIELD_GROUP, w2.content), lost2 + w2.length % 2;
    Extend(b, p3, b3, lost3, f, FIELD_EXECPATH, true);
    var p4, lost4 := p3 + EncField(f, FIELD_EXECPATH, w3.content), lost3 + w3.length % 2;
    Extend(b, p4, b4, lost4, f, FIELD_WORKINGDIR, false);
    var p5, lost5 := p4 + EncField(f, FIELD_WORKINGDIR, w4.content), lost4 + w4.length % 2;
    Extend(b, p5, b5, lost5, f, FIELD_DESC, true);
  }

  // Icon data

  predicate IconAcceptable(i: ServerIcon, allocLimit: nat) {
    IconFile.HEADERS_SIZE + |i.bits| < U32_RANGE && IconFile.HEADERS_SIZE + |i.bits| <= allocLimit
  }

  function IconView(i: ServerIcon): IconPdu
    requires IconFile.HEADERS_SIZE + |i.bits| < U32_RANGE
  {
    IconPdu(i.flags, i.width, i.height, i.stride, i.bpp, i.format, |i.bits|,
            IconFile.Container(i.width, i.height, i.bpp, i.bits))
  }

  function EncIconHead(i: IconPdu): seq<byte> {
    LE32(i.flags) + LE32(i.width) + LE32(i.height) + LE32(i.stride) + LE32(i.bpp) + LE32(i.format) + LE32(i.bitsLength)
  }

  lemma IconHeadReadsBack(i: IconPdu, rest: seq<byte>)
    ensures DecIconHead(EncIconHead(i) + rest) == Some((i.(file := []), rest))
  {
    hide LE32, ReadU32;
    var t6 := LE32(i.bitsLength) + rest;
    var t5 := LE32(i.format) + t6;
    var t4 := LE32(i.bpp) + t5;
    var t3 := LE32(i.stride) + t4;
    var t2 := LE32(i.height) + t3;
    var t1 := LE32(i.width) + t2;
    assert EncIconHead(i) + rest == LE32(i.flags) + t1;
    ReadU32Of(i.flags, t1);
    ReadU32Of(i.width, t2);
    ReadU32Of(i.height, t3);
    ReadU32Of(i.stride, t4);
    ReadU32Of(i.bpp, t5);
    ReadU32Of(i.format, t6);
    ReadU32Of(i.bitsLength, rest);
  }

  lemma IconReadsBack(i: ServerIcon, rest: seq<byte>, allocLimit: nat)
    requires |i.bits| < U32_RANGE
    ensures DecIcon(EncIcon(i) + rest, allocLimit)
            == if IconAcceptable(i, allocLimit) then Some((IconView(i), rest)) else None
  {
    hide LE32, DecIconHead, IconFile.Container;
    var head := IconPdu(i.flags, i.width, i.height, i.stride, i.bpp, i.format, |i.bits|, []);
    var t := i.bits + rest;
    assert EncIcon(i) + rest == EncIconHead(head) + t;
    IconHeadReadsBack(head, t);
    assert t[..|i.bits|] == i.bits && t[|i.bits|..] == rest;
  }

  function ResendIcon(p: IconPdu): ServerIcon
    requires |p.file| >= IconFile.HEADERS_SIZE
  {
    ServerIcon(p.flags, p.width, p.height, p.stride, p.bpp, p.format, p.file[IconFile.HEADERS_SIZE..])
  }

  lemma IconBitsKept(width: u32, height: u32, bpp: u32, bits: seq<byte>)
    requires IconFile.HEADERS_SIZE + |bits| < U32_RANGE
    ensures IconFile.Container(width, height, bpp, bits)[IconFile.HEADERS_SIZE..] == bits
  {
    hide IconFile.IcoHeader, IconFile.BitmapHeader;
  }

  /** The seven numbers in front of the icon bits, put back. */
  lemma IconHeadCanonical(b: seq<byte>)
    requires |b| >= 28
    ensures var (h, rest) := DecIconHead(b).value; EncIconHead(h) + rest == b
  {
    hide LE32, FromLE32;
    var (v1, b1) := ReadU32(b).value;
    WroteU32(b);
    var (v2, b2) := ReadU32(b1).value;
    var p2 := LE32(v1) + LE32(v2);
    ExtendU32(b, LE32(v1), b1);
    var (v3, b3) := ReadU32(b2).value;
    var p3 := p2 + LE32(v3);
    ExtendU32(b, p2, b2);
    var (v4, b4) := ReadU32(b3).value;
    var p4 := p3 + LE32(v4);
    ExtendU32(b, p3, b3);
    var (v5, b5) := ReadU32(b4).value;
    var p5 := p4 + LE32(v5);
    ExtendU32(b, p4, b4);
    var (v6, b6) := ReadU32(b5).value;
    ExtendU32(b, p5, b5);
    ExtendU32(b, p5 + LE32(v6), b6);
  }

  /** Accepted icon data keeps every bit: it re-encodes to exactly the bytes consumed. */
  lemma IconCanonical(b: seq<byte>, allocLimit: nat)
    requires DecIcon(b, allocLimit).Some?
    ensures var (p, rest) := DecIcon(b, allocLimit).value;
            && |p.file| == IconFile.HEADERS_SIZE + p.bitsLength <= allocLimit
            && |ResendIcon(p).bits| < U32_RANGE
            && EncIcon(ResendIcon(p)) + rest == b
  {
    hide LE32, DecIconHead, IconFile.Container;
    var (h, b7) := DecIconHead(b).value;
    var bits := b7[..h.bitsLength];
    IconBitsKept(h.width, h.height, h.bpp, bits);
    IconHeadCanonical(b);
    assert b7 == bits + b7[h.bitsLength..];
    assert EncIconHead(h) + bits + b7[h.bitsLength..] == EncIconHead(h) + b7;
  }

  // Delete

  predicate DeleteAcceptable(d: ServerDelete) {
    && Has(d.flags, FIELD_ID)
    && ClientFieldOk(d.flags, FIELD_ID, d.appId, true) && ClientFieldOk(d.flags, FIELD_GROUP, d.appGroup, false)
  }

  function DeleteView(d: ServerDelete): DeletePdu {
    DeletePdu(d.flags, Shown(d.flags, FIELD_ID, d.appId), Shown(d.flags, FIELD_GROUP, d.appGroup))
  }

  lemma DeleteReadsBack(d: ServerDelete, rest: seq<byte>)
    ensures DecDelete(EncDeleteBody(d) + rest)
            == if DeleteAcceptable(d) then Some((DeleteView(d), rest)) else None
  {
    hide Has, LE32, ReadU32, EncField, ReadField, ClientFieldOk, Shown;
    var t2 := EncField(d.flags, FIELD_GROUP, d.appGroup) + rest;
    var t1 := EncField(d.flags, FIELD_ID, d.appId) + t2;
    assert EncDeleteBody(d) + rest == LE32(d.flags) + t1;
    ReadU32Of(d.flags, t1);
    FieldReadsBack(d.flags, FIELD_ID, d.appId, t2, true);
    FieldReadsBack(d.flags, FIELD_GROUP, d.appGroup, rest, false);
  }

  lemma DeleteViewLossless(d: ServerDelete)
    ensures var (f, p) := (d.flags, DeleteView(d));
            ServerDelete(p.flags, p.appId.content, p.appGroup.content)
            == ServerDelete(f, Visible(f, FIELD_ID, d.appId), Visible(f, FIELD_GROUP, d.appGroup))
            <==> Even(p.appId) && Even(p.appGroup)
  {
    hide Shown, Visible, Even;
    ShownLossless(d.flags, FIELD_ID, d.appId);
    ShownLossless(d.flags, FIELD_GROUP, d.appGroup);
  }

  lemma DeleteCanonical(b: seq<byte>)
    requires DecDelete(b).Some?
    ensures var (p, rest) := DecDelete(b).value;
            EncDeleteBody(ServerDelete(p.flags, p.appId.content, p.appGroup.content)) + rest == b
            <==> Even(p.appId) && Even(p.appGroup)
  {
    hide Has, LE32, EncField, ReadField;
    var (f, b1) := ReadU32(b).value;
    WroteU32(b);
    var (w1, b2) := ReadField(f, FIELD_ID, b1, true).value;
    Extend(b, LE32(f), b1, 0, f, FIELD_ID, true);
    Extend(b, LE32(f) + EncField(f, FIELD_ID, w1.content), b2, w1.length % 2, f, FIELD_GROUP, false);
  }

  // Associate window id

  predicate AssociateAcceptable(a: ServerAssociate) {
    && Has(a.flags, FIELD_ID) && Has(a.flags, FIELD_WINDOW_ID)
    && ClientFieldOk(a.flags, FIELD_ID, a.appId, true) && ClientFieldOk(a.flags, FIELD_GROUP, a.appGroup, false)
    && ClientFieldOk(a.flags, FIELD_EXECPATH, a.execPath, true) && ClientFieldOk(a.flags, FIELD_DESC, a.desc, true)
  }

  function AssociateView(a: ServerAssociate): AssociatePdu {
    AssociatePdu(a.flags, a.windowId, Shown(a.flags, FIELD_ID, a.appId), Shown(a.flags, FIELD_GROUP, a.appGroup),
                 Shown(a.flags, FIELD_EXECPATH, a.execPath), Shown(a.flags, FIELD_DESC, a.desc))
  }

  lemma AssociateReadsBack(a: ServerAssociate, rest: seq<byte>)
    ensures DecAssociate(EncAssociateBody(a) + rest)
            == if AssociateAcceptable(a) then Some((AssociateView(a), rest)) else None
  {
    hide Has, LE32, ReadU32, EncField, ReadField, ClientFieldOk, Shown;
    var f := a.flags;
    var t5 := EncField(f, FIELD_DESC, a.desc) + rest;
    var t4 := EncField(f, FIELD_EXECPATH, a.execPath) + t5;
    var t3 := EncField(f, FIELD_GROUP, a.appGroup) + t4;
    var t2 := EncField(f, FIELD_ID, a.appId) + t3;
    var t1 := LE32(a.windowId) + t2;
    assert EncAssociateBody(a) + rest == LE32(f) + t1;
    ReadU32Of(f, t1);
    ReadU32Of(a.windowId, t2);
    FieldReadsBack(f, FIELD_ID, a.appId, t3, true);
    FieldReadsBack(f, FIELD_GROUP, a.appGroup, t4, false);
    FieldReadsBack(f, FIELD_EXECPATH, a.execPath, t5, true);
    FieldReadsBack(f, FIELD_DESC, a.desc, rest, true);
  }

  function ResendAssociate(p: AssociatePdu): ServerAssociate {
    ServerAssociate(p.flags, p.windowId, p.appId.content, p.appGroup.content, p.execPath.content, p.desc.content)
  }

  lemma AssociateViewLossless(a: ServerAssociate)
    ensures var (f, p) := (a.flags, AssociateView(a));
            ResendAssociate(p)
            == ServerAssociate(f, a.windowId, Visible(f, FIELD_ID, a.appId), Visible(f, FIELD_GROUP, a.appGroup),
                               Visible(f, FIELD_EXECPATH, a.execPath), Visible(f, FIELD_DESC, a.desc))
            <==> Even(p.appId) && Even(p.appGroup) && Even(p.execPath) && Even(p.desc)
  {
    hide Shown, Visible, Even;
    ShownLossless(a.flags, FIELD_ID, a.appId);
    ShownLossless(a.flags, FIELD_GROUP, a.appGroup);
    ShownLossless(a.flags, FIELD_EXECPATH, a.execPath);
    ShownLossless(a.flags, FIELD_DESC, a.desc);
  }

  lemma AssociateCanonical(b: seq<byte>)
    requires DecAssociate(b).Some?
    ensures var (p, rest) := DecAssociate(b).value;
            EncAssociateBody(ResendAssociate(p)) + rest == b
            <==> Even(p.appId) && Even(p.appGroup) && Even(p.execPath) && Even(p.desc)
  {
    hide Has, LE32, EncField, ReadField;
    var (f, b0) := ReadU32(b).value;
    WroteU32(b);
    var (id, b1) := ReadU32(b0).value;
    ExtendU32(b, LE32(f), b0);
    var (w1, b2) := ReadField(f, FIELD_ID, b1, true).value;
    var (w2, b3) := ReadField(f, FIELD_GROUP, b2, false).value;
    var (w3, b4) := ReadField(f, FIELD_EXECPATH, b3, true).value;
    var (w4, b5) := ReadField(f, FIELD_DESC, b4, true).value;
    var p1 := LE32(f) + LE32(id);
    Extend(b, p1, b1, 0, f, FIELD_ID, true);
    var p2, lost2 := p1 + EncField(f, FIELD_ID, w1.content), w1.length % 2;
    Extend(b, p2, b2, lost2, f, FIELD_GROUP, false);
    var p3, lost3 := p2 + EncField(f, FIELD_GROUP, w2.content), lost2 + w2.length % 2;
    Extend(b, p3, b3, lost3, f, FIELD_EXECPATH, true);
    var p4, lost4 := p3 + EncField(f, FIELD_EXECPATH, w3.content), lost3 + w3.length % 2;
    Extend(b, p4, b4, lost4, f, FIELD_DESC, true);
  }

  // Capabilities: the server always writes the unique id, the client reads it only from version 4 on

  predicate CapsAcceptable(c: ServerCaps) {
    ClientStringOk(c.name, true) && (c.version >= 4 ==> ClientStringOk(c.uniqueId, true))
  }

  function CapsView(c: ServerCaps): CapsPdu {
    CapsPdu(c.version, Stored(c.name), if c.version >= 4 then Stored(c.uniqueId) else EMPTY)
  }

  /**
   * The two sides agree on where a caps packet ends exactly for version 4 and later; before, the unique id stays
   * unread.
   */
  lemma CapsReadBack(c: ServerCaps, rest: seq<byte>)
    ensures DecCaps(EncCapsBody(c) + rest)
            == if !CapsAcceptable(c) then None
               else Some((CapsView(c), if c.version >= 4 then rest else EncString(c.uniqueId) + rest))
    ensures CapsAcceptable(c) ==> (DecCaps(EncCapsBody(c) + rest).value.1 == rest <==> c.version >= 4)
  {
    hide LE16, ReadU16, ReadString;
    var t2 := EncString(c.uniqueId) + rest;
    var t1 := EncString(c.name) + t2;
    assert EncCapsBody(c) + rest == LE16(c.version) + t1;
    ReadU16Of(c.version, t1);
    StringReadsBack(c.name, t2, true);
    StringReadsBack(c.uniqueId, rest, true);
    assert |t2| > |rest|;
  }

  /**
   * The capabilities a server sends and a client cannot read: a bad name, or from version 4 on a bad id, which it
   * never checks.
   */
  lemma CapsPartExactly(c: ServerCaps)
    ensures ServerSend.CapsOk(c) && !CapsAcceptable(c)
            <==> |c.name| <= 512
                 && (c.name == [] || |c.name| > 510 || (c.version >= 4 && (c.uniqueId == [] || |c.uniqueId| > 510)))
  {
  }

  lemma HeaderReadsBack(cmdId: u32, length: u32, rest: seq<byte>)
    ensures DecHeader(LE32(cmdId) + LE32(length) + rest) == Some(((cmdId, length), rest))
  {
    hide LE32, ReadU32;
    assert LE32(cmdId) + LE32(length) + rest == LE32(cmdId) + (LE32(length) + rest);
    ReadU32Of(cmdId, LE32(length) + rest);
    ReadU32Of(length, rest);
  }
}
