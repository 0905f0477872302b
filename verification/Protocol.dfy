/** The RemoteApplicationList PDUs as the server holds them, and their wire layout. */
module Protocol {
  import opened Bytes

  const CMDID_CAPS: u32 := 1
  const CMDID_UPDATE_APPLIST: u32 := 2
  const CMDID_DELETE_APPLIST: u32 := 3
  const CMDID_DELETE_APPLIST_PROVIDER: u32 := 4
  const CMDID_ASSOCIATE_WINDOW_ID: u32 := 5

  const FIELD_ID: u32 := 0x01
  const FIELD_GROUP: u32 := 0x02
  const FIELD_EXECPATH: u32 := 0x04
  const FIELD_DESC: u32 := 0x08
  const FIELD_ICON: u32 := 0x10
  const FIELD_PROVIDER: u32 := 0x20
  const FIELD_WORKINGDIR: u32 := 0x40
  const FIELD_WINDOW_ID: u32 := 0x80
  const HINT_SYNC: u32 := 0x10_0000
  const HINT_SYNC_START: u32 := 0x20_0000
  const HINT_SYNC_END: u32 := 0x40_0000

  const CHANNEL_VERSION: u16 := 4
  const HEADER_SIZE: u32 := 8
  const LANG_SIZE := 32
  const MAX_STRING_SIZE := 512

  /** Tests one flag bit; `mask` is always one of the constants above. */
  predicate Has(flags: u32, mask: u32)
    requires mask > 0
  {
    flags / mask % 2 == 1
  }

  /** A flag is the bit at its place: the mask, with any bits below it and any above. */
  lemma HasIsBit(flags: u32, mask: u32)
    requires mask > 0
    ensures Has(flags, mask) <==> exists above: nat, below: nat :: IsBit(flags, mask, above, below)
  {
    if Has(flags, mask) {
      assert flags == flags / mask * mask + flags % mask;
      assert flags / mask == 2 * (flags / mask / 2) + 1;
      assert IsBit(flags, mask, flags / mask / 2, flags % mask);
    }
    if above: nat, below: nat :| IsBit(flags, mask, above, below) {
      QuotientIs(flags, mask, 2 * above + 1, below);
    }
  }

  predicate IsBit(flags: u32, mask: u32, above: nat, below: nat) {
    below < mask && flags == (2 * above + 1) * mask + below
  }

  lemma QuotientIs(n: nat, d: nat, q: nat, r: nat)
    requires d > 0 && r < d && n == q * d + r
    ensures n / d == q
  {
    var (x, y) := (n / d, n % d);
    assert n == x * d + y;
    TimesKeepsOrder(x + 1, q, d);
    TimesKeepsOrder(q + 1, x, d);
  }

  lemma TimesKeepsOrder(a: nat, b: nat, d: nat)
    ensures a <= b ==> a * d <= b * d
  {
  }

  /** A RAIL_UNICODE_STRING: its length field is a UINT16 count of bytes. */
  type RailString = s: seq<byte> | |s| < 0x1_0000

  datatype ServerIcon = ServerIcon(flags: u32, width: u32, height: u32, stride: u32, bpp: u32, format: u32,
      bits: seq<byte>)

  /** `icon` is the appIcon pointer; a bits buffer always has the length its UINT32 field says. */
  predicate IconOk(icon: Option<ServerIcon>) {
    icon.Some? ==> |icon.value.bits| < U32_RANGE
  }

  datatype ServerCaps = ServerCaps(version: u16, name: RailString, uniqueId: RailString)
  datatype ServerUpdate = ServerUpdate(flags: u32, appId: RailString, appGroup: RailString, execPath: RailString,
                                       workingDir: RailString, desc: RailString, icon: Option<ServerIcon>)
  datatype ServerDelete = ServerDelete(flags: u32, appId: RailString, appGroup: RailString)
  datatype ServerDeleteProvider = ServerDeleteProvider(flags: u32, name: RailString)
  datatype ServerAssociate = ServerAssociate(flags: u32, windowId: u32, appId: RailString, appGroup: RailString,
                                             execPath: RailString, desc: RailString)

  // The layout of a body is a list of fields laid end to end.

  function EncString(s: RailString): seq<byte> {
    LE16(|s|) + s
  }

  function EncField(flags: u32, mask: u32, s: RailString): (b: seq<byte>)
    requires mask > 0
    ensures |b| == if Has(flags, mask) then 2 + |s| else 0
  {
    if Has(flags, mask) then EncString(s) else []
  }

  function EncIcon(i: ServerIcon): (b: seq<byte>)
    requires |i.bits| < U32_RANGE
    ensures |b| == 28 + |i.bits|
  {
    LE32(i.flags) + LE32(i.width) + LE32(i.height) + LE32(i.stride) + LE32(i.bpp) + LE32(i.format)
    + LE32(|i.bits|) + i.bits
  }

  function EncCapsBody(c: ServerCaps): seq<byte> {
    LE16(c.version) + EncString(c.name) + EncString(c.uniqueId)
  }

  function EncUpdateFields(u: ServerUpdate): seq<byte> {
    LE32(u.flags) + EncField(u.flags, FIELD_ID, u.appId) + EncField(u.flags, FIELD_GROUP, u.appGroup)
    + EncField(u.flags, FIELD_EXECPATH, u.execPath) + EncField(u.flags, FIELD_WORKINGDIR, u.workingDir)
    + EncField(u.flags, FIELD_DESC, u.desc)
  }

  function EncUpdateBody(u: ServerUpdate): seq<byte>
    requires IconOk(u.icon) && (Has(u.flags, FIELD_ICON) ==> u.icon.Some?)
  {
    EncUpdateFields(u) + if Has(u.flags, FIELD_ICON) then EncIcon(u.icon.value) else []
  }

  function EncDeleteBody(d: ServerDelete): seq<byte> {
    LE32(d.flags) + EncField(d.flags, FIELD_ID, d.appId) + EncField(d.flags, FIELD_GROUP, d.appGroup)
  }

  function EncDeleteProviderBody(d: ServerDeleteProvider): seq<byte> {
    LE32(d.flags) + EncField(d.flags, FIELD_PROVIDER, d.name)
  }

  function EncAssociateBody(a: ServerAssociate): seq<byte> {
    LE32(a.flags) + LE32(a.windowId) + EncField(a.flags, FIELD_ID, a.appId) + EncField(a.flags, FIELD_GROUP, a.appGroup)
    + EncField(a.flags, FIELD_EXECPATH, a.execPath) + EncField(a.flags, FIELD_DESC, a.desc)
  }

  /** A whole packet: command, total length, body. */
  function Packet(cmdId: u32, body: seq<byte>): seq<byte>
    requires 8 + |body| < U32_RANGE
  {
    LE32(cmdId) + LE32(8 + |body|) + body
  }
}
