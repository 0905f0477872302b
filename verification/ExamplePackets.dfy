/** Packets as they are on the wire, byte by byte. */
module ExamplePackets {
  import opened Bytes
  import opened Protocol
  import ServerLoop
  import FontEvents
  import FontMonitor

  // "a" to "e" as WCHARs
  const A: RailString := [97, 0]
  const B: RailString := [98, 0]
  const C: RailString := [99, 0]
  const D: RailString := [100, 0]
  const E: RailString := [101, 0]

  function Word(n: byte): seq<byte> {
    [n, 0, 0, 0]
  }

  lemma SmallNumbers(n: byte)
    ensures LE32(n) == Word(n) && LE16(n) == [n, 0]
  {
  }

  lemma StringBytes(flags: u32, mask: u32, c: byte)
    requires mask > 0 && Has(flags, mask)
    ensures EncField(flags, mask, [c, 0]) == [2, 0, c, 0]
  {
    SmallNumbers(2);
  }

  lemma CapsBytes()
    ensures EncCapsBody(ServerCaps(4, A, B)) == [4, 0] + [2, 0, 97, 0] + [2, 0, 98, 0]
    ensures Packet(1, EncCapsBody(ServerCaps(4, A, B))) == Word(1) + Word(18) + EncCapsBody(ServerCaps(4, A, B))
  {
    hide LE32, LE16;
    SmallNumbers(1);
    SmallNumbers(2);
    SmallNumbers(4);
    SmallNumbers(18);
  }

  /** Every field there: id, group, program, directory, description, and only then the icon. */
  lemma UpdateBytes()
    ensures var icon := ServerIcon(1, 2, 3, 4, 5, 6, [7]);
            EncUpdateBody(ServerUpdate(0x5F, A, B, C, D, E, Some(icon)))
            == Word(0x5F) + [2, 0, 97, 0] + [2, 0, 98, 0] + [2, 0, 99, 0] + [2, 0, 100, 0] + [2, 0, 101, 0]
               + (Word(1) + Word(2) + Word(3) + Word(4) + Word(5) + Word(6) + Word(1) + [7])
  {
    hide LE32, EncField, Word;
    SmallNumbers(0x5F);
    StringBytes(0x5F, FIELD_ID, 97);
    StringBytes(0x5F, FIELD_GROUP, 98);
    StringBytes(0x5F, FIELD_EXECPATH, 99);
    StringBytes(0x5F, FIELD_WORKINGDIR, 100);
    StringBytes(0x5F, FIELD_DESC, 101);
    IconBytes();
  }

  lemma IconBytes()
    ensures EncIcon(ServerIcon(1, 2, 3, 4, 5, 6, [7]))
            == Word(1) + Word(2) + Word(3) + Word(4) + Word(5) + Word(6) + Word(1) + [7]
  {
    hide LE32, Word;
    SmallNumbers(1);
    SmallNumbers(2);
    SmallNumbers(3);
    SmallNumbers(4);
    SmallNumbers(5);
    SmallNumbers(6);
  }

  lemma OtherBytes()
    ensures EncDeleteBody(ServerDelete(3, A, B)) == Word(3) + [2, 0, 97, 0] + [2, 0, 98, 0]
    ensures EncDeleteProviderBody(ServerDeleteProvider(0x20, A)) == Word(0x20) + [2, 0, 97, 0]
    ensures EncAssociateBody(ServerAssociate(0x8F, 7, A, B, C, D))
            == Word(0x8F) + Word(7) + [2, 0, 97, 0] + [2, 0, 98, 0] + [2, 0, 99, 0] + [2, 0, 100, 0]
  {
    hide LE32, EncField, Word;
    SmallNumbers(3);
    SmallNumbers(7);
    SmallNumbers(0x20);
    SmallNumbers(0x8F);
    StringBytes(3, FIELD_ID, 97);
    StringBytes(3, FIELD_GROUP, 98);
    StringBytes(0x20, FIELD_PROVIDER, 97);
    StringBytes(0x8F, FIELD_ID, 97);
    StringBytes(0x8F, FIELD_GROUP, 98);
    StringBytes(0x8F, FIELD_EXECPATH, 99);
    StringBytes(0x8F, FIELD_DESC, 100);
  }

  lemma ReplyBytes(lang: ServerLoop.Lang)
    ensures ServerLoop.Reply(ServerLoop.ClientCaps(4, lang)) == Word(1) + Word(42) + [4, 0] + lang
  {
    hide LE32, LE16, Word;
    SmallNumbers(1);
    SmallNumbers(42);
    SmallNumbers(4);
    assert Word(1) + Word(42) + ([4, 0] + lang) == Word(1) + Word(42) + [4, 0] + lang;
  }

  /** A directory "d" that was made, as inotify reports it on descriptor 1: descriptor, bits, cookie, length, name. */
  lemma EventBytes()
    ensures FontEvents.ReadEvent(Word(1) + [0, 1, 0, 0x40] + Word(9) + Word(4) + [100, 0, 0, 0])
            == Some((FontEvents.Event(1, 0x4000_0100, 9, [100, 0, 0, 0]), []))
  {
    hide LE32, FromLE32, Word, FontEvents.ReadEvent;
    var name: seq<byte> := [100, 0, 0, 0];
    var e := FontEvents.Event(1, 0x4000_0100, 9, name);
    SmallNumbers(1);
    SmallNumbers(4);
    SmallNumbers(9);
    CreatedBits();
    FontEvents.EventReadsBack(e, []);
    assert FontEvents.Layout(e) + [] == Word(1) + [0, 1, 0, 0x40] + Word(9) + Word(4) + name;
  }

  lemma CreatedBits()
    ensures LE32(0x4000_0100) == [0, 1, 0, 0x40] && FontEvents.Has(0x4000_0100, FontEvents.IN_ISDIR)
  {
  }

  lemma EventCall()
    ensures FontEvents.CallOf(FontEvents.Event(1, 0x4000_0100, 9, [100, 0, 0, 0]))
            == Some(FontEvents.FolderCall(1, FontMonitor.Created, "d"))
  {
    hide FontEvents.CName, FontEvents.KindOf;
    FontEvents.KindsOfMasks();
    CreatedBits();
    FontEvents.NameReadsBack("d", 3);
    assert FontEvents.Padded("d", 3) == [100, 0, 0, 0];
  }
}
