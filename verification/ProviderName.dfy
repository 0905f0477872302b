/** The provider's name in its buffer: when a name copied over an earlier one is seen as it was sent, and when not. */
module ProviderName {
  import opened Bytes
  import opened Protocol
  import opened ClientRead
  import opened Paths
  import opened Client
  import opened SessionLaws
  import WireLaws

  /** A string as a read leaves it: at most 510 bytes, and the content without the byte an odd length loses. */
  predicate AsRead(name: WireString) {
    && name.length + 2 <= MAX_STRING_SIZE
    && |name.content| == name.length - name.length % 2
  }

  /** Reads leave strings of that shape. */
  lemma ReadsAsRead(b: seq<byte>, required: bool)
    ensures ReadString(b, required).Some? ==> AsRead(ReadString(b, required).value.0)
  {
    hide FromLE16;
  }

  /** So does the decoder of capabilities, for any bytes; from version 4 on the unique id it accepts is not empty. */
  lemma DecodedIsAsRead(b: seq<byte>)
    requires DecCaps(b).Some?
    ensures var p := DecCaps(b).value.0; AsRead(p.name) && (p.version >= 4 ==> p.uniqueId.length > 0)
  {
    hide ReadU16, FromLE16;
    var (version, b1) := ReadU16(b).value;
    var (name, b2) := ReadString(b1, true).value;
    ReadsAsRead(b1, true);
    if version >= 4 {
      RequiredIsThere(b2);
    }
  }

  lemma RequiredIsThere(b: seq<byte>)
    ensures ReadString(b, true).Some? ==> ReadString(b, true).value.0.length > 0
  {
    hide FromLE16;
  }

  /** No character of the name is a terminator. */
  predicate NoNul(b: seq<byte>)
    decreases |b|
  {
    |b| >= 2 ==> FromLE16(b[..2]) != 0 && NoNul(b[2..])
  }

  lemma {:induction false} CStrEndsAt(front: seq<byte>, back: seq<byte>)
    requires |front| % 2 == 0 && NoNul(front)
    ensures CStr(front + back) == CStr(front) + CStr(back)
    decreases |front|
  {
    hide FromLE16;
    var all := front + back;
    if front == [] {
      assert all == back;
    } else {
      assert all[..2] == front[..2] && all[2..] == front[2..] + back;
      CStrEndsAt(front[2..], back);
    }
  }

  /** A name with a terminator inside ends there, whatever stands behind it. */
  lemma {:induction false} CStrEndsInside(front: seq<byte>, back: seq<byte>)
    requires |front| % 2 == 0 && !NoNul(front)
    ensures CStr(front + back) == CStr(front)
    decreases |front|
  {
    hide FromLE16;
    var all := front + back;
    assert all[..2] == front[..2] && all[2..] == front[2..] + back;
    if FromLE16(front[..2]) != 0 {
      CStrEndsInside(front[2..], back);
    }
  }

  /**
   * What the buffer is taken for after a copy: exactly the name, if and only if the name holds a terminator itself or
   * one stands behind it. An odd length brings the lower half of one along, so only the upper half has to be there.
   */
  lemma ShownExactly(buffer: seq<byte>, name: WireString)
    requires AsRead(name) && |name.content| + 2 <= |buffer|
    ensures var (shown, t) := (CStr(Overlay(buffer, name)), |name.content|);
            shown == CStr(name.content)
            <==> !NoNul(name.content) || (buffer[t + 1] == 0 && (name.length % 2 == 1 || buffer[t] == 0))
  {
    var t := |name.content|;
    var all := Overlay(buffer, name);
    var back := all[t..];
    assert all == name.content + back;
    if NoNul(name.content) {
      CStrEndsAt(name.content, back);
      assert CStr(name.content) + CStr(back) == CStr(name.content) <==> CStr(back) == [] by {
        assert |CStr(name.content) + CStr(back)| == |CStr(name.content)| + |CStr(back)|;
      }
      assert back[1] == buffer[t + 1] && back[0] == if name.length % 2 == 1 then 0 else buffer[t];
      ZeroWord(back[..2]);
    } else {
      CStrEndsInside(name.content, back);
    }
  }

  lemma ZeroWord(b: seq<byte>)
    requires |b| == 2
    ensures FromLE16(b) == 0 <==> b[0] == 0 && b[1] == 0
  {
  }

  // Over messages

  /** Capabilities store their name in the buffer whether or not anything else about them is accepted. */
  lemma CapsStoresName(host: Host, c: Client, p: CapsPdu)
    ensures OnCaps(host, c, p).0.provider == Overlay(c.provider, p.name)
    ensures OnCaps(host, c, p).0.db == c.db && OnCaps(host, c, p).0.closed == c.closed
  {
    hide Overlay, ProviderOk, Text, CStr, Locate;
    var c0 := c.(version := p.version, provider := Overlay(c.provider, p.name));
    LocateKeepsName(host, c0);
    if Text(p.uniqueId) in host.guids {
      LocateKeepsName(host, c0.(guid := host.guids[Text(p.uniqueId)]));
    }
  }

  lemma LocateKeepsName(host: Host, c: Client)
    ensures var c' := Locate(host, c).0; c'.provider == c.provider && c'.db == c.db && c'.closed == c.closed
  {
    hide CStr, BuildMenuPath, BuildIconPath;
  }

  /** So for any capabilities in any state: the name is seen as sent exactly under the condition above. */
  lemma NameAfterCaps(host: Host, c: Client, p: CapsPdu)
    requires !c.closed && c.db.Some? && |c.provider| == PROVIDER_SIZE && AsRead(p.name)
    ensures var (c', t) := (Step(host, c, Message(CapsMsg(p))), |p.name.content|);
            && |c'.provider| == PROVIDER_SIZE
            && (CStr(c'.provider) == CStr(p.name.content)
                <==> !NoNul(p.name.content)
                     || (c.provider[t + 1] == 0 && (p.name.length % 2 == 1 || c.provider[t] == 0)))
  {
    hide OnCaps, CStr, NoNul;
    CapsStoresName(host, c, p);
    ShownExactly(c.provider, p.name);
  }

  /** And so for any bytes that are read as capabilities. */
  lemma NameAfterBytes(host: Host, c: Client, b: seq<byte>)
    requires !c.closed && c.db.Some? && |c.provider| == PROVIDER_SIZE && DecCaps(b).Some?
    ensures var p := DecCaps(b).value.0;
            var (c', t) := (Step(host, c, Message(CapsMsg(p))), |p.name.content|);
            && t + 2 <= |c.provider| == |c'.provider|
            && (CStr(c'.provider) == CStr(p.name.content)
                <==> !NoNul(p.name.content)
                     || (c.provider[t + 1] == 0 && (p.name.length % 2 == 1 || c.provider[t] == 0)))
  {
    hide DecCaps, Step, CStr, NoNul;
    DecodedIsAsRead(b);
    NameAfterCaps(host, c, DecCaps(b).value.0);
  }

  lemma TwoCaps(host: Host, c: Client, p1: CapsPdu, p2: CapsPdu)
    requires !c.closed && c.db.Some?
    ensures Run(host, c, [Message(CapsMsg(p1)), Message(CapsMsg(p2))]).provider
        == Overlay(Overlay(c.provider, p1.name), p2.name)
  {
    hide OnCaps, Overlay;
    var (e1, e2) := (Message(CapsMsg(p1)), Message(CapsMsg(p2)));
    CapsStoresName(host, c, p1);
    var c1 := OnCaps(host, c, p1).0;
    CapsStoresName(host, c1, p2);
    assert [e1, e2][1..] == [e2];
    assert Step(host, c, e1) == c1;
    assert Run(host, c1, [e2]) == Step(host, c1, e2);
  }

  /** The bytes of an empty buffer after one copy. */
  lemma AfterFirst(name: WireString, i: nat)
    requires AsRead(name) && i < PROVIDER_SIZE
    ensures var b := Overlay(seq(PROVIDER_SIZE, _ => 0), name);
            |b| == PROVIDER_SIZE && b[i] == if i < |name.content| then name.content[i] else 0
  {
  }

  /** A character of a name without terminators is not all zero. */
  lemma {:induction false} NoNulAt(b: seq<byte>, t: nat)
    requires NoNul(b) && t % 2 == 0 && t + 2 <= |b|
    ensures b[t] != 0 || b[t + 1] != 0
    decreases |b|
  {
    if t == 0 {
      ZeroWord(b[..2]);
    } else {
      NoNulAt(b[2..], t - 2);
    }
  }

  /**
   * Two names sent one after the other to a fresh client: the second is seen as it was sent if and only if it is at
   * least as long as the first, or has an odd length and covers a character of the first that is a single byte. In
   * all other cases the tail of the first name is taken for part of the second.
   */
  lemma SecondNameExactly(host: Host, c: Client, p1: CapsPdu, p2: CapsPdu)
    requires !c.closed && c.db.Some? && c.provider == seq(PROVIDER_SIZE, _ => 0)
    requires AsRead(p1.name) && AsRead(p2.name) && NoNul(p1.name.content) && NoNul(p2.name.content)
    ensures var c' := Run(host, c, [Message(CapsMsg(p1)), Message(CapsMsg(p2))]);
            var (n1, n2, t) := (p1.name.content, p2.name.content, |p2.name.content|);
            CStr(c'.provider) == CStr(n2) <==> |n1| <= t || (p2.name.length % 2 == 1 && n1[t + 1] == 0)
  {
    hide Overlay, CStr, NoNul, Run;
    TwoCaps(host, c, p1, p2);
    var (n1, t) := (p1.name.content, |p2.name.content|);
    var buffer := Overlay(c.provider, p1.name);
    AfterFirst(p1.name, t);
    AfterFirst(p1.name, t + 1);
    ShownExactly(buffer, p2.name);
    if t < |n1| {
      NoNulAt(n1, t);
    }
  }

  /**
   * The failing input: of two capability packets, each read to its end, the first names "ab" and the second "a". The
   * second is taken for "ab".
   */
  lemma ShorterNameIsMissed(host: Host, c: Client, id: RailString)
    requires !c.closed && c.db.Some? && c.provider == seq(PROVIDER_SIZE, _ => 0)
    requires WireLaws.ClientStringOk(id, true)
    ensures var (ab, a) := (ServerCaps(4, [97, 0, 98, 0], id), ServerCaps(4, [97, 0], id));
            var (p1, p2) := (WireLaws.CapsView(ab), WireLaws.CapsView(a));
            && DecCaps(EncCapsBody(ab)) == Some((p1, [])) && DecCaps(EncCapsBody(a)) == Some((p2, []))
            && CStr(p2.name.content) == [97]
            && CStr(Run(host, c, [Message(CapsMsg(p1)), Message(CapsMsg(p2))]).provider) == [97, 98]
  {
    hide Run, OnCaps, DecCaps, EncCapsBody;
    var (ab, a) := (ServerCaps(4, [97, 0, 98, 0], id), ServerCaps(4, [97, 0], id));
    WireLaws.CapsReadBack(ab, []);
    WireLaws.CapsReadBack(a, []);
    assert EncCapsBody(ab) + [] == EncCapsBody(ab) && EncCapsBody(a) + [] == EncCapsBody(a);
    var (p1, p2) := (WireLaws.CapsView(ab), WireLaws.CapsView(a));
    TwoCaps(host, c, p1, p2);
    ShorterLeavesTail(c.provider, p1.name, p2.name);
  }

  lemma ShorterLeavesTail(zeros: seq<byte>, ab: WireString, a: WireString)
    requires zeros == seq(PROVIDER_SIZE, _ => 0) && ab == Stored([97, 0, 98, 0]) && a == Stored([97, 0])
    ensures CStr(a.content) == [97] && CStr(Overlay(Overlay(zeros, ab), a)) == [97, 98]
  {
    var (name1: seq<byte>, name2: seq<byte>) := ([97, 0, 98, 0], [97, 0]);
    assert name1[..4] == name1 && name2[..2] == name2 && name1[2..] == [98, 0];
    assert ab.content == name1 && a.content == name2;
    var once := Overlay(zeros, ab);
    assert once == name1 + zeros[4..];
    var all := Overlay(once, a);
    assert all == name2 + once[2..];
    assert all == name1 + zeros[4..];
    assert FromLE16([97, 0]) == 97 && FromLE16([98, 0]) == 98 && FromLE16([0, 0]) == 0;
    assert NoNul(name1) && CStr(name1) == [97, 98];
    CStrEndsAt(name1, zeros[4..]);
    assert zeros[4..][..2] == [0, 0];
    assert CStr(name2) == [97];
  }
}
