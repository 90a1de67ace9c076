/** SSH_MSG_KEXINIT (section 7.1 of RFC 4253): what each side builds and what it demands of the other. */
module KexInit {
  import opened Octets
  import opened Wrappers
  import opened Wire
  import opened NameList
  import UserAuth

  const MSG_KEXINIT: byte := 20
  const COOKIE_LEN := 16
  const PAYLOAD_MAX := 1024

  // The names, as both sides write them.

  function Curve25519(): (b: Bytes)
    ensures |b| == 17
  {
    Ascii("curve25519-sha256")
  }

  function Aes128(): (b: Bytes)
    ensures |b| == 10
  {
    Ascii("aes128-ctr")
  }

  function HmacSha256(): (b: Bytes)
    ensures |b| == 13
  {
    Ascii("hmac-sha2-256")
  }

  function NoCompression(): (b: Bytes)
    ensures |b| == 4
  {
    Ascii("none")
  }

  function OtherKex(): (b: Bytes)
    ensures |b| == 29
  {
    Ascii("diffie-hellman-group14-sha256")
  }

  function OtherKeys(): (b: Bytes)
    ensures |b| == 20
  {
    Ascii("rsa-sha2-256,ssh-rsa")
  }

  function OtherCiphers(): (b: Bytes)
    ensures |b| == 40
  {
    Ascii("aes256-ctr,chacha20-poly1305@openssh.com")
  }

  function OtherMac(): (b: Bytes)
    ensures |b| == 9
  {
    Ascii("hmac-sha1")
  }

  /** The algorithms both sides insist on, in the order of the first eight lists. */
  function Required(): (r: seq<Field>)
    ensures |r| == 8 && forall l :: l in r ==> |l| <= 18
  {
    [Curve25519(), UserAuth.Ed25519(), Aes128(), Aes128(), HmacSha256(), HmacSha256(), NoCompression(), NoCompression()]
  }

  /** What the client offers behind each of those names. */
  function ClientMore(): (r: seq<Field>)
    ensures |r| == 8 && forall l :: l in r ==> |l| <= 40
  {
    [OtherKex(), OtherKeys(), OtherCiphers(), OtherCiphers(), OtherMac(), OtherMac(), [], []]
  }

  /** A name, followed by more names if there are any. */
  function Listed(name: Bytes, more: Bytes): Bytes {
    if more == [] then name else name + [COMMA] + more
  }

  function ClientList(i: nat): (l: Field)
    requires i < 8
    ensures |l| <= 59
  {
    assert Required()[i] in Required() && ClientMore()[i] in ClientMore();
    Listed(Required()[i], ClientMore()[i])
  }

  /** The client's ten lists: five kinds of algorithm, and two empty language lists. */
  function ClientLists(): (r: seq<Field>)
    ensures |r| == 10 && forall l :: l in r ==> |l| <= 59
    ensures forall i :: 0 <= i < 8 ==> r[i] == ClientList(i)
  {
    seq(8, i requires 0 <= i < 8 => ClientList(i)) + [[], []]
  }

  function ServerLists(): (r: seq<Field>)
    ensures |r| == 10 && forall l :: l in r ==> |l| <= 59
  {
    Required() + [[], []]
  }

  function Fields(lists: seq<Field>): Bytes {
    if lists == [] then [] else Str(lists[0]) + Fields(lists[1..])
  }

  lemma {:induction false} FieldsSnoc(lists: seq<Field>, l: Field)
    ensures Fields(lists + [l]) == Fields(lists) + Str(l)
  {
    if lists == [] {
      assert [l][1..] == [] && lists + [l] == [l];
    } else {
      FieldsSnoc(lists[1..], l);
      assert (lists + [l])[1..] == lists[1..] + [l];
      assert Str(lists[0]) + (Fields(lists[1..]) + Str(l)) == Str(lists[0]) + Fields(lists[1..]) + Str(l);
    }
  }

  /** Message number, cookie, ten lists, first_kex_packet_follows and the reserved word. */
  function Payload(cookie: Bytes, lists: seq<Field>): Bytes
  {
    [MSG_KEXINIT] + cookie + Fields(lists) + [0] + U32(0)
  }

  // ----- parsing and validation -----

  /** Reads a list for each demanded name and finds the name in it; gives the offset behind the last list. */
  function CheckFields(p: Bytes, off: nat, demands: seq<Field>): (next: Option<nat>)
    decreases |demands|
  {
    if demands == [] then Some(off)
    else
      match ReadString(p, off)
      case None => None
      case Some(v) => if demands[0] in Split(v.data) then CheckFields(p, v.next, demands[1..]) else None
  }

  predicate Begins(p: Bytes) {
    |p| >= 1 + COOKIE_LEN && p[0] == MSG_KEXINIT
  }

  predicate FirstEight(p: Bytes, demands: seq<Field>) {
    Begins(p) && CheckFields(p, 1 + COOKIE_LEN, demands).Some?
  }

  predicate FirstEightOfTen(p: Bytes, demands: seq<Field>) {
    && Begins(p)
    && var off := CheckFields(p, 1 + COOKIE_LEN, demands);
    && off.Some?
    && var v := ReadString(p, off.value);
    && v.Some?
    && ReadString(p, v.value.next).Some?
  }

  /** The client's check of a server KEXINIT: the first eight lists. */
  predicate ClientAccepts(p: Bytes) {
    FirstEight(p, Required())
  }

  /** The server's check of a client KEXINIT: the same, and two more lists must be there to read. */
  predicate ServerAccepts(p: Bytes) {
    FirstEightOfTen(p, Required())
  }

  function ReadFields(p: Bytes, off: nat, n: nat): Option<seq<Bytes>>
    decreases n
  {
    if n == 0 then Some([])
    else
      match ReadString(p, off)
      case None => None
      case Some(v) =>
        match ReadFields(p, v.next, n - 1)
        case None => None
        case Some(rest) => Some([v.data] + rest)
  }

  /** Each list offers what is demanded at its place. */
  predicate Offers(lists: seq<Field>, demands: seq<Field>)
    requires |demands| <= |lists|
  {
    demands == [] || (demands[0] in Split(lists[0]) && Offers(lists[1..], demands[1..]))
  }

  lemma {:induction false} OffersMeans(lists: seq<Field>, demands: seq<Field>)
    requires |demands| <= |lists|
    ensures Offers(lists, demands) <==> forall i :: 0 <= i < |demands| ==> demands[i] in Split(lists[i])
  {
    if demands != [] {
      var a, b := lists[1..], demands[1..];
      OffersMeans(a, b);
      if forall i :: 0 <= i < |demands| ==> demands[i] in Split(lists[i]) {
        forall i | 0 <= i < |b|
          ensures b[i] in Split(a[i])
        {
          assert demands[i + 1] in Split(lists[i + 1]);
        }
      }
      if Offers(lists, demands) {
        forall i | 0 <= i < |demands|
          ensures demands[i] in Split(lists[i])
        {
          if i > 0 {
            assert b[i - 1] in Split(a[i - 1]);
          }
        }
      }
    }
  }

  /** From the offset on, the packet holds these lists and then the tail. */
  ghost predicate Holds(p: Bytes, off: nat, lists: seq<Field>, tail: Bytes) {
    off <= |p| && p[off..] == Fields(lists) + tail
  }

  lemma {:induction false} FirstField(p: Bytes, off: nat, lists: seq<Field>, tail: Bytes)
    requires lists != [] && Holds(p, off, lists, tail)
    ensures ReadString(p, off) == Some(View(lists[0], off + 4 + |lists[0]|))
    ensures Holds(p, off + 4 + |lists[0]|, lists[1..], tail)
  {
    assert p[off..] == Str(lists[0]) + (Fields(lists[1..]) + tail);
    ReadStringFrom(p, off, lists[0], Fields(lists[1..]) + tail);
  }

  lemma {:induction false} CheckFirst(p: Bytes, off: nat, v: View, demands: seq<Field>)
    requires demands != [] && ReadString(p, off) == Some(v)
    ensures CheckFields(p, off, demands)
         == if demands[0] in Split(v.data) then CheckFields(p, v.next, demands[1..]) else None
  {
  }

  lemma {:induction false} CheckFieldsOf(p: Bytes, off: nat, lists: seq<Field>, tail: Bytes, demands: seq<Field>)
    requires Holds(p, off, lists, tail) && |demands| <= |lists|
    ensures if Offers(lists, demands)
      then CheckFields(p, off, demands).Some?
        && Holds(p, CheckFields(p, off, demands).value, lists[|demands|..], tail)
      else CheckFields(p, off, demands).None?
    decreases |demands|
  {
    if demands == [] {
      assert lists[0..] == lists;
    } else {
      var v := View(lists[0], off + 4 + |lists[0]|);
      FirstField(p, off, lists, tail);
      CheckFirst(p, off, v, demands);
      CheckFieldsOf(p, v.next, lists[1..], tail, demands[1..]);
      assert lists[1..][|demands| - 1..] == lists[|demands|..];
    }
  }

  lemma {:induction false} ReadFirst(p: Bytes, off: nat, v: View, n: nat)
    requires n > 0 && ReadString(p, off) == Some(v)
    ensures var rest := ReadFields(p, v.next, n - 1);
      ReadFields(p, off, n) == if rest.Some? then Some([v.data] + rest.value) else None
  {
  }

  lemma {:induction false} ReadFieldsOf(p: Bytes, off: nat, lists: seq<Field>, tail: Bytes)
    requires Holds(p, off, lists, tail)
    ensures ReadFields(p, off, |lists|) == Some(lists)
    decreases |lists|
  {
    if lists != [] {
      var v := View(lists[0], off + 4 + |lists[0]|);
      FirstField(p, off, lists, tail);
      ReadFirst(p, off, v, |lists|);
      ReadFieldsOf(p, v.next, lists[1..], tail);
      assert lists == [lists[0]] + lists[1..];
    }
  }

  /** For any cookie and any lists: the payload parses back to its lists. */
  lemma {:induction false} PayloadParses(cookie: Bytes, lists: seq<Field>)
    requires |cookie| == COOKIE_LEN
    ensures ReadFields(Payload(cookie, lists), 1 + COOKIE_LEN, |lists|) == Some(lists)
  {
    hide ReadFields, U32, ToBytes;
    var p := Payload(cookie, lists);
    assert p[17..] == Fields(lists) + ([0] + U32(0));
    ReadFieldsOf(p, 17, lists, [0] + U32(0));
  }

  /** For any cookie, ten lists and eight demands: both checks pass exactly when every demand is on its list. */
  lemma {:induction false} AcceptedIff(cookie: Bytes, lists: seq<Field>, demands: seq<Field>)
    requires |cookie| == COOKIE_LEN && |lists| == 10 && |demands| == 8
    ensures FirstEight(Payload(cookie, lists), demands) <==> Offers(lists, demands)
    ensures FirstEightOfTen(Payload(cookie, lists), demands) <==> Offers(lists, demands)
  {
    hide Str, U32, CheckFields, Offers, ReadString;
    var p, tail := Payload(cookie, lists), [0] + U32(0);
    assert p[17..] == Fields(lists) + tail;
    CheckFieldsOf(p, 17, lists, tail, demands);
    if Offers(lists, demands) {
      TwoMore(p, CheckFields(p, 17, demands).value, lists[8..], tail);
    }
  }

  lemma {:induction false} TwoMore(p: Bytes, off: nat, lists: seq<Field>, tail: Bytes)
    requires |lists| == 2 && Holds(p, off, lists, tail)
    ensures ReadString(p, off).Some? && ReadString(p, ReadString(p, off).value.next).Some?
  {
    FirstField(p, off, lists, tail);
    FirstField(p, off + 4 + |lists[0]|, lists[1..], tail);
  }

  // ----- the lists this code offers -----

  /** A name is on every list it begins. */
  lemma {:induction false} FirstName(name: Bytes, more: Bytes)
    requires COMMA !in name
    ensures name in Split(Listed(name, more))
  {
    FirstCommaOf(name, more);
    assert more != [] ==> Listed(name, more)[..|name|] == name;
  }

  lemma PlainName(s: string)
    requires forall c | c in s :: c != ',' && c as int < 256
    ensures COMMA !in Ascii(s)
  {
    forall i | 0 <= i < |s|
      ensures Ascii(s)[i] != COMMA
    {
      assert s[i] in s;
    }
  }

  lemma NamesFreeOfCommas()
    ensures COMMA !in Curve25519() && COMMA !in UserAuth.Ed25519() && COMMA !in Aes128()
    ensures COMMA !in HmacSha256() && COMMA !in NoCompression()
  {
    hide Ascii;
    PlainName("curve25519-sha256");
    PlainName("ssh-ed25519");
    PlainName("aes128-ctr");
    PlainName("hmac-sha2-256");
    PlainName("none");
  }

  lemma RequiredFreeOfCommas()
    ensures forall i | 0 <= i < 8 :: COMMA !in Required()[i]
  {
    hide Curve25519, UserAuth.Ed25519, Aes128, HmacSha256, NoCompression;
    NamesFreeOfCommas();
  }

  /** Whatever cookies are drawn, the two sides accept each other's KEXINIT. */
  lemma {:induction false} BothSidesAccept(cookie: Bytes)
    requires |cookie| == COOKIE_LEN
    ensures ServerAccepts(Payload(cookie, ClientLists()))
    ensures ClientAccepts(Payload(cookie, ServerLists()))
  {
    ClientOffers();
    ServerOffers();
    AcceptedIff(cookie, ServerLists(), Required());
    AcceptedIff(cookie, ClientLists(), Required());
  }

  lemma {:induction false} ServerOffers()
    ensures Offers(ServerLists(), Required())
  {
    RequiredFreeOfCommas();
    forall i | 0 <= i < 8
      ensures Required()[i] in Split(ServerLists()[i])
    {
      FirstName(Required()[i], []);
    }
    OffersMeans(ServerLists(), Required());
  }

  lemma {:induction false} ClientOffers()
    ensures Offers(ClientLists(), Required())
  {
    RequiredFreeOfCommas();
    forall i | 0 <= i < 8
      ensures Required()[i] in Split(ClientLists()[i])
    {
      FirstName(Required()[i], ClientMore()[i]);
    }
    OffersMeans(ClientLists(), Required());
  }

  lemma {:induction false} FieldsLength(lists: seq<Field>)
    requires forall l :: l in lists ==> |l| <= 59
    ensures |Fields(lists)| <= 63 * |lists|
  {
    if lists != [] {
      FieldsLength(lists[1..]);
    }
  }

  // ----- any packet, and the bytes of both payloads -----

  lemma {:induction false} CheckFieldsMeans(p: Bytes, off: nat, demands: seq<Field>) returns (lists: seq<Field>, tail: Bytes)
    requires off <= |p| <= 0x1000_0000 && CheckFields(p, off, demands).Some?
    ensures |lists| == |demands| && Holds(p, off, lists, tail) && Offers(lists, demands)
    ensures var next := CheckFields(p, off, demands).value; next <= |p| && tail == p[next..]
    decreases |demands|
  {
    hide Str, Split, ReadString;
    if demands == [] {
      lists, tail := [], p[off..];
      assert [] + tail == tail;
    } else {
      var v := ReadString(p, off).value;
      CheckFirst(p, off, v, demands);
      var more;
      more, tail := CheckFieldsMeans(p, v.next, demands[1..]);
      lists := [v.data] + more;
      assert lists[1..] == more;
      FieldBefore(p, off, v, more, tail);
    }
  }

  lemma {:induction false} FieldBefore(p: Bytes, off: nat, v: View, lists: seq<Field>, tail: Bytes)
    requires |p| <= 0x1000_0000 && ReadString(p, off) == Some(v) && Holds(p, v.next, lists, tail)
    ensures Holds(p, off, [v.data] + lists, tail)
  {
    hide Str, ReadString;
    ReadIsStr(p, off);
    assert ([v.data] + lists)[1..] == lists;
    assert p[off..] == p[off..v.next] + p[v.next..];
    Regroup(Str(v.data), Fields(lists), tail);
  }

  /** Message number 20 and a cookie, then lists of names that have these eight on them, one each. */
  ghost predicate HasNames(p: Bytes, lists: seq<Field>, tail: Bytes) {
    && |p| >= 17 && p[0] == 20 && p[17..] == Fields(lists) + tail && |lists| == 8
    && Ascii("curve25519-sha256") in Split(lists[0]) && Ascii("ssh-ed25519") in Split(lists[1])
    && Ascii("aes128-ctr") in Split(lists[2]) && Ascii("aes128-ctr") in Split(lists[3])
    && Ascii("hmac-sha2-256") in Split(lists[4]) && Ascii("hmac-sha2-256") in Split(lists[5])
    && Ascii("none") in Split(lists[6]) && Ascii("none") in Split(lists[7])
  }

  lemma {:induction false} NamesOffered(lists: seq<Field>)
    requires |lists| == 8
    ensures Offers(lists, Required()) <==>
      && Curve25519() in Split(lists[0]) && UserAuth.Ed25519() in Split(lists[1])
      && Aes128() in Split(lists[2]) && Aes128() in Split(lists[3])
      && HmacSha256() in Split(lists[4]) && HmacSha256() in Split(lists[5])
      && NoCompression() in Split(lists[6]) && NoCompression() in Split(lists[7])
  {
    hide Split, Curve25519, UserAuth.Ed25519, Aes128, HmacSha256, NoCompression, Offers;
    var r := Required();
    OffersMeans(lists, r);
    if Offers(lists, r) {
      assert r[0] in Split(lists[0]) && r[1] in Split(lists[1]) && r[2] in Split(lists[2]) && r[3] in Split(lists[3]);
      assert r[4] in Split(lists[4]) && r[5] in Split(lists[5]) && r[6] in Split(lists[6]) && r[7] in Split(lists[7]);
    }
  }

  lemma {:induction false} NamesFound(p: Bytes) returns (lists: seq<Field>, tail: Bytes)
    requires |p| <= 0x1000_0000 && ClientAccepts(p)
    ensures HasNames(p, lists, tail) && |tail| <= |p| && tail == p[|p| - |tail|..]
    ensures CheckFields(p, 17, Required()) == Some(|p| - |tail|)
  {
    hide Str, Ascii, Required, CheckFields, Offers, Split;
    lists, tail := CheckFieldsMeans(p, 17, Required());
    NamesOffered(lists);
  }

  lemma {:induction false} NamesSuffice(p: Bytes, lists: seq<Field>, tail: Bytes)
    requires HasNames(p, lists, tail)
    ensures ClientAccepts(p) && Holds(p, CheckFields(p, 17, Required()).value, [], tail)
  {
    hide Str, Ascii, Required, CheckFields, Offers, Split;
    NamesOffered(lists);
    CheckFieldsOf(p, 17, lists, tail, Required());
    assert lists[8..] == [];
  }

  /** The client's check, on any packet. */
  lemma {:induction false} ClientAcceptsExactly(p: Bytes)
    requires |p| <= 0x1000_0000
    ensures ClientAccepts(p) <==> exists lists, tail :: HasNames(p, lists, tail)
  {
    hide *;
    if ClientAccepts(p) {
      var lists, tail := NamesFound(p);
    }
    if lists, tail :| HasNames(p, lists, tail) {
      NamesSuffice(p, lists, tail);
    }
  }

  /** The server's check, on any packet: two more fields must be there. */
  lemma {:induction false} ServerAcceptsExactly(p: Bytes)
    requires |p| <= 0x1000_0000
    ensures ServerAccepts(p) <==> exists lists, a: Field, b: Field, tail :: HasNames(p, lists, Str(a) + Str(b) + tail)
  {
    hide Str, HasNames, Required, CheckFields;
    if ServerAccepts(p) {
      var lists, tail := NamesFound(p);
      var a, b, rest := TwoMoreMean(p, |p| - |tail|);
    }
    if lists, a: Field, b: Field, tail :| HasNames(p, lists, Str(a) + Str(b) + tail) {
      NamesSuffice(p, lists, Str(a) + Str(b) + tail);
      TwoMoreAt(p, CheckFields(p, 17, Required()).value, a, b, tail);
    }
  }

  lemma {:induction false} TwoMoreMean(p: Bytes, off: nat) returns (a: Field, b: Field, rest: Bytes)
    requires |p| <= 0x1000_0000 && ReadString(p, off).Some? && ReadString(p, ReadString(p, off).value.next).Some?
    ensures off <= |p| && p[off..] == Str(a) + Str(b) + rest
  {
    hide Str, ReadString;
    var v := ReadString(p, off).value;
    var w := ReadString(p, v.next).value;
    ReadIsStr(p, off);
    ReadIsStr(p, v.next);
    a, b, rest := v.data, w.data, p[w.next..];
    assert p[off..] == p[off..v.next] + p[v.next..w.next] + p[w.next..];
  }

  lemma {:induction false} TwoMoreAt(p: Bytes, off: nat, a: Field, b: Field, tail: Bytes)
    requires Holds(p, off, [], Str(a) + Str(b) + tail)
    ensures ReadString(p, off).Some? && ReadString(p, ReadString(p, off).value.next).Some?
  {
    hide Str;
    Regroup(Str(a), Str(b), tail);
    assert p[off..] == Str(a) + (Str(b) + tail);
    ReadStringFrom(p, off, a, Str(b) + tail);
    ReadStringFrom(p, off + 4 + |a|, b, tail);
  }

  lemma {:induction false} EightFields(a: Field, b: Field, c: Field, d: Field, e: Field, f: Field, g: Field, h: Field)
    ensures Fields([a, b, c, d, e, f, g, h]) == Str(a) + Str(b) + Str(c) + Str(d) + Str(e) + Str(f) + Str(g) + Str(h)
  {
    hide Str;
    FieldsSnoc([a, b, c, d, e, f, g], h);
    FieldsSnoc([a, b, c, d, e, f], g);
    FieldsSnoc([a, b, c, d, e], f);
    FieldsSnoc([a, b, c, d], e);
    FieldsSnoc([a, b, c], d);
    FieldsSnoc([a, b], c);
    FieldsSnoc([a], b);
    assert [a, b, c, d, e, f, g] + [h] == [a, b, c, d, e, f, g, h] && [a, b, c, d, e, f] + [g] == [a, b, c, d, e, f, g];
    assert [a, b, c, d, e] + [f] == [a, b, c, d, e, f] && [a, b, c, d] + [e] == [a, b, c, d, e];
    assert [a, b, c] + [d] == [a, b, c, d] && [a, b] + [c] == [a, b, c] && [a] + [b] == [a, b] && Fields([a]) == Str(a);
  }

  /** The bytes of a KEXINIT with these eight lists and two empty ones. */
  lemma {:induction false} PayloadWritten(cookie: Bytes, lists: seq<Field>,
    a: Field, b: Field, c: Field, d: Field, e: Field, f: Field, g: Field, h: Field)
    requires lists == [a, b, c, d, e, f, g, h] + [[], []]
    ensures Payload(cookie, lists)
         == [20] + cookie + (Str(a) + Str(b) + Str(c) + Str(d) + Str(e) + Str(f) + Str(g) + Str(h))
           + [0, 0, 0, 0, 0, 0, 0, 0, 0, 0, 0, 0, 0]
  {
    hide Str, Fields;
    var eight: seq<Field> := [a, b, c, d, e, f, g, h];
    EightFields(a, b, c, d, e, f, g, h);
    TwoEmpty(eight);
    assert eight + [[]] + [[]] == lists;
    U32Written(0);
    assert [0, 0, 0, 0] + [0, 0, 0, 0] + [0] + [0, 0, 0, 0] == [0, 0, 0, 0, 0, 0, 0, 0, 0, 0, 0, 0, 0];
  }

  lemma {:induction false} TwoEmpty(lists: seq<Field>)
    ensures Fields(lists + [[]] + [[]]) == Fields(lists) + [0, 0, 0, 0] + [0, 0, 0, 0]
  {
    FieldsSnoc(lists + [[]], []);
    FieldsSnoc(lists, []);
    U32Written(0);
    assert Str([]) == [0, 0, 0, 0];
  }

  /** The server's KEXINIT, byte by byte. */
  lemma {:induction false} ServerPayloadWritten(cookie: Bytes)
    ensures Payload(cookie, ServerLists()) == [20] + cookie + (
      Str(Ascii("curve25519-sha256")) + Str(Ascii("ssh-ed25519"))
      + Str(Ascii("aes128-ctr")) + Str(Ascii("aes128-ctr")) + Str(Ascii("hmac-sha2-256")) + Str(Ascii("hmac-sha2-256"))
      + Str(Ascii("none")) + Str(Ascii("none"))) + [0, 0, 0, 0, 0, 0, 0, 0, 0, 0, 0, 0, 0]
  {
    hide Str, Ascii, Fields, Payload, ServerLists, Required;
    ServerListsAre();
    PayloadWritten(cookie, ServerLists(), Curve25519(), UserAuth.Ed25519(), Aes128(), Aes128(), HmacSha256(), HmacSha256(),
                   NoCompression(), NoCompression());
  }

  lemma {:induction false} ServerListsAre()
    ensures ServerLists() == [Curve25519(), UserAuth.Ed25519(), Aes128(), Aes128(), HmacSha256(), HmacSha256(),
                              NoCompression(), NoCompression()] + [[], []]
  {
    hide Ascii;
  }

  lemma {:induction false} ClientListsAre()
    ensures var cipher, mac := Aes128() + [44] + OtherCiphers(), HmacSha256() + [44] + OtherMac();
      ClientLists() == [Curve25519() + [44] + OtherKex(), UserAuth.Ed25519() + [44] + OtherKeys(), cipher, cipher, mac, mac,
                        NoCompression(), NoCompression()] + [[], []]
  {
    hide Curve25519, UserAuth.Ed25519, Aes128, HmacSha256, NoCompression, OtherKex, OtherKeys, OtherCiphers, OtherMac;
  }

  /** The client's KEXINIT, byte by byte. */
  lemma {:induction false} ClientPayloadWritten(cookie: Bytes)
    ensures var cipher, mac := Ascii("aes128-ctr") + [44] + Ascii("aes256-ctr,chacha20-poly1305@openssh.com"),
                               Ascii("hmac-sha2-256") + [44] + Ascii("hmac-sha1");
      Payload(cookie, ClientLists()) == [20] + cookie + (
        Str(Ascii("curve25519-sha256") + [44] + Ascii("diffie-hellman-group14-sha256"))
        + Str(Ascii("ssh-ed25519") + [44] + Ascii("rsa-sha2-256,ssh-rsa"))
        + Str(cipher) + Str(cipher) + Str(mac) + Str(mac) + Str(Ascii("none")) + Str(Ascii("none")))
        + [0, 0, 0, 0, 0, 0, 0, 0, 0, 0, 0, 0, 0]
  {
    hide Str, Ascii, Fields, Payload, ClientLists, Required, ClientMore;
    var cipher, mac := Aes128() + [44] + OtherCiphers(), HmacSha256() + [44] + OtherMac();
    ClientListsAre();
    PayloadWritten(cookie, ClientLists(), Curve25519() + [44] + OtherKex(), UserAuth.Ed25519() + [44] + OtherKeys(),
                   cipher, cipher, mac, mac, NoCompression(), NoCompression());
  }

  // ----- the builder -----

  /** The buffer holds the head of a KEXINIT and its first i lists. */
  ghost predicate Built(out: PayloadBuffer, cookie: Bytes, lists: seq<Field>, i: nat)
    reads out, out.data
  {
    && out.Valid() && out.data.Length == PAYLOAD_MAX && |cookie| == COOKIE_LEN
    && i <= |lists| == 10 && (forall l :: l in lists ==> |l| <= 59)
    && out.Contents() == [MSG_KEXINIT] + cookie + Fields(lists[..i])
  }

  method AppendField(out: PayloadBuffer, ghost cookie: Bytes, lists: seq<Field>, i: nat) returns (ok: bool)
    requires i < 10 && Built(out, cookie, lists, i)
    modifies out, out.data
    ensures ok && Built(out, cookie, lists, i + 1)
  {
    NextField([MSG_KEXINIT] + cookie, lists, i);
    SliceLength(lists, i);
    ok := out.AppendString(lists[i]);
  }

  lemma {:induction false} NextField(head: Bytes, lists: seq<Field>, i: nat)
    requires i < |lists|
    ensures head + Fields(lists[..i]) + Str(lists[i]) == head + Fields(lists[..i + 1])
  {
    FieldsSnoc(lists[..i], lists[i]);
    assert lists[..i + 1] == lists[..i] + [lists[i]];
    Regroup(head, Fields(lists[..i]), Str(lists[i]));
  }

  lemma {:induction false} SliceLength(lists: seq<Field>, i: nat)
    requires i <= |lists| && forall l :: l in lists ==> |l| <= 59
    ensures |Fields(lists[..i])| <= 63 * i
  {
    forall l | l in lists[..i]
      ensures |l| <= 59
    {
      assert l in lists;
    }
    FieldsLength(lists[..i]);
  }

  /** build_kexinit_payload: an append for each of the ten lists, and the trailer. Both sides' lists fit the 1024-byte buffer. */
  method Build(out: PayloadBuffer, cookie: Bytes, lists: seq<Field>) returns (ok: bool)
    requires out.Valid() && out.Contents() == [] && out.data.Length == PAYLOAD_MAX
    requires |cookie| == COOKIE_LEN && |lists| == 10 && forall l :: l in lists ==> |l| <= 59
    modifies out, out.data
    ensures ok && out.Valid() && out.Contents() == Payload(cookie, lists)
  {
    ok := out.AppendU8(MSG_KEXINIT);
    ok := out.AppendRaw(cookie);
    assert lists[..0] == [];
    assert out.Contents() == [MSG_KEXINIT] + cookie + Fields(lists[..0]);
    assert Built(out, cookie, lists, 0);
    for i := 0 to 10
      invariant Built(out, cookie, lists, i)
    {
      ok := AppendField(out, cookie, lists, i);
      if !ok {
        return;
      }
    }
    ok := AppendTrailer(out, cookie, lists);
  }

  method AppendTrailer(out: PayloadBuffer, ghost cookie: Bytes, ghost lists: seq<Field>) returns (ok: bool)
    requires Built(out, cookie, lists, 10)
    modifies out, out.data
    ensures ok && out.Valid() && out.Contents() == Payload(cookie, lists)
  {
    assert lists[..10] == lists;
    FieldsLength(lists);
    if out.len + 1 + 4 > out.data.Length {
      return false;
    }
    ok := out.AppendU8(0);
    ok := out.AppendU32(0);
  }
}
