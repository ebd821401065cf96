/** The RADIUS packets sent to a router (backend/src/radius/coa_sender.py), against the
    packet format of section 3 and the attribute format of section 5 of RFC 2865. The
    digests are parameters. */
module Radius {
  import opened Options
  import Sequences

  type Byte = n: int | 0 <= n < 256

  type Bytes = seq<Byte>

  type Digest = d: Bytes | |d| == 16 witness [0, 0, 0, 0, 0, 0, 0, 0, 0, 0, 0, 0, 0, 0, 0, 0]

  const USER_NAME: Byte := 1
  const FRAMED_IP_ADDRESS: Byte := 8
  const MESSAGE_AUTHENTICATOR: Byte := 80

  // ------------------------------------------------------------------- the format

  datatype Attribute = Attribute(kind: Byte, value: Bytes)

  datatype Packet = Packet(code: Byte, identifier: Byte, authenticator: Digest, attributes: seq<Attribute>)

  /** Attributes from the front: a length counts its own two header bytes. */
  function Walk(b: Bytes): Option<seq<Attribute>>
    decreases |b|
  {
    if b == [] then Some([])
    else if |b| < 2 || b[1] < 2 || b[1] > |b| then None
    else
      var rest := Walk(b[b[1]..]);
      if rest.None? then None else Some([Attribute(b[0], b[2..b[1]])] + rest.value)
  }

  function Parse(b: Bytes): Option<Packet> {
    if |b| < 20 || b[2] as int * 256 + b[3] as int != |b| then None
    else
      var attributes := Walk(b[20..]);
      if attributes.None? then None else Some(Packet(b[0], b[1], b[4..20], attributes.value))
  }

  predicate Encodable(attributes: seq<Attribute>) { forall i | 0 <= i < |attributes| :: |attributes[i].value| <= 253 }

  function EncodeOne(a: Attribute): Bytes
    requires |a.value| <= 253
  {
    [a.kind, |a.value| + 2] + a.value
  }

  function Encode(attributes: seq<Attribute>): Bytes
    requires Encodable(attributes)
  {
    if attributes == [] then [] else EncodeOne(attributes[0]) + Encode(attributes[1..])
  }

  lemma {:induction false} WalkEncode(attributes: seq<Attribute>)
    requires Encodable(attributes)
    ensures Walk(Encode(attributes)) == Some(attributes)
  {
    if attributes != [] {
      WalkEncode(attributes[1..]);
      var a, rest := attributes[0], Encode(attributes[1..]);
      var b := EncodeOne(a) + rest;
      assert b[1] == |a.value| + 2 && b == Encode(attributes);
      assert b[b[1]..] == rest && b[2..b[1]] == a.value;
      assert [a] + attributes[1..] == attributes;
    }
  }

  lemma EncodeNone()
    ensures Encodable([]) && Encode([]) == []
  {}

  lemma EncodeCons(a: Attribute, rest: seq<Attribute>)
    requires |a.value| <= 253 && Encodable(rest)
    ensures Encodable([a] + rest) && Encode([a] + rest) == EncodeOne(a) + Encode(rest)
  {
    assert ([a] + rest)[1..] == rest;
  }

  lemma EncodableHead(xs: seq<Attribute>)
    requires Encodable(xs) && xs != []
    ensures |xs[0].value| <= 253 && Encodable(xs[1..]) && xs == [xs[0]] + xs[1..]
  {}

  lemma {:induction false} EncodeConcat(xs: seq<Attribute>, ys: seq<Attribute>)
    requires Encodable(xs) && Encodable(ys)
    ensures Encodable(xs + ys) && Encode(xs + ys) == Encode(xs) + Encode(ys)
  {
    hide Encode, EncodeOne, Encodable;
    if xs == [] {
      assert xs + ys == ys;
      EncodeNone();
    } else {
      EncodableHead(xs);
      var a, rest := xs[0], xs[1..];
      EncodeConcat(rest, ys);
      EncodeCons(a, rest);
      EncodeCons(a, rest + ys);
      Sequences.Grouping([a], rest, ys);
      Sequences.Grouping(EncodeOne(a), Encode(rest), Encode(ys));
    }
  }

  // ------------------------------------------------------------------ the encoders

  /** An address ipaddress.ip_address has parsed. */
  datatype Address = V4(packed: Bytes) | V6(packed: Bytes)

  /** _encode_text_attr; None where struct.pack raises. */
  function EncodeTextAttr(kind: Byte, value: Bytes): Option<Bytes> {
    if |value| + 2 > 255 then None else Some([kind, |value| + 2] + value)
  }

  /** _encode_ipv4_attr; None where it raises. */
  function EncodeIpv4Attr(kind: Byte, value: Address): Option<Bytes>
    requires value.V4? ==> |value.packed| == 4
  {
    if value.V6? then None else Some([kind, 6] + value.packed)
  }

  function PackShort(n: nat): Bytes
    requires n < 65536
  {
    [n / 256, n % 256]
  }

  function Zeros(n: nat): Bytes { seq(n, _ => 0) }

  /** _build_disconnect_packet. */
  function BuildDisconnect(md5: Bytes -> Digest, identifier: Byte, secret: Bytes, user: Bytes,
                           address: Address): Option<Bytes>
    requires address.V4? ==> |address.packed| == 4
  {
    var name, ip := EncodeTextAttr(USER_NAME, user), EncodeIpv4Attr(FRAMED_IP_ADDRESS, address);
    if name.None? || ip.None? then None
    else
      var attrs := name.value + ip.value;
      var head := [40, identifier] + PackShort(20 + |attrs|);
      Some(head + md5(head + Zeros(16) + attrs + secret) + attrs)
  }

  /** Section 2.3 of RFC 5176: what a router checks before it believes the packet. */
  predicate Authentic(md5: Bytes -> Digest, secret: Bytes, packet: Bytes)
    requires |packet| >= 20
  {
    packet[4..20] == md5(packet[..4] + Zeros(16) + packet[20..] + secret)
  }

  /** A packet is built for exactly the user names of at most 253 bytes and the IPv4
      addresses; it authenticates; its length field is its length; and read back by the
      format it is a Disconnect-Request with just that name and address. */
  lemma DisconnectRoundTrip(md5: Bytes -> Digest, identifier: Byte, secret: Bytes, user: Bytes, address: Address)
    requires address.V4? ==> |address.packed| == 4
    ensures var packet := BuildDisconnect(md5, identifier, secret, user, address);
            && (packet.Some? <==> |user| <= 253 && address.V4?)
            && (packet.Some? ==>
                  && |packet.value| >= 20
                  && Authentic(md5, secret, packet.value)
                  && Parse(packet.value) ==
                     Some(Packet(40, identifier, packet.value[4..20],
                                 [Attribute(1, user), Attribute(8, address.packed)])))
  {
    var packet := BuildDisconnect(md5, identifier, secret, user, address);
    if packet.Some? {
      var attributes := [Attribute(USER_NAME, user), Attribute(FRAMED_IP_ADDRESS, address.packed)];
      var attrs := [USER_NAME, |user| + 2] + user + ([FRAMED_IP_ADDRESS, 6] + address.packed);
      TwoAttributes(attributes);
      WalkEncode(attributes);
      var head := [40, identifier] + PackShort(20 + |attrs|);
      Assembled(head, md5(head + Zeros(16) + attrs + secret), attrs);
    }
  }

  /** The packet byte by byte: code 40, the identifier, the length in two bytes, the digest of the
      packet with sixteen zeros and the secret, then attributes 1 and 8 with their own lengths. */
  lemma DisconnectBytes(md5: Bytes -> Digest, identifier: Byte, secret: Bytes, user: Bytes, packed: Bytes)
    requires |user| <= 253 && |packed| == 4
    ensures var packet := BuildDisconnect(md5, identifier, secret, user, V4(packed));
            var attrs: Bytes := [1, |user| + 2] + user + [8, 6] + packed;
            var head: Bytes := [40, identifier, (28 + |user|) / 256, (28 + |user|) % 256];
            packet == Some(head + md5(head + [0, 0, 0, 0, 0, 0, 0, 0, 0, 0, 0, 0, 0, 0, 0, 0] + attrs + secret) + attrs)
  {
    var attrs: Bytes := [1, |user| + 2] + user + [8, 6] + packed;
    assert [USER_NAME, |user| + 2] + user + ([FRAMED_IP_ADDRESS, 6] + packed) == attrs;
    assert Zeros(16) == [0, 0, 0, 0, 0, 0, 0, 0, 0, 0, 0, 0, 0, 0, 0, 0];
    assert [40, identifier] + PackShort(20 + |attrs|)
        == [40, identifier, (28 + |user|) / 256, (28 + |user|) % 256];
  }

  lemma TwoAttributes(attributes: seq<Attribute>)
    requires |attributes| == 2 && Encodable(attributes)
    ensures Encode(attributes) == EncodeOne(attributes[0]) + EncodeOne(attributes[1])
  {
    assert attributes[1..][1..] == [];
    assert Encode(attributes[1..]) == EncodeOne(attributes[1]) + [];
  }

  lemma Assembled(head: Bytes, digest: Digest, attrs: Bytes)
    requires |head| == 4 && |attrs| < 65516 && head[2..] == PackShort(20 + |attrs|)
    ensures var p := head + digest + attrs;
            |p| == 20 + |attrs| && p[..4] == head && p[4..20] == digest && p[20..] == attrs
            && p[2] as int * 256 + p[3] as int == |p|
  {}

  // ------------------------------------------------------- the reconnect's walk

  function PatchFirst(attributes: seq<Attribute>, mac: Digest): seq<Attribute> {
    if attributes == [] then []
    else if attributes[0].kind == MESSAGE_AUTHENTICATOR then [Attribute(MESSAGE_AUTHENTICATOR, mac)] + attributes[1..]
    else [attributes[0]] + PatchFirst(attributes[1..], mac)
  }

  predicate MacsAreWide(attributes: seq<Attribute>) {
    forall i | 0 <= i < |attributes| && attributes[i].kind == MESSAGE_AUTHENTICATOR :: |attributes[i].value| == 16
  }

  lemma {:induction false} PatchFirstOf(done: seq<Attribute>, rest: seq<Attribute>, mac: Digest)
    requires forall i | 0 <= i < |done| :: done[i].kind != MESSAGE_AUTHENTICATOR
    ensures PatchFirst(done + rest, mac) == done + PatchFirst(rest, mac)
  {
    if done == [] {
      assert done + rest == rest && done + PatchFirst(rest, mac) == PatchFirst(rest, mac);
    } else {
      Sequences.HeadOfConcat(done, rest);
      PatchFirstOf(done[1..], rest, mac);
      Sequences.Grouping([done[0]], done[1..], PatchFirst(rest, mac));
    }
  }

  /** It gives the first attribute 80 another value and changes nothing else. */
  lemma PatchFirstIs(attributes: seq<Attribute>, k: nat, mac: Digest)
    requires k <= |attributes| && forall i | 0 <= i < k :: attributes[i].kind != 80
    ensures k < |attributes| && attributes[k].kind == 80 ==>
            PatchFirst(attributes, mac) == attributes[k := Attribute(80, mac)]
    ensures k == |attributes| ==> PatchFirst(attributes, mac) == attributes
  {
    if k == |attributes| {
      PatchFirstOf(attributes, [], mac);
      assert attributes + [] == attributes;
    } else {
      Sequences.Around(attributes, k);
      Sequences.Updated(attributes, k, Attribute(80, mac));
      PatchFirstOf(attributes[..k], attributes[k..], mac);
    }
  }

  /** The inner loop: the sixteen bytes from `at` become the digest. */
  method WriteDigest(a: array<Byte>, at: nat, mac: Digest)
    requires at + 16 <= a.Length
    modifies a
    ensures a[..] == old(a[..at]) + mac + old(a[at + 16..])
  {
    for i := 0 to 16
      invariant forall k | 0 <= k < a.Length :: a[k] == if at <= k < at + i then mac[k - at] else old(a[k])
    {
      a[at + i] := mac[i];
    }
  }

  /** The while loop over the attribute bytes: it ends, stays in bounds, and overwrites
      exactly the 16 value bytes of the first Message-Authenticator, whatever the bytes
      of the attributes before it look like. */
  method WriteMac(a: array<Byte>, mac: Digest, ghost attributes: seq<Attribute>)
    requires Encodable(attributes) && MacsAreWide(attributes) && a[..] == Encode(attributes)
    modifies a
    ensures Encodable(PatchFirst(attributes, mac)) && a[..] == Encode(PatchFirst(attributes, mac))
  {
    ghost var done: nat := 0;
    var idx := 0;
    while idx < a.Length
      invariant done <= |attributes| && a[..] == Encode(attributes)
      invariant forall i | 0 <= i < done :: attributes[i].kind != MESSAGE_AUTHENTICATOR
      invariant idx == |Encode(attributes[..done])|
      decreases a.Length - idx
    {
      AtBoundary(attributes, done, a[..]);
      var kind, length := a[idx], a[idx + 1];
      if kind == MESSAGE_AUTHENTICATOR {
        WriteDigest(a, idx + 2, mac);
        Overwritten(attributes, done, mac);
        return;
      }
      idx := idx + length;
      done := done + 1;
    }
    AllWalked(attributes, done);
    PatchFirstOf(attributes, [], mac);
    assert attributes + [] == attributes;
  }

  /** Where the walk stands after the first k attributes, inside the bytes. */
  lemma AtBoundary(attributes: seq<Attribute>, k: nat, b: Bytes)
    requires Encodable(attributes) && k <= |attributes| && b == Encode(attributes)
    requires |Encode(attributes[..k])| < |b|
    ensures k < |attributes|
    ensures var idx := |Encode(attributes[..k])|;
            && idx + 2 + |attributes[k].value| <= |b|
            && b[idx] == attributes[k].kind && b[idx + 1] == |attributes[k].value| + 2
            && |Encode(attributes[..k + 1])| == idx + b[idx + 1]
            && b[..idx + 2] == Encode(attributes[..k]) + [attributes[k].kind, |attributes[k].value| + 2]
            && b[idx + 2 + |attributes[k].value|..] == Encode(attributes[k + 1..])
  {
    assert attributes[..|attributes|] == attributes;
    var before, one, after := Encode(attributes[..k]), EncodeOne(attributes[k]), Encode(attributes[k + 1..]);
    Around(attributes, k);
    assert b == before + one + after;
  }

  /** The bytes before, of and after the attribute at k. */
  lemma Around(attributes: seq<Attribute>, k: nat)
    requires Encodable(attributes) && k < |attributes|
    ensures Encode(attributes) == Encode(attributes[..k]) + EncodeOne(attributes[k]) + Encode(attributes[k + 1..])
    ensures Encode(attributes[..k + 1]) == Encode(attributes[..k]) + EncodeOne(attributes[k])
  {
    hide Encode, EncodeOne;
    var before, a, later := attributes[..k], attributes[k], attributes[k + 1..];
    Sequences.Around(attributes, k);
    AddOne(before, a);
    EncodeConcat(before + [a], later);
  }

  lemma AddOne(before: seq<Attribute>, a: Attribute)
    requires Encodable(before) && |a.value| <= 253
    ensures Encodable(before + [a]) && Encode(before + [a]) == Encode(before) + EncodeOne(a)
  {
    OneAttribute(a);
    EncodeConcat(before, [a]);
  }

  lemma AllWalked(attributes: seq<Attribute>, k: nat)
    requires Encodable(attributes) && k <= |attributes|
    requires |Encode(attributes[..k])| >= |Encode(attributes)|
    ensures k == |attributes|
  {
    if k < |attributes| {
      Around(attributes, k);
    }
  }

  lemma OneAttribute(a: Attribute)
    requires |a.value| <= 253
    ensures Encode([a]) == EncodeOne(a)
  {}

  /** New value bytes for the attribute at k are that attribute with a new value. */
  lemma Overwritten(attributes: seq<Attribute>, k: nat, mac: Digest)
    requires Encodable(attributes) && MacsAreWide(attributes) && k < |attributes|
    requires attributes[k].kind == MESSAGE_AUTHENTICATOR
    requires forall i | 0 <= i < k :: attributes[i].kind != MESSAGE_AUTHENTICATOR
    ensures Encodable(PatchFirst(attributes, mac))
    ensures Encode(PatchFirst(attributes, mac))
            == Encode(attributes[..k]) + [MESSAGE_AUTHENTICATOR, 18] + mac + Encode(attributes[k + 1..])
  {
    hide Encode, EncodeOne, PatchFirst;
    PatchedAt(attributes, k, mac);
    var patched := PatchFirst(attributes, mac);
    EncodedPatch(mac);
    Around(patched, k);
  }

  lemma EncodedPatch(mac: Digest)
    ensures EncodeOne(Attribute(MESSAGE_AUTHENTICATOR, mac)) == [MESSAGE_AUTHENTICATOR, 18] + mac
  {}

  /** The first Message-Authenticator, wherever it is, is the one that changes. */
  lemma PatchedAt(attributes: seq<Attribute>, k: nat, mac: Digest)
    requires Encodable(attributes) && k < |attributes|
    requires attributes[k].kind == MESSAGE_AUTHENTICATOR
    requires forall i | 0 <= i < k :: attributes[i].kind != MESSAGE_AUTHENTICATOR
    ensures var patched := PatchFirst(attributes, mac);
            && |patched| == |attributes| && Encodable(patched)
            && patched[k] == Attribute(MESSAGE_AUTHENTICATOR, mac)
            && patched[..k] == attributes[..k] && patched[k + 1..] == attributes[k + 1..]
  {
    var signed := Attribute(MESSAGE_AUTHENTICATOR, mac);
    Sequences.Around(attributes, k);
    Sequences.Updated(attributes, k, signed);
    PatchFirstOf(attributes[..k], attributes[k..], mac);
    assert PatchFirst(attributes, mac) == attributes[k := signed];
  }

  // ----------------------------------------------------------------- the reconnect

  function ReconnectHead(identifier: Byte, user: Bytes): Bytes
    requires |user| <= 253
  {
    [43, identifier] + PackShort(40 + |user|)
  }

  function NameAndMac(user: Bytes, mac: Digest): (attributes: seq<Attribute>)
    requires |user| <= 253
    ensures |attributes| == 2 && Encodable(attributes) && MacsAreWide(attributes)
  {
    [Attribute(USER_NAME, user), Attribute(MESSAGE_AUTHENTICATOR, mac)]
  }

  /** The digest attribute 80 carries: over the packet with that attribute zeroed. */
  function ReconnectMac(hmac: (Bytes, Bytes) -> Digest, identifier: Byte, authenticator: Digest, secret: Bytes,
                        user: Bytes): Digest
    requires |user| <= 253
  {
    hmac(secret, ReconnectHead(identifier, user) + authenticator + Encode(NameAndMac(user, Zeros(16))))
  }

  function ReconnectPacket(hmac: (Bytes, Bytes) -> Digest, identifier: Byte, authenticator: Digest, secret: Bytes,
                           user: Bytes): Bytes
    requires |user| <= 253
  {
    ReconnectHead(identifier, user) + authenticator
    + Encode(NameAndMac(user, ReconnectMac(hmac, identifier, authenticator, secret, user)))
  }

  /** send_coa_reconnect up to the socket; None where the name is too long to encode. */
  method BuildReconnect(hmac: (Bytes, Bytes) -> Digest, identifier: Byte, authenticator: Digest, secret: Bytes,
                        user: Bytes)
    returns (packet: Option<Bytes>)
    ensures packet.Some? <==> |user| <= 253
    ensures packet.Some? ==>
              && packet.value == ReconnectPacket(hmac, identifier, authenticator, secret, user)
              && Parse(packet.value) ==
                 Some(Packet(43, identifier, authenticator,
                             NameAndMac(user, ReconnectMac(hmac, identifier, authenticator, secret, user))))
  {
    hide Encode, PatchFirst, Parse;
    var name := EncodeTextAttr(USER_NAME, user);
    if name.None? { return None; }
    var attrs := name.value + ([MESSAGE_AUTHENTICATOR, 18] + Zeros(16));
    NameAndMacEncode(user, Zeros(16));
    var head := [43, identifier] + PackShort(20 + |attrs|);
    var mac := hmac(secret, head + authenticator + attrs);
    var list := new Byte[|attrs|](i requires 0 <= i < |attrs| => attrs[i]);
    assert list[..] == attrs;
    WriteMac(list, mac, NameAndMac(user, Zeros(16)));
    MacIsPatched(user, Zeros(16), mac);
    ReconnectParses(hmac, identifier, authenticator, secret, user);
    return Some(head + authenticator + list[..]);
  }

  lemma NameAndMacEncode(user: Bytes, mac: Digest)
    requires |user| <= 253
    ensures Encode(NameAndMac(user, mac)) == [USER_NAME, |user| + 2] + user + ([MESSAGE_AUTHENTICATOR, 18] + mac)
  {
    TwoAttributes(NameAndMac(user, mac));
  }

  lemma MacIsPatched(user: Bytes, old_: Digest, mac: Digest)
    requires |user| <= 253
    ensures PatchFirst(NameAndMac(user, old_), mac) == NameAndMac(user, mac)
  {
    PatchedAt(NameAndMac(user, old_), 1, mac);
    assert PatchFirst(NameAndMac(user, old_), mac)[..1] == [Attribute(USER_NAME, user)];
  }

  lemma ReconnectParses(hmac: (Bytes, Bytes) -> Digest, identifier: Byte, authenticator: Digest, secret: Bytes,
                        user: Bytes)
    requires |user| <= 253
    ensures var p := ReconnectPacket(hmac, identifier, authenticator, secret, user);
            && |p| >= 20 && p[..4] == ReconnectHead(identifier, user) && p[4..20] == authenticator
            && p[20..] == Encode(NameAndMac(user, ReconnectMac(hmac, identifier, authenticator, secret, user)))
            && Parse(p) == Some(Packet(43, identifier, authenticator,
                                 NameAndMac(user, ReconnectMac(hmac, identifier, authenticator, secret, user))))
  {
    hide Encode, Walk, ReconnectMac;
    var mac := ReconnectMac(hmac, identifier, authenticator, secret, user);
    NameAndMacEncode(user, mac);
    WalkEncode(NameAndMac(user, mac));
    Assembled(ReconnectHead(identifier, user), authenticator, Encode(NameAndMac(user, mac)));
  }

  function FirstMac(attributes: seq<Attribute>): Option<Bytes> {
    if attributes == [] then None
    else if attributes[0].kind == MESSAGE_AUTHENTICATOR then Some(attributes[0].value)
    else FirstMac(attributes[1..])
  }

  /** Section 3.4 of RFC 5176: attribute 80 is the digest of the packet with both it and the
      Request Authenticator taken as zero. */
  predicate MacIsValid(hmac: (Bytes, Bytes) -> Digest, secret: Bytes, packet: Bytes) {
    && Parse(packet).Some?
    && var zeroed := PatchFirst(Parse(packet).value.attributes, Zeros(16));
       && Encodable(zeroed)
       && FirstMac(Parse(packet).value.attributes) == Some(hmac(secret, packet[..4] + Zeros(16) + Encode(zeroed)))
  }

  /** The reconnect byte by byte: code 43, the random authenticator as drawn, attribute 1, and
      attribute 80 with the digest of the same bytes with sixteen zeros in its place. */
  lemma ReconnectBytes(hmac: (Bytes, Bytes) -> Digest, identifier: Byte, authenticator: Digest, secret: Bytes,
                       user: Bytes)
    requires |user| <= 253
    ensures var front: Bytes := [43, identifier, (40 + |user|) / 256, (40 + |user|) % 256] + authenticator
                                + [1, |user| + 2] + user + [80, 18];
            ReconnectPacket(hmac, identifier, authenticator, secret, user)
            == front + hmac(secret, front + [0, 0, 0, 0, 0, 0, 0, 0, 0, 0, 0, 0, 0, 0, 0, 0])
  {
    hide Encode;
    NameAndMacEncode(user, Zeros(16));
    NameAndMacEncode(user, ReconnectMac(hmac, identifier, authenticator, secret, user));
    var front: Bytes := [43, identifier, (40 + |user|) / 256, (40 + |user|) % 256] + authenticator
                        + [1, |user| + 2] + user + [80, 18];
    assert Zeros(16) == [0, 0, 0, 0, 0, 0, 0, 0, 0, 0, 0, 0, 0, 0, 0, 0];
    assert ReconnectHead(identifier, user) == [43, identifier, (40 + |user|) / 256, (40 + |user|) % 256];
    assert ReconnectHead(identifier, user) + authenticator + Encode(NameAndMac(user, Zeros(16)))
        == front + [0, 0, 0, 0, 0, 0, 0, 0, 0, 0, 0, 0, 0, 0, 0, 0];
  }

  /** When a router that checks may believe a reconnect. The source draws the Request
      Authenticator at random, so it would have to be, by chance, the digest of the packet
      that carries it; and computes attribute 80 over that random value, so the two digests
      would have to collide. */
  lemma ReconnectAuthenticIff(md5: Bytes -> Digest, hmac: (Bytes, Bytes) -> Digest, identifier: Byte,
                              authenticator: Digest, secret: Bytes, user: Bytes)
    requires |user| <= 253
    ensures var p := ReconnectPacket(hmac, identifier, authenticator, secret, user);
            var head := ReconnectHead(identifier, user);
            var mac := ReconnectMac(hmac, identifier, authenticator, secret, user);
            var zeroed := Encode(NameAndMac(user, Zeros(16)));
            && |p| >= 20
            && (Authentic(md5, secret, p) <==>
                authenticator == md5(head + Zeros(16) + Encode(NameAndMac(user, mac)) + secret))
            && (MacIsValid(hmac, secret, p) <==>
                hmac(secret, head + authenticator + zeroed) == hmac(secret, head + Zeros(16) + zeroed))
  {
    hide Parse, Encode, PatchFirst;
    ReconnectParses(hmac, identifier, authenticator, secret, user);
    var mac := ReconnectMac(hmac, identifier, authenticator, secret, user);
    MacIsPatched(user, mac, Zeros(16));
    assert NameAndMac(user, mac)[1..] == [Attribute(MESSAGE_AUTHENTICATOR, mac)];
    assert FirstMac(NameAndMac(user, mac)) == Some(mac);
  }
}
