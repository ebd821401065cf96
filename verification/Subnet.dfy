/** IPv4 subnet planning in the router page (frontend/src/pages/Routers.jsx). JavaScript's
    32-bit operators are defined here on unsigned values, bit by bit; how Number() reads a
    part of an address is a parameter. */
module Subnet {
  import opened Options
  import opened Text

  const TWO_32: nat := 0x1_0000_0000

  function Pow2(k: nat): nat { if k == 0 then 1 else 2 * Pow2(k - 1) }

  function BitAnd(a: nat, b: nat): nat {
    if a == 0 || b == 0 then 0 else (if a % 2 == 1 && b % 2 == 1 then 1 else 0) + 2 * BitAnd(a / 2, b / 2)
  }

  function BitOr(a: nat, b: nat): nat
    decreases a + b
  {
    if a == 0 then b else if b == 0 then a
    else (if a % 2 == 1 || b % 2 == 1 then 1 else 0) + 2 * BitOr(a / 2, b / 2)
  }

  /** ~x, read unsigned. */
  function BitNot(x: nat): nat
    requires x < TWO_32
  {
    TWO_32 - 1 - x
  }

  /** x << k, read unsigned: the shift count is taken modulo 32. */
  function ShiftLeft(x: nat, k: int): nat
    requires x < TWO_32
  {
    Doubled(x, k % 32)
  }

  function Doubled(x: nat, k: nat): (r: nat)
    requires x < TWO_32
    ensures r < TWO_32
  {
    if k == 0 then x else 2 * Doubled(x, k - 1) % TWO_32
  }

  /** x >>> 8, 16 and 24. */
  function ShiftRight(x: nat, bytes: nat): nat { if bytes == 0 then x else ShiftRight(x, bytes - 1) / 256 }

  // --------------------------------------------------------------- text addresses

  /** Number(p) where it is an integer, None where it is not. */
  type NumberOf = string -> Option<int>

  /** The one thing used of Number(): it reads plain decimal octets. */
  ghost predicate ReadsOctets(number: NumberOf) {
    forall v: nat | v < 256 :: number(NatText(v)) == Some(v)
  }

  predicate IsOctet(number: NumberOf, p: string) {
    number(p).Some? && 0 <= number(p).value <= 255
  }

  function IpToInt(number: NumberOf, ip: string): (n: Option<nat>)
    ensures n.Some? ==> n.value < TWO_32
  {
    var parts := Split(ip, '.');
    if |parts| != 4 || exists i | 0 <= i < 4 :: !IsOctet(number, parts[i]) then None
    else
      assert forall i | 0 <= i < 4 :: IsOctet(number, parts[i]);
      Some(((number(parts[0]).value * 256 + number(parts[1]).value) * 256 + number(parts[2]).value) * 256
           + number(parts[3]).value)
  }

  /** The first k parts of an address, as the loop accumulates them. */
  function Accumulated(number: NumberOf, parts: seq<string>, k: nat): nat
    requires k <= |parts| && forall i | 0 <= i < k :: IsOctet(number, parts[i])
  {
    if k == 0 then 0
    else
      assert IsOctet(number, parts[k - 1]);
      Accumulated(number, parts, k - 1) * 256 + number(parts[k - 1]).value
  }

  /** ipToInt as it is written. */
  method IpToIntLoop(number: NumberOf, ip: string) returns (r: Option<nat>)
    ensures r == IpToInt(number, ip)
    ensures var parts := Split(ip, '.');
            && (r.Some? <==> |parts| == 4 && forall i | 0 <= i < 4 ::
                  number(parts[i]).Some? && 0 <= number(parts[i]).value <= 255)
            && (r.Some? ==>
                  r.value == number(parts[0]).value * 16777216 + number(parts[1]).value * 65536
                             + number(parts[2]).value * 256 + number(parts[3]).value)
  {
    var parts := Split(ip, '.');
    if |parts| != 4 { return None; }
    var n := 0;
    for k := 0 to 4
      invariant forall i | 0 <= i < k :: IsOctet(number, parts[i])
      invariant n == Accumulated(number, parts, k)
    {
      var v := number(parts[k]);
      if v.None? || v.value < 0 || v.value > 255 {
        assert !IsOctet(number, parts[k]);
        return None;
      }
      n := n * 256 + v.value;
    }
    assert IsOctet(number, parts[0]) && IsOctet(number, parts[1]);
    assert IsOctet(number, parts[2]) && IsOctet(number, parts[3]);
    assert Accumulated(number, parts, 1) == number(parts[0]).value;
    assert Accumulated(number, parts, 2) == number(parts[0]).value * 256 + number(parts[1]).value;
    assert Accumulated(number, parts, 3)
        == (number(parts[0]).value * 256 + number(parts[1]).value) * 256 + number(parts[2]).value;
    return Some(n);
  }

  function Octet(n: nat, bytes: nat): nat { BitAnd(ShiftRight(n, bytes), 255) }

  function IntToIp(n: nat): string {
    Join([NatText(Octet(n, 3)), NatText(Octet(n, 2)), NatText(Octet(n, 1)), NatText(Octet(n, 0))], '.')
  }

  // -------------------------------------------------------------- bits and blocks

  /** The low h bits, and the rest. */
  function Low(g: nat, h: nat): nat { if h == 0 then 0 else g % 2 + 2 * Low(g / 2, h - 1) }

  function High(g: nat, h: nat): nat { if h == 0 then g else High(g / 2, h - 1) }

  lemma {:induction false} LowHigh(g: nat, h: nat)
    ensures Low(g, h) < Pow2(h)
    ensures g == Low(g, h) + Scaled(High(g, h), h)
    decreases h
  {
    if h > 0 { LowHigh(g / 2, h - 1); }
  }

  /** q * 2^h. */
  function Scaled(q: nat, h: nat): nat { if h == 0 then q else 2 * Scaled(q, h - 1) }

  lemma {:induction false} ScaledIs(q: nat, h: nat)
    ensures Scaled(q, h) == q * Pow2(h)
  {
    if h > 0 { ScaledIs(q, h - 1); }
  }

  lemma {:induction false} AndLowMask(g: nat, k: nat)
    ensures Pow2(k) >= 1 && BitAnd(g, Pow2(k) - 1) == Low(g, k)
    decreases k
  {
    if k > 0 {
      AndLowMask(g / 2, k - 1);
      OddMask(Pow2(k - 1));
      if g == 0 { ZeroLow(k); }
    }
  }

  /** 2 * ones - 1 is one more 1 after ones - 1. */
  lemma OddMask(ones: nat)
    requires ones >= 1
    ensures (2 * ones - 1) % 2 == 1 && (2 * ones - 1) / 2 == ones - 1
  {}

  lemma {:induction false} ZeroLow(k: nat)
    ensures Low(0, k) == 0
  {
    if k > 0 { ZeroLow(k - 1); }
  }

  lemma {:induction false} SmallIsLow(g: nat, w: nat)
    requires g < Pow2(w)
    ensures Low(g, w) == g
    decreases w
  {
    if w > 0 { SmallIsLow(g / 2, w - 1); }
  }

  lemma {:induction false} Pow2Grows(h: nat, w: nat)
    requires h <= w
    ensures 1 <= Pow2(h) <= Pow2(w)
  {
    if h < w { Pow2Grows(h, w - 1); } else if h > 0 { Pow2Grows(h - 1, h - 1); }
  }

  lemma AndEven(g: nat, m: nat)
    ensures BitAnd(g, 2 * m) == 2 * BitAnd(g / 2, m)
  {}

  /** g & (w ones with the last h cleared) clears g's low h bits. */
  lemma {:induction false} AndHighMask(g: nat, h: nat, w: nat)
    requires h <= w && g < Pow2(w)
    ensures Pow2(h) <= Pow2(w) && BitAnd(g, Pow2(w) - Pow2(h)) == g - Low(g, h)
    decreases h
  {
    hide BitAnd;
    Pow2Grows(h, w);
    LowHigh(g, h);
    if h == 0 {
      AndLowMask(g, w);
      SmallIsLow(g, w);
    } else {
      AndHighMask(g / 2, h - 1, w - 1);
      AndEven(g, Pow2(w - 1) - Pow2(h - 1));
    }
  }

  lemma OrStep(a: nat, ones: nat)
    requires ones >= 1
    ensures BitOr(2 * a, 2 * ones - 1) == 1 + 2 * BitOr(a, ones - 1)
  {
    OddMask(ones);
    assert 2 * a % 2 == 0 && 2 * a / 2 == a;
  }

  /** A block's start with every host bit set is its end. */
  lemma {:induction false} OrHostBits(q: nat, h: nat)
    ensures Pow2(h) >= 1 && BitOr(Scaled(q, h), Pow2(h) - 1) == Scaled(q, h) + (Pow2(h) - 1)
    decreases h
  {
    if h > 0 {
      OrHostBits(q, h - 1);
      OrStep(Scaled(q, h - 1), Pow2(h - 1));
    }
  }

  lemma {:induction false} MaskIs(h: nat)
    requires h <= 32
    ensures Pow2(32) == TWO_32 && 1 <= Pow2(h) <= TWO_32
    ensures h < 32 ==> Doubled(TWO_32 - 1, h) == TWO_32 - Pow2(h)
  {
    assert Pow2(8) == 256;
    assert Pow2(16) == 65536;
    assert Pow2(24) == 16777216;
    assert Pow2(32) == TWO_32;
    Pow2Grows(h, 32);
    if 0 < h { MaskIs(h - 1); }
  }

  // -------------------------------------------------------------------- the plan

  datatype Plan = Plan(network: nat, broadcast: nat, poolStart: nat, poolEnd: nat)

  datatype TextPlan = TextPlan(
    network: string,
    broadcast: string,
    poolStart: string,
    poolEnd: string,
    hotspotNetwork: string)

  function HostBits(prefix: int): nat { if prefix == 0 then 32 else (32 - prefix) % 32 }

  function Mask(prefix: int): (m: nat)
    ensures m < TWO_32
  {
    if prefix == 0 then 0 else ShiftLeft(0xffff_ffff, 32 - prefix)
  }

  /** The masks cut the addresses into blocks of 2^h: the network and broadcast addresses
      are the first and last of the gateway's block. */
  lemma Block(gw: nat, prefix: int)
    requires gw < TWO_32
    ensures var h := HostBits(prefix);
            var network := BitAnd(gw, Mask(prefix));
            && network == Scaled(High(gw, h), h)
            && BitOr(network, BitNot(Mask(prefix))) == network + (Pow2(h) - 1) < TWO_32
            && network <= gw <= network + (Pow2(h) - 1)
  {
    hide BitAnd, BitOr, Low, High, Scaled, Pow2;
    var h := HostBits(prefix);
    MaskIs(h);
    assert Mask(prefix) == TWO_32 - Pow2(h) by { MaskIs(32); }
    AndHighMask(gw, h, 32);
    LowHigh(gw, h);
    OrHostBits(High(gw, h), h);
    BlockFits(gw, h, 32);
  }

  lemma {:induction false} BlockFits(g: nat, h: nat, w: nat)
    requires h <= w && g < Pow2(w)
    ensures Scaled(High(g, h), h) + Pow2(h) <= Pow2(w)
    decreases h
  {
    if h > 0 { BlockFits(g / 2, h - 1, w - 1); }
  }

  function PlanOf(gw: nat, prefix: int): Option<Plan>
    requires gw < TWO_32
  {
    Block(gw, prefix);
    var mask := Mask(prefix);
    var network := BitAnd(gw, mask);
    var broadcast := BitOr(network, BitNot(mask));
    if gw == network || gw == broadcast then None
    else Some(Plan(network, broadcast, if gw + 1 < broadcast - 1 then gw + 1 else broadcast - 1, broadcast - 1))
  }

  function SubnetPlan(number: NumberOf, gateway: string, prefix: int, prefixText: string): Option<TextPlan> {
    var gw := IpToInt(number, gateway);
    if gw.None? then None
    else
      var p := PlanOf(gw.value, prefix);
      if p.None? then None
      else Some(TextPlan(IntToIp(p.value.network), IntToIp(p.value.broadcast), IntToIp(p.value.poolStart),
                         IntToIp(p.value.poolEnd), IntToIp(p.value.network) + "/" + prefixText))
  }

  /** When there is a plan, for any gateway and any whole prefix: network and broadcast
      are 2^h - 1 apart with the gateway strictly between, and the pool is a non-empty
      range strictly between them, after the gateway, or the gateway alone when it is the
      last host. There is none exactly when the gateway is an end of its block. */
  lemma PlanIsSound(gw: nat, prefix: int)
    requires gw < TWO_32
    ensures var h := HostBits(prefix);
            var start := Scaled(High(gw, h), h);
            && (PlanOf(gw, prefix).None? <==> gw == start || gw == start + (Pow2(h) - 1))
            && (PlanOf(gw, prefix).Some? ==>
                  var p := PlanOf(gw, prefix).value;
                  && p.network == start && p.broadcast - p.network == Pow2(h) - 1
                  && p.network < gw < p.broadcast < TWO_32
                  && p.network < p.poolStart <= p.poolEnd == p.broadcast - 1
                  && (p.poolStart <= gw <= p.poolEnd <==> gw == p.broadcast - 1)
                  && p.poolStart == (if gw == p.poolEnd then gw else gw + 1))
  {
    Block(gw, prefix);
  }

  lemma Doubles(k: nat)
    ensures Pow2(0) == 1 && Pow2(k + 1) == 2 * Pow2(k)
  {}

  /** The plan in plain numbers, for a prefix of 0 to 32: the gateway's block is the q-th of those of
      2^(32 - prefix) addresses, its first address the network and its last the broadcast address;
      the pool goes from the address after the gateway to the last host, or is that host alone. */
  lemma PlanInNumbers(gw: nat, prefix: nat) returns (q: nat)
    requires gw < 0x1_0000_0000 && prefix <= 32
    ensures var size := Pow2(32 - prefix);
            var start := q * size;
            && start <= gw <= start + (size - 1)
            && PlanOf(gw, prefix) ==
               if gw == start || gw == start + (size - 1) then None
               else Some(Plan(start, start + size - 1,
                              if gw + 1 < start + size - 2 then gw + 1 else start + size - 2, start + size - 2))
  {
    hide PlanOf, Pow2, Scaled, High, Low;
    var h: nat := 32 - prefix;
    assert HostBits(prefix) == h;
    PlanIsSound(gw, prefix);
    LowHigh(gw, h);
    q := High(gw, h);
    ScaledIs(q, h);
  }

  /** hostsInSubnet. */
  function HostsInSubnet(prefix: nat): int
    requires prefix <= 32
  {
    Pow2(32 - prefix) - 2
  }

  /** The hosts the page promises for a prefix are the addresses strictly inside the block;
      the pool has as many as lie after the gateway, and at least one. */
  lemma HostsAreInsideTheBlock(gw: nat, prefix: nat)
    requires gw < TWO_32 && prefix <= 32 && PlanOf(gw, prefix).Some?
    ensures var p := PlanOf(gw, prefix).value;
            && HostsInSubnet(prefix) == p.broadcast - p.network - 1 >= 1
            && p.poolEnd - p.poolStart + 1 == (if gw == p.poolEnd then 1 else p.poolEnd - gw)
  {
    hide PlanOf, Pow2, Scaled, High;
    assert HostBits(prefix) == 32 - prefix;
    PlanIsSound(gw, prefix);
  }

  lemma NoPlanWithoutHosts(gw: nat, prefix: int)
    requires gw < TWO_32 && 31 <= prefix <= 32
    ensures PlanOf(gw, prefix).None?
  {
    hide PlanOf;
    PlanIsSound(gw, prefix);
    LowHigh(gw, HostBits(prefix));
    assert Pow2(1) == 2 && Pow2(0) == 1;
  }

  lemma FirstHostHasAPlan(prefix: int)
    requires 0 <= prefix <= 30
    ensures PlanOf(1, prefix).Some?
  {
    hide PlanOf;
    var h := HostBits(prefix);
    PlanIsSound(1, prefix);
    Pow2Grows(2, h);
    assert Pow2(2) == 4;
    OneIsLow(h);
  }

  /** No gateway has a plan in a /31 or a /32; in any other prefix from /0 to /30 some has. */
  lemma PlansNeedTwoHostBits(prefix: int)
    requires 0 <= prefix <= 32
    ensures (forall gw: nat | gw < TWO_32 :: PlanOf(gw, prefix).None?) <==> prefix >= 31
  {
    hide PlanOf;
    forall gw: nat | gw < TWO_32 && prefix >= 31 ensures PlanOf(gw, prefix).None? {
      NoPlanWithoutHosts(gw, prefix);
    }
    if prefix <= 30 { FirstHostHasAPlan(prefix); }
  }

  lemma OneIsLow(h: nat)
    requires h >= 2
    ensures Scaled(High(1, h), h) == 0
  {
    Pow2Grows(2, h);
    assert Pow2(2) == 4;
    SmallIsLow(1, h);
    LowHigh(1, h);
  }

  // ------------------------------------------------------------------ round trip

  lemma OctetIs(n: nat, bytes: nat)
    ensures Octet(n, bytes) == ShiftRight(n, bytes) % 256
  {
    var x := ShiftRight(n, bytes);
    AndLowMask(x, 8);
    assert Pow2(8) == 256;
    LowEight(x);
  }

  lemma LowEight(x: nat)
    ensures Low(x, 8) == x % 256
  {
    LowHigh(x, 8);
    var q := High(x, 8);
    assert Pow2(8) == 256;
    ScaledIs(q, 8);
  }

  /** The most significant byte is written first. */
  lemma AddressText(a: nat, b: nat, c: nat, d: nat)
    requires a < 256 && b < 256 && c < 256 && d < 256
    ensures IntToIp(a * 16777216 + b * 65536 + c * 256 + d)
            == NatText(a) + "." + NatText(b) + "." + NatText(c) + "." + NatText(d)
  {
    OctetsOf(a, b, c, d);
    hide NatText, Octet, Join;
    JoinFour(NatText(a), NatText(b), NatText(c), NatText(d));
  }

  lemma OctetsOf(a: nat, b: nat, c: nat, d: nat)
    requires a < 256 && b < 256 && c < 256 && d < 256
    ensures var n := a * 16777216 + b * 65536 + c * 256 + d;
            Octet(n, 3) == a && Octet(n, 2) == b && Octet(n, 1) == c && Octet(n, 0) == d
  {
    hide Octet;
    var n := a * 16777216 + b * 65536 + c * 256 + d;
    OctetIs(n, 0); OctetIs(n, 1); OctetIs(n, 2); OctetIs(n, 3);
    assert ShiftRight(n, 1) == a * 65536 + b * 256 + c;
    assert ShiftRight(n, 2) == a * 256 + b;
    assert ShiftRight(n, 3) == a;
  }

  lemma JoinFour(a: string, b: string, c: string, d: string)
    ensures Join([a, b, c, d], '.') == a + "." + b + "." + c + "." + d
  {
    assert [a, b, c, d][1..] == [b, c, d] && [b, c, d][1..] == [c, d] && [c, d][1..] == [d];
    assert Join([c, d], '.') == c + "." + d;
    assert Join([b, c, d], '.') == b + "." + (c + "." + d);
    assert a + "." + (b + "." + (c + "." + d)) == a + "." + b + "." + c + "." + d;
  }

  /** Every 32-bit address survives being written and read. */
  lemma AddressRoundTrip(number: NumberOf, n: nat)
    requires ReadsOctets(number) && n < 0x1_0000_0000
    ensures IpToInt(number, IntToIp(n)) == Some(n)
  {
    hide IpToInt, NatText, Join, Octet, ShiftRight;
    OctetIs(n, 0); OctetIs(n, 1); OctetIs(n, 2); OctetIs(n, 3);
    var a, b, c, d := Octet(n, 3), Octet(n, 2), Octet(n, 1), Octet(n, 0);
    FourParts(number, NatText(a), NatText(b), NatText(c), NatText(d), a, b, c, d);
    OctetsAddUp(n);
  }

  lemma FourParts(number: NumberOf, pa: string, pb: string, pc: string, pd: string, a: nat, b: nat, c: nat, d: nat)
    requires AllDigits(pa) && AllDigits(pb) && AllDigits(pc) && AllDigits(pd)
    requires number(pa) == Some(a) && number(pb) == Some(b) && number(pc) == Some(c) && number(pd) == Some(d)
    requires a < 256 && b < 256 && c < 256 && d < 256
    ensures IpToInt(number, Join([pa, pb, pc, pd], '.')) == Some(((a * 256 + b) * 256 + c) * 256 + d)
  {
    hide Join, Split;
    DigitsHaveNoDot(pa); DigitsHaveNoDot(pb); DigitsHaveNoDot(pc); DigitsHaveNoDot(pd);
    SplitJoin([pa, pb, pc, pd], '.');
  }

  lemma DigitsHaveNoDot(s: string)
    requires AllDigits(s)
    ensures '.' !in s
  {}

  lemma OctetsAddUp(n: nat)
    requires n < TWO_32
    ensures ShiftRight(n, 0) == n && ShiftRight(n, 1) == n / 256
    ensures ShiftRight(n, 2) == n / 256 / 256 && ShiftRight(n, 3) == n / 256 / 256 / 256
    ensures ((ShiftRight(n, 3) % 256 * 256 + ShiftRight(n, 2) % 256) * 256 + ShiftRight(n, 1) % 256) * 256
            + n % 256 == n
  {}

  /** The page shows a plan exactly when the gateway is an address that has one, and what
      it shows reads back as the plan that was computed. */
  lemma ShownPlanIsThePlan(number: NumberOf, gateway: string, prefix: int, prefixText: string)
    requires ReadsOctets(number)
    ensures var shown := SubnetPlan(number, gateway, prefix, prefixText);
            var gw := IpToInt(number, gateway);
            && (shown.Some? <==> gw.Some? && PlanOf(gw.value, prefix).Some?)
            && (shown.Some? ==>
                  var s, p := shown.value, PlanOf(gw.value, prefix).value;
                  && IpToInt(number, s.network) == Some(p.network)
                  && IpToInt(number, s.broadcast) == Some(p.broadcast)
                  && IpToInt(number, s.poolStart) == Some(p.poolStart)
                  && IpToInt(number, s.poolEnd) == Some(p.poolEnd)
                  && s.hotspotNetwork == s.network + "/" + prefixText)
  {
    hide IpToInt, IntToIp, PlanOf;
    var gw := IpToInt(number, gateway);
    if gw.Some? && PlanOf(gw.value, prefix).Some? {
      PlanIsSound(gw.value, prefix);
      var p := PlanOf(gw.value, prefix).value;
      AddressRoundTrip(number, p.network); AddressRoundTrip(number, p.broadcast);
      AddressRoundTrip(number, p.poolStart); AddressRoundTrip(number, p.poolEnd);
    }
  }
}
