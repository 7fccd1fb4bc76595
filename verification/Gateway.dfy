/** The gateway of a subnet, which the controller, the daemon and the CNI plugin
    each compute for themselves. */
module Gateway {
  import opened Collections
  import opened Text
  import opened Addresses

  type Byte = b: int | 0 <= b < 256

  /** `net.IP` and `net.IPMask`. */
  type Bytes = seq<Byte>

  // ----- Bytes and numbers

  /** `big.Int.SetBytes`: the big-endian value. */
  function Value(s: Bytes): nat {
    if s == [] then 0 else 256 * Value(s[..|s| - 1]) + s[|s| - 1]
  }

  /** `big.Int.Bytes`: the big-endian bytes without leading zeros. */
  function Minimal(n: nat): Bytes {
    if n == 0 then [] else Minimal(n / 256) + [n % 256]
  }

  /** The `n` low-order bytes of `v`. */
  function Fixed(v: nat, n: nat): (s: Bytes)
    ensures |s| == n
  {
    if n == 0 then [] else Fixed(v / 256, n - 1) + [v % 256]
  }

  lemma {:induction false} ValueOfMinimal(n: nat)
    ensures Value(Minimal(n)) == n
  {
    if n > 0 {
      ValueOfMinimal(n / 256);
      assert Minimal(n)[..|Minimal(n)| - 1] == Minimal(n / 256);
    }
  }

  lemma {:induction false} FixedOfValue(s: Bytes)
    ensures Fixed(Value(s), |s|) == s
  {
    if s != [] {
      FixedOfValue(s[..|s| - 1]);
    }
  }

  lemma {:induction false} ValueOfFixed(v: nat, n: nat)
    requires v < Pow2(8 * n)
    ensures Value(Fixed(v, n)) == v
  {
    if n > 0 {
      Pow2Step(8 * (n - 1));
      ValueOfFixed(v / 256, n - 1);
      assert Fixed(v, n)[..n - 1] == Fixed(v / 256, n - 1);
    }
  }

  lemma Pow2Step(n: nat)
    ensures Pow2(n + 8) == 256 * Pow2(n)
  {
    assert Pow2(n + 4) == 16 * Pow2(n) by {
      assert Pow2(n + 2) == 4 * Pow2(n);
    }
    assert Pow2(n + 6) == 4 * Pow2(n + 4);
  }

  /** No leading zeros are dropped exactly when the first of the bytes is not zero. */
  lemma {:induction false} MinimalLength(v: nat, n: nat)
    requires v < Pow2(8 * n)
    ensures |Minimal(v)| <= n
    ensures n > 0 ==> (|Minimal(v)| == n <==> v >= Pow2(8 * (n - 1)))
  {
    if n > 0 && v > 0 {
      Pow2Step(8 * (n - 1));
      MinimalLength(v / 256, n - 1);
      if n > 1 {
        Pow2Step(8 * (n - 2));
      }
    }
  }

  // ----- Masks

  /** Bitwise conjunction. */
  function And(a: nat, b: nat): (c: nat)
    ensures c <= a && c <= b
  {
    if a == 0 || b == 0 then 0 else 2 * And(a / 2, b / 2) + (if a % 2 == 1 && b % 2 == 1 then 1 else 0)
  }

  /** `v` with its `k` low-order bits cleared. */
  function Cleared(v: nat, k: nat): (c: nat)
    ensures c <= v
  {
    if k == 0 then v else 2 * Cleared(v / 2, k - 1)
  }

  lemma {:induction false} Pow2Grows(a: nat, b: nat)
    ensures Pow2(a + b) >= Pow2(b)
  {
    if a > 0 {
      Pow2Grows(a - 1, b);
    }
  }

  /** The number whose binary digits are `ones` ones and then `zeros` zeros. */
  function HighOnes(ones: nat, zeros: nat): nat {
    Pow2Grows(ones, zeros);
    Pow2(ones + zeros) - Pow2(zeros)
  }

  lemma {:induction false} AndEven(a: nat, b: nat)
    ensures And(a, 2 * b) == 2 * And(a / 2, b)
  {
    if a != 0 && b != 0 {
      assert 2 * b / 2 == b && 2 * b % 2 == 0;
    }
  }

  /** Conjunction with that number clears the low-order bits. */
  lemma {:induction false} AndClears(a: nat, ones: nat, zeros: nat)
    requires a < Pow2(ones + zeros)
    ensures And(a, HighOnes(ones, zeros)) == Cleared(a, zeros)
  {
    if zeros > 0 {
      assert HighOnes(ones, zeros) == 2 * HighOnes(ones, zeros - 1);
      AndClears(a / 2, ones, zeros - 1);
      AndEven(a, HighOnes(ones, zeros - 1));
    } else if ones > 0 {
      assert HighOnes(ones, 0) == 2 * HighOnes(ones - 1, 0) + 1;
      AndClears(a / 2, ones - 1, 0);
    }
  }

  /** The remainder of a number with last digit `d` in base `base`. */
  lemma SplitRemainder(v: nat, d: nat, base: nat, p: nat)
    requires d < base && p > 0
    ensures base * p > 0 && (base * v + d) % (base * p) == base * (v % p) + d
  {
    var q, r := v / p, v % p;
    assert base * v + d == base * p * q + (base * r + d) by {
      assert v == p * q + r;
      assert base * v == base * (p * q) + base * r;
    }
    assert base * r + d < base * p by {
      assert base * r <= base * (p - 1);
    }
    RemainderIs(base * v + d, base * p, q, base * r + d);
  }

  lemma NextMultiple(m: nat, a: nat, b: nat)
    requires a < b
    ensures m * a + m <= m * b
  {
    assert m * b == m * (a + 1) + m * (b - a - 1);
  }

  lemma DivisionIsUnique(m: nat, q: nat, r: nat, q': nat, r': nat)
    requires m * q + r == m * q' + r' && r < m && r' < m
    ensures q == q' && r == r'
  {
    if q < q' {
      NextMultiple(m, q, q');
    } else if q' < q {
      NextMultiple(m, q', q);
    }
  }

  lemma RemainderIs(n: nat, m: nat, q: nat, r: nat)
    requires n == m * q + r && r < m
    ensures n % m == r && n / m == q
  {
    var q', r' := n / m, n % m;
    DivisionIsUnique(m, q, r, q', r');
  }

  lemma HalfRemainder(a: nat, p: nat)
    requires p > 0
    ensures a % (2 * p) == 2 * (a / 2 % p) + a % 2
  {
    SplitRemainder(a / 2, a % 2, 2, p);
  }

  lemma {:induction false} ClearedIs(v: nat, k: nat)
    ensures Cleared(v, k) == v - v % Pow2(k)
  {
    if k > 0 {
      ClearedIs(v / 2, k - 1);
      HalfRemainder(v, Pow2(k - 1));
    }
  }

  /** One byte of `net.CIDRMask`. */
  function MaskByte(ones: nat): Byte
    requires ones <= 8
  {
    Pow2MaxByte(8 - ones);
    256 - Pow2(8 - ones)
  }

  lemma Pow2MaxByte(n: nat)
    requires n <= 8
    ensures Pow2(n) <= 256
  {
    Pow2Step(0);
    Pow2Grows(8 - n, n);
  }

  /** `net.CIDRMask(ones, 8 * n)`. */
  function CIDRMask(ones: nat, n: nat): (m: Bytes)
    requires ones <= 8 * n
    ensures |m| == n
  {
    if n == 0 then []
    else if ones <= 8 * (n - 1) then CIDRMask(ones, n - 1) + [MaskByte(0)]
    else CIDRMask(8 * (n - 1), n - 1) + [MaskByte(ones - 8 * (n - 1))]
  }

  function AndBytes(s: Bytes, m: Bytes): (r: Bytes)
    requires |s| == |m|
    ensures |r| == |s|
  {
    if s == [] then []
    else AndBytes(s[..|s| - 1], m[..|m| - 1]) + [And(s[|s| - 1], m[|m| - 1])]
  }

  /** How many of the leading ones fall on the first `n` bytes. */
  function Leading(ones: nat, n: nat): nat {
    if ones <= 8 * n then ones else 8 * n
  }

  /** The number that the bytes leave under a mask of `ones` ones. */
  function MaskedValue(s: Bytes, ones: nat): nat
    requires ones <= 8 * |s|
  {
    Value(AndBytes(s, CIDRMask(ones, |s|)))
  }

  lemma AndLastByte(s: Bytes, init: Bytes, last: Byte, ones: nat)
    requires s == init + [last] && ones <= 8 * |s|
    ensures var k := Leading(ones, |init|);
            AndBytes(s, CIDRMask(ones, |s|)) == AndBytes(init, CIDRMask(k, |init|)) + [And(last, MaskByte(ones - k))]
  {
    var m := CIDRMask(ones, |s|);
    assert m[..|init|] == CIDRMask(Leading(ones, |init|), |init|);
    assert s[..|init|] == init;
  }

  lemma MaskLastByte(s: Bytes, init: Bytes, last: Byte, ones: nat)
    requires s == init + [last] && ones <= 8 * |s|
    ensures var k := Leading(ones, |init|);
            MaskedValue(s, ones) == 256 * MaskedValue(init, k) + Cleared(last, 8 - (ones - k))
  {
    var k := Leading(ones, |init|);
    var masked := AndBytes(init, CIDRMask(k, |init|));
    AndLastByte(s, init, last, ones);
    ValueOfMasked(masked, last, ones - k);
  }

  lemma ValueOfMasked(masked: Bytes, last: Byte, ones: nat)
    requires ones <= 8
    ensures Value(masked + [And(last, MaskByte(ones))]) == 256 * Value(masked) + Cleared(last, 8 - ones)
  {
    MaskedByte(last, ones);
    ValueStep(masked, And(last, MaskByte(ones)));
  }

  lemma ValueStep(init: Bytes, last: Byte)
    ensures Value(init + [last]) == 256 * Value(init) + last
  {
    assert (init + [last])[..|init|] == init;
  }

  lemma MaskStep(init: Bytes, last: Byte, ones: nat, k: nat)
    requires ones <= 8 * (|init| + 1) && k == Leading(ones, |init|)
    requires MaskedValue(init, k) == Cleared(Value(init), 8 * |init| - k)
    ensures MaskedValue(init + [last], ones) == Cleared(Value(init + [last]), 8 * (|init| + 1) - ones)
  {
    MaskLastByte(init + [last], init, last, ones);
    HostPart(Value(init), last, ones, |init|);
    ValueStep(init, last);
  }

  /** Masking byte by byte clears the host part of the whole number. */
  lemma {:induction false} MaskClears(s: Bytes, ones: nat)
    requires ones <= 8 * |s|
    ensures MaskedValue(s, ones) == Cleared(Value(s), 8 * |s| - ones)
  {
    if s != [] {
      var init, last := s[..|s| - 1], s[|s| - 1];
      assert s == init + [last];
      var k := Leading(ones, |init|);
      MaskClears(init, k);
      MaskStep(init, last, ones, k);
    }
  }

  lemma HostPart(v: nat, b: Byte, ones: nat, n: nat)
    requires ones <= 8 * (n + 1)
    ensures var k := Leading(ones, n);
            256 * Cleared(v, 8 * n - k) + Cleared(b, 8 - (ones - k)) == Cleared(256 * v + b, 8 * (n + 1) - ones)
  {
    if ones <= 8 * n {
      ClearedByte(0, b, 0);
      ClearedByte(v, b, 8 * n - ones);
    } else {
      ClearedBits(v, b, 8 * (n + 1) - ones);
    }
  }

  lemma ClearedByte(v: nat, b: Byte, k: nat)
    ensures Cleared(256 * v + b, k + 8) == 256 * Cleared(v, k)
  {
    ClearedIs(v, k);
    ClearedIs(256 * v + b, k + 8);
    Pow2Step(k);
    SplitRemainder(v, b, 256, Pow2(k));
  }

  lemma ClearedBits(v: nat, b: Byte, k: nat)
    requires k <= 8
    ensures Cleared(256 * v + b, k) == 256 * v + Cleared(b, k)
  {
    ClearedIs(b, k);
    ClearedIs(256 * v + b, k);
    LowRemainder(v, b, k);
  }

  lemma MaskedByte(b: Byte, ones: nat)
    requires ones <= 8
    ensures And(b, MaskByte(ones)) == Cleared(b, 8 - ones)
  {
    Pow2Step(0);
    assert MaskByte(ones) == HighOnes(ones, 8 - ones);
    AndClears(b, ones, 8 - ones);
  }

  lemma LowRemainder(v: nat, b: Byte, k: nat)
    requires k <= 8
    ensures (256 * v + b) % Pow2(k) == b % Pow2(k)
  {
    Pow2Sum(k, 8 - k);
    Pow2Step(0);
    MultipleAdded(v, b, Pow2(k), Pow2(8 - k));
  }

  lemma MultipleAdded(v: nat, b: nat, p: nat, q: nat)
    requires p > 0
    ensures (p * q * v + b) % p == b % p
  {
    var d, r := b / p, b % p;
    assert p * q * v + p * d + r == p * (q * v + d) + r;
    RemainderIs(p * q * v + b, p, q * v + d, r);
  }

  lemma {:induction false} Pow2Sum(a: nat, b: nat)
    ensures Pow2(a + b) == Pow2(a) * Pow2(b)
  {
    if a > 0 {
      Pow2Sum(a - 1, b);
    }
  }

  // ----- The library functions on addresses

  const V4_PREFIX: Bytes := [0, 0, 0, 0, 0, 0, 0, 0, 0, 0, 0xff, 0xff]

  /** The four-byte form of an address. */
  function FourBytes(ip: Ip): (s: Bytes)
    ensures |s| == 4
  {
    Fixed(ip, 4)
  }

  /** `IP.To4`. */
  function To4(ip: Bytes): Option<Bytes> {
    if |ip| == 4 then Some(ip)
    else if |ip| == 16 && ip[..12] == V4_PREFIX then Some(ip[12..])
    else None
  }

  /** `IP.Mask`, with its two conversions between four and sixteen bytes. */
  function Mask(ip: Bytes, mask: Bytes): Bytes {
    var m := if |mask| == 16 && |ip| == 4 && (forall i :: 0 <= i < 12 ==> mask[i] == 0xff)
             then mask[12..] else mask;
    var a := if |m| == 4 && |ip| == 16 && ip[..12] == V4_PREFIX then ip[12..] else ip;
    if |a| == |m| then AndBytes(a, m) else []
  }

  /** `ip.NextIP`: goes through a big integer and back. */
  function NextIP(ip: Bytes): Bytes {
    var v := if To4(ip).Some? then Value(To4(ip).value)
             else if |ip| == 16 then Value(ip) else 0;
    Minimal(v + 1)
  }

  function HexDigit(n: nat): char
    requires n < 16
  {
    if n < 10 then Digit(n) else 'a' + (n - 10) as char
  }

  function Hex(s: Bytes): string {
    if s == [] then "" else Hex(s[..|s| - 1]) + [HexDigit(s[|s| - 1] / 16), HexDigit(s[|s| - 1] % 16)]
  }

  /** `IP.String` of anything but sixteen bytes. */
  function IPString(ip: Bytes): string
    requires |ip| != 16
  {
    if |ip| == 0 then "<nil>"
    else if |ip| == 4 then Join([NatText(ip[0]), NatText(ip[1]), NatText(ip[2]), NatText(ip[3])], '.')
    else "?" + Hex(ip)
  }

  /** `net.ParseCIDR`, which also returns the subnet: its address is masked and four bytes long. */
  function ParseSubnet(s: string): Option<(Bytes, Bytes)> {
    match ParseCIDR(s)
    case None => None
    case Some(c) =>
      var mask := CIDRMask(c.len, 4);
      Some((Mask(FourBytes(c.addr), mask), mask))
  }

  // ----- The three computations

  /** `NewController`. */
  function ControllerGateway(podCIDR: string): (r: Option<string>) {
    match ParseSubnet(podCIDR)
    case None => None
    case Some((ip, mask)) =>
      var gw := NextIP(Mask(ip, mask));
      if |gw| == 16 then None else Some(IPString(gw))
  }

  /** `netlinkAddrForLocal`: address and mask. */
  function DaemonGateway(podCIDR: string): Option<(Bytes, Bytes)> {
    match ParseSubnet(podCIDR)
    case None => None
    case Some((ip, mask)) => Some((NextIP(Mask(ip, mask)), mask))
  }

  /** `calcGatewayIP`, of the address and mask that were assigned to a pod. */
  function PluginGateway(ip: Bytes, mask: Bytes): Bytes {
    NextIP(Mask(ip, mask))
  }

  // ----- What they compute

  /** The first address of the block. */
  function NetworkAddress(c: Cidr): (a: Ip)
    requires c.Valid()
  {
    Cleared(c.addr, 32 - c.len)
  }

  predicate IsForm(s: Bytes, ip: Ip) {
    To4(s) == Some(FourBytes(ip))
  }

  lemma Pow2Words()
    ensures Pow2(24) == 0x100_0000 && Pow2(32) == 0x1_0000_0000 && Pow2(40) == 0x100_0000_0000
  {
    Pow2Step(0);
    Pow2Step(8);
    Pow2Step(16);
    Pow2Step(24);
    Pow2Step(32);
  }

  lemma FourBytesValue(ip: Ip)
    ensures Value(FourBytes(ip)) == ip
  {
    Pow2Words();
    ValueOfFixed(ip, 4);
  }

  /** Masking picks the four bytes of an address, whichever form it has. */
  lemma MaskOfForm(s: Bytes, ip: Ip, m: Bytes)
    requires IsForm(s, ip) && |m| == 4
    ensures Mask(s, m) == AndBytes(FourBytes(ip), m)
  {
  }

  /** Any address of a block, in four or sixteen bytes, masks to the block's first address. */
  lemma MaskIsNetwork(s: Bytes, ip: Ip, c: Cidr)
    requires c.Valid() && IsForm(s, ip) && c.Contains(ip)
    ensures Mask(s, CIDRMask(c.len, 4)) == FourBytes(NetworkAddress(c))
  {
    var m := CIDRMask(c.len, 4);
    MaskOfForm(s, ip, m);
    FourBytesValue(ip);
    MaskClears(FourBytes(ip), c.len);
    SameBlock(ip, c);
    FixedOfValue(AndBytes(FourBytes(ip), m));
  }

  lemma QuotientTimes(a: nat, p: nat)
    requires p > 0
    ensures a - a % p == p * (a / p)
  {
  }

  lemma SameQuotient(a: nat, b: nat, p: nat)
    requires p > 0 && a / p == b / p
    ensures a - a % p == b - b % p
  {
    assert a - a % p == p * (a / p);
    assert b - b % p == p * (b / p);
  }

  lemma SameBlock(ip: Ip, c: Cidr)
    requires c.Valid() && c.Contains(ip)
    ensures Cleared(ip, 32 - c.len) == NetworkAddress(c)
  {
    ClearedIs(ip, 32 - c.len);
    ClearedIs(c.addr, 32 - c.len);
    SameQuotient(ip, c.addr, c.Size());
  }

  /** A block is the range of addresses from its first one on. */
  lemma BlockIsRange(c: Cidr, ip: Ip)
    requires c.Valid()
    ensures c.Contains(ip) <==> NetworkAddress(c) <= ip < NetworkAddress(c) + c.Size()
  {
    var p, q := c.Size(), c.addr / c.Size();
    ClearedIs(c.addr, 32 - c.len);
    QuotientTimes(c.addr, p);
    QuotientTimes(ip, p);
    if NetworkAddress(c) <= ip < NetworkAddress(c) + p {
      RemainderIs(ip, p, q, ip - p * q);
    }
  }

  lemma NetworkIsInside(c: Cidr)
    requires c.Valid()
    ensures c.Contains(NetworkAddress(c))
  {
    var p := c.Size();
    ClearedIs(c.addr, 32 - c.len);
    QuotientTimes(c.addr, p);
    RemainderIs(NetworkAddress(c), p, c.addr / p, 0);
  }

  lemma NextOfForm(s: Bytes, ip: Ip)
    requires IsForm(s, ip)
    ensures NextIP(s) == Minimal(ip + 1) && |NextIP(s)| <= 5
  {
    FourBytesValue(ip);
    Pow2Words();
    MinimalLength(ip + 1, 5);
  }

  lemma SubnetParses(podCIDR: string)
    requires ParseCIDR(podCIDR).Some?
    ensures var c := ParseCIDR(podCIDR).value; var m := CIDRMask(c.len, 4);
            && ParseSubnet(podCIDR) == Some((FourBytes(NetworkAddress(c)), m))
            && Mask(FourBytes(NetworkAddress(c)), m) == FourBytes(NetworkAddress(c))
  {
    var c := ParseCIDR(podCIDR).value;
    MaskIsNetwork(FourBytes(c.addr), c.addr, c);
    NetworkIsInside(c);
    MaskIsNetwork(FourBytes(NetworkAddress(c)), NetworkAddress(c), c);
  }

  /** For every subnet and every address in it, the three computations give the same
      bytes: those of the network address plus one. */
  lemma GatewaysAgree(podCIDR: string, s: Bytes, ip: Ip)
    requires ParseCIDR(podCIDR).Some? && ParseCIDR(podCIDR).value.Contains(ip) && IsForm(s, ip)
    ensures var c := ParseCIDR(podCIDR).value;
            var gw := PluginGateway(s, CIDRMask(c.len, 4));
            && Value(gw) == NetworkAddress(c) + 1
            && DaemonGateway(podCIDR) == Some((gw, CIDRMask(c.len, 4)))
            && |gw| <= 5 && ControllerGateway(podCIDR) == Some(IPString(gw))
  {
    var c := ParseCIDR(podCIDR).value;
    MaskIsNetwork(s, ip, c);
    SubnetParses(podCIDR);
    NextOfForm(FourBytes(NetworkAddress(c)), NetworkAddress(c));
    ValueOfMinimal(NetworkAddress(c) + 1);
  }

  /** Block number `q` of `n` blocks of `p` addresses ends before the last block does. */
  lemma LastBlock(p: nat, q: nat, n: nat, a: nat)
    requires p > 0 && q == a / p && a < n * p
    ensures p * q + p <= n * p
  {
    if q >= n {
      if q > n { NextMultiple(p, n, q); }
    } else {
      NextMultiple(p, q, n);
    }
  }

  /** The second address of the block of `p` addresses that `a` is in. */
  lemma SecondAddress(a: nat, p: nat, n: nat)
    requires p >= 2 && a < n * p
    ensures (a - a % p + 1) / p == a / p && a - a % p + 1 < n * p
  {
    QuotientTimes(a, p);
    RemainderIs(p * (a / p) + 1, p, a / p, 1);
    LastBlock(p, a / p, n, a);
  }

  /** The gateway lies inside its subnet, without wrapping around, exactly when the
      subnet has room for two addresses. */
  lemma GatewayIsInsideIff(c: Cidr)
    requires c.Valid()
    ensures (NetworkAddress(c) + 1 < 0x1_0000_0000 && c.Contains(NetworkAddress(c) + 1)) <==> c.len <= 31
  {
    ClearedIs(c.addr, 32 - c.len);
    if c.len <= 31 {
      Pow2Words();
      Pow2Sum(c.len, 32 - c.len);
      assert c.Size() == 2 * Pow2(31 - c.len);
      SecondAddress(c.addr, c.Size(), Pow2(c.len));
    } else {
      assert c.Size() == 1;
    }
  }

  // ----- The gateway as text

  /** The gateway of a block, when it has four bytes. */
  function GatewayIn(c: Cidr): Option<Ip>
    requires c.Valid()
  {
    var gw := NetworkAddress(c) + 1;
    if 0x100_0000 <= gw < 0x1_0000_0000 then Some(gw) else None
  }

  /** The gateway of a pod CIDR, when it is an address. */
  function GatewayOf(podCIDR: string): Option<Ip> {
    match ParseCIDR(podCIDR)
    case None => None
    case Some(c) => GatewayIn(c)
  }

  /** A subnet contains a gateway that is an address exactly when it has room for one and
      the first octet is not zero. */
  lemma GatewayOfIsInsideIff(podCIDR: string)
    requires ParseCIDR(podCIDR).Some?
    ensures var c := ParseCIDR(podCIDR).value;
            GatewayOf(podCIDR).Some? && c.Contains(GatewayOf(podCIDR).value)
            <==> c.len <= 31 && NetworkAddress(c) + 1 >= 0x100_0000
  {
    GatewayIsInsideIff(ParseCIDR(podCIDR).value);
  }

  lemma GatewayOfIsInside(podCIDR: string, ip: Ip)
    requires GatewayOf(podCIDR) == Some(ip) && ParseCIDR(podCIDR).value.len <= 31
    ensures ParseCIDR(podCIDR).value.Contains(ip)
  {
    GatewayIsInsideIff(ParseCIDR(podCIDR).value);
  }

  /** For example, the gateway of 0.1.0.0/16 has a first octet of zero and gets lost, and
      255.255.255.255/32 has no next address in four bytes. */
  lemma NoGateway()
    ensures GatewayOf(CIDRText(Cidr(0x1_0000, 16))).None?
    ensures GatewayOf(CIDRText(Cidr(0xffff_ffff, 32))).None?
  {
    var low, last := Cidr(0x1_0000, 16), Cidr(0xffff_ffff, 32);
    ParseCIDRText(low);
    ParseCIDRText(last);
    assert NetworkAddress(low) <= 0x1_0000;
    assert Cleared(0xffff_ffff, 0) == 0xffff_ffff;
  }

  lemma NoDotsOrDigits(s: string, c: char)
    requires c in s && !IsDigit(c) && c != '.'
    ensures ParseIP(s).None?
  {
    if ParseIP(s).Some? {
      SplitKeeps(s, '.', c);
      var p := Split(s, '.');
      NumbersAreDigits(p[0]);
      NumbersAreDigits(p[1]);
      NumbersAreDigits(p[2]);
      NumbersAreDigits(p[3]);
      assert false;
    }
  }

  lemma QuestionIsNoBlock(s: string)
    requires '?' in s
    ensures ParseBlock(s).None?
  {
    NoDotsOrDigits(s, '?');
    if ParseCIDR(s).Some? {
      SplitKeeps(s, '/', '?');
      var p := Split(s, '/');
      NumbersAreDigits(p[1]);
      NoDotsOrDigits(p[0], '?');
      assert false;
    }
  }

  lemma IPStringOfForm(ip: Ip)
    ensures IPString(FourBytes(ip)) == IPText(ip)
  {
    assert ip / 256 / 256 == ip / 0x1_0000;
    assert ip / 256 / 256 / 256 == ip / 0x100_0000;
    assert ip / 0x100_0000 < 256;
    var s := FourBytes(ip);
    var h := ip / 256 / 256;
    assert Fixed(h, 2) == Fixed(h / 256, 1) + [h % 256] && Fixed(h / 256, 1) == Fixed(h / 256 / 256, 0) + [h / 256 % 256];
    assert Fixed(ip / 256, 3) == Fixed(h, 2) + [ip / 256 % 256];
    assert s == Fixed(ip / 256, 3) + [ip % 256];
  }

  // ----- Any assigned address, in either family

  lemma {:induction false} CIDRMaskAt(ones: nat, n: nat, i: nat)
    requires i < n && ones <= 8 * n
    ensures CIDRMask(ones, n)[i]
            == MaskByte(if ones <= 8 * i then 0 else if ones >= 8 * (i + 1) then 8 else ones - 8 * i)
  {
    if i < n - 1 {
      CIDRMaskAt(Leading(ones, n - 1), n - 1, i);
    }
  }

  lemma {:induction false} AndBytesAt(s: Bytes, m: Bytes, i: nat)
    requires i < |s| == |m|
    ensures AndBytes(s, m)[i] == And(s[i], m[i])
  {
    if i < |s| - 1 {
      AndBytesAt(s[..|s| - 1], m[..|m| - 1], i);
    }
  }

  lemma FullByte(b: Byte)
    ensures MaskByte(8) == 255 && And(b, 255) == b
  {
    Pow2Step(0);
    MaskedByte(b, 8);
  }

  lemma PartialByte(ones: nat)
    requires ones < 8
    ensures MaskByte(ones) < 255
  {
  }

  lemma KeptByte(s: Bytes, ones: nat, i: nat)
    requires i < |s| && 8 * (i + 1) <= ones <= 8 * |s|
    ensures AndBytes(s, CIDRMask(ones, |s|))[i] == s[i]
  {
    AndBytesAt(s, CIDRMask(ones, |s|), i);
    CIDRMaskAt(ones, |s|, i);
    FullByte(s[i]);
  }

  /** Masking never turns an IPv6 address into one of the four-byte form. */
  lemma SixteenStaysSixteen(s: Bytes, ones: nat)
    requires |s| == 16 && To4(s).None? && ones <= 128
    ensures To4(AndBytes(s, CIDRMask(ones, |s|))).None?
  {
    var masked := AndBytes(s, CIDRMask(ones, |s|));
    if ones >= 96 {
      forall i | 0 <= i < 12 ensures masked[i] == s[i] {
        KeptByte(s, ones, i);
      }
      assert masked[..12] == s[..12];
    } else {
      AndBytesAt(s, CIDRMask(ones, |s|), 11);
      CIDRMaskAt(ones, |s|, 11);
      PartialByte(if ones <= 88 then 0 else ones - 88);
      assert masked[..12][11] != V4_PREFIX[11];
    }
  }

  lemma NextOfSixteen(s: Bytes)
    requires |s| == 16 && To4(s).None?
    ensures NextIP(s) == Minimal(Value(s) + 1)
  {
  }

  lemma PluginOfSixteen(s: Bytes, m: Bytes)
    requires |s| == |m| == 16
    ensures PluginGateway(s, m) == NextIP(AndBytes(s, m))
  {
  }

  lemma PluginOfForm(s: Bytes, ip: Ip, ones: nat)
    requires IsForm(s, ip) && ones <= 32
    ensures PluginGateway(s, CIDRMask(ones, 4)) == NextIP(FourBytes(NetworkAddress(Cidr(ip, ones))))
  {
    MaskIsNetwork(s, ip, Cidr(ip, ones));
  }

  lemma NextOfNetwork(ip: Ip, ones: nat)
    requires ones <= 32
    ensures NextIP(FourBytes(NetworkAddress(Cidr(ip, ones)))) == Minimal(Cleared(ip, 32 - ones) + 1)
  {
    var network := NetworkAddress(Cidr(ip, ones));
    NextOfForm(FourBytes(network), network);
  }

  lemma NextOfMasked(masked: Bytes, v: nat)
    requires |masked| == 16 && To4(masked).None? && Value(masked) == v
    ensures NextIP(masked) == Minimal(v + 1)
  {
    NextOfSixteen(masked);
  }

  lemma MaskedGatewayV6(s: Bytes, ones: nat, k: nat, masked: Bytes)
    requires |s| == 16 && To4(s).None? && ones + k == 128 && masked == AndBytes(s, CIDRMask(ones, |s|))
    ensures NextIP(masked) == Minimal(Cleared(Value(s), k) + 1)
  {
    SixteenStaysSixteen(s, ones);
    MaskedIs(s, ones);
    NextOfMasked(masked, Cleared(Value(s), k));
  }

  lemma MaskedIs(s: Bytes, ones: nat)
    requires ones <= 8 * |s|
    ensures Value(AndBytes(s, CIDRMask(ones, |s|))) == Cleared(Value(s), 8 * |s| - ones)
  {
    MaskClears(s, ones);
  }

  lemma ValueOfMinimalBytes(s: Bytes, n: nat)
    requires s == Minimal(n)
    ensures Value(s) == n
  {
    ValueOfMinimal(n);
  }

  /** The plugin's gateway for an IPv4 address, in either form, and for an IPv6 address: the
      first address of the block that the mask leaves, plus one. */
  lemma PluginGatewayV4(s: Bytes, ip: Ip, ones: nat)
    requires IsForm(s, ip) && ones <= 32
    ensures Value(PluginGateway(s, CIDRMask(ones, 4))) == Cleared(ip, 32 - ones) + 1
  {
    PluginOfForm(s, ip, ones);
    NextOfNetwork(ip, ones);
    ValueOfMinimalBytes(PluginGateway(s, CIDRMask(ones, 4)), Cleared(ip, 32 - ones) + 1);
  }

  lemma PluginIsMinimal(s: Bytes, ones: nat, k: nat, mask: Bytes)
    requires |s| == 16 && To4(s).None? && ones + k == 128 && mask == CIDRMask(ones, |s|)
    ensures PluginGateway(s, mask) == Minimal(Cleared(Value(s), k) + 1)
  {
    PluginOfSixteen(s, mask);
    MaskedGatewayV6(s, ones, k, AndBytes(s, mask));
  }

  lemma MinimalGateway(s: Bytes, mask: Bytes, network: nat)
    requires PluginGateway(s, mask) == Minimal(network + 1)
    ensures Value(PluginGateway(s, mask)) == network + 1
  {
    ValueOfMinimal(network + 1);
  }

  lemma NetworkGateway(s: Bytes, mask: Bytes, k: nat)
    requires PluginGateway(s, mask) == Minimal(Cleared(Value(s), k) + 1)
    ensures Value(PluginGateway(s, mask)) == Cleared(Value(s), k) + 1
  {
    MinimalGateway(s, mask, Cleared(Value(s), k));
  }

  lemma PluginGatewayV6(s: Bytes, ones: nat, k: nat, mask: Bytes)
    requires |s| == 16 && To4(s).None? && ones + k == 128 && mask == CIDRMask(ones, |s|)
    ensures Value(PluginGateway(s, mask)) == Cleared(Value(s), k) + 1
  {
    PluginIsMinimal(s, ones, k, mask);
    NetworkGateway(s, mask, k);
  }

  lemma DivideDigits(v: nat, p: nat, q: nat, a: nat, r: nat, b: nat, t: nat)
    requires v == p * a + r && a == q * b + t && r < p && t < q
    ensures p * q > 0 && v / (p * q) == b
  {
    TwoDigits(p, q, b, t, r);
    RemainderIs(v, p * q, b, p * t + r);
  }

  lemma Quotient(v: nat, p: nat)
    requires p > 0
    ensures v == p * (v / p) + v % p && v % p < p
  {
  }

  /** `v / (p * q)` in two steps. */
  lemma DivideTwice(v: nat, p: nat, q: nat)
    requires p > 0 && q > 0
    ensures p * q > 0 && v / (p * q) == v / p / q
  {
    Quotient(v, p);
    Quotient(v / p, q);
    DivideDigits(v, p, q, v / p, v % p, v / p / q, v / p % q);
  }

  lemma TwoDigits(p: nat, q: nat, b: nat, t: nat, r: nat)
    requires p > 0 && t < q && r < p
    ensures p * q > 0 && p * (q * b + t) + r == p * q * b + (p * t + r) && p * t + r < p * q
  {
    NextMultiple(p, t, q);
  }

  /** The controller's gateway text is that address in dotted form, when it has one;
      leading zero bytes get lost on the way, and the text is marked as none otherwise. */
  lemma GatewayTextIs(podCIDR: string)
    requires ParseCIDR(podCIDR).Some?
    ensures ControllerGateway(podCIDR).Some?
    ensures var text := ControllerGateway(podCIDR).value;
            if GatewayOf(podCIDR).Some? then text == IPText(GatewayOf(podCIDR).value) else '?' in text
  {
    var c := ParseCIDR(podCIDR).value;
    var gw := NetworkAddress(c) + 1;
    SubnetParses(podCIDR);
    NextOfForm(FourBytes(NetworkAddress(c)), NetworkAddress(c));
    Pow2Words();
    MinimalLength(gw, 5);
    if gw < 0x1_0000_0000 {
      MinimalLength(gw, 4);
    }
    if GatewayOf(podCIDR).Some? {
      FixedOfValue(Minimal(gw));
      ValueOfMinimal(gw);
      assert Minimal(gw) == FourBytes(gw);
      IPStringOfForm(gw);
    } else {
      assert Minimal(gw) != [];
      assert ControllerGateway(podCIDR).value[0] == '?';
    }
  }

  /** Hence the text covers the gateway alone when that has a non-zero first octet, and
      otherwise no address at all. */
  lemma GatewayTextDenotes(podCIDR: string, ip: Ip)
    requires ParseCIDR(podCIDR).Some?
    ensures ControllerGateway(podCIDR).Some?
    ensures Covers(ControllerGateway(podCIDR).value, ip) <==> GatewayOf(podCIDR) == Some(ip)
  {
    GatewayTextIs(podCIDR);
    var text := ControllerGateway(podCIDR).value;
    if GatewayOf(podCIDR).Some? {
      ParseIPText(GatewayOf(podCIDR).value);
      AddressCovers(text, ip);
    } else {
      QuestionIsNoBlock(text);
    }
  }
}
