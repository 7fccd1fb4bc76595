/** IPv4 addresses and CIDR blocks in their textual and numeric forms. */
module Addresses {
  import opened Collections
  import opened Text

  type Ip = x: int | 0 <= x < 0x1_0000_0000

  function Pow2(n: nat): (p: nat)
    ensures p >= 1
  {
    if n == 0 then 1 else 2 * Pow2(n - 1)
  }

  datatype Cidr = Cidr(addr: Ip, len: nat) {
    predicate Valid() { len <= 32 }

    /** Number of addresses in the block. */
    function Size(): (n: nat)
      requires Valid()
      ensures n >= 1
    {
      Pow2(32 - len)
    }

    predicate Contains(ip: Ip)
      requires Valid()
    {
      ip / Size() == addr / Size()
    }
  }

  predicate IsOctet(s: string) {
    ReadNat(s).Some? && ReadNat(s).value <= 255
  }

  function Octet(s: string): (n: nat)
    requires IsOctet(s)
    ensures n <= 255
  {
    ReadNat(s).value
  }

  function FromOctets(a: nat, b: nat, c: nat, d: nat): Ip
    requires a <= 255 && b <= 255 && c <= 255 && d <= 255
  {
    0x100_0000 * a + 0x1_0000 * b + 0x100 * c + d
  }

  /** `net.ParseIP` on dotted-decimal text. */
  function ParseIP(s: string): Option<Ip> {
    var p := Split(s, '.');
    if |p| == 4 && IsOctet(p[0]) && IsOctet(p[1]) && IsOctet(p[2]) && IsOctet(p[3])
    then Some(FromOctets(Octet(p[0]), Octet(p[1]), Octet(p[2]), Octet(p[3])))
    else None
  }

  /** `net.ParseCIDR`: an address, a slash and a prefix length of at most 32. */
  function ParseCIDR(s: string): (c: Option<Cidr>)
    ensures c.Some? ==> c.value.Valid()
  {
    var p := Split(s, '/');
    if |p| == 2 && ParseIP(p[0]).Some? && ReadNat(p[1]).Some? && ReadNat(p[1]).value <= 32
    then Some(Cidr(ParseIP(p[0]).value, ReadNat(p[1]).value))
    else None
  }

  /** The address forms of an `nw_dst`, `nw_src` or `arp_tpa` match: a block, or a
      single address standing for the block of that address alone. */
  function ParseBlock(s: string): (c: Option<Cidr>)
    ensures c.Some? ==> c.value.Valid()
  {
    if ParseCIDR(s).Some? then ParseCIDR(s)
    else if ParseIP(s).Some? then Some(Cidr(ParseIP(s).value, 32))
    else None
  }

  /** Does the address text `s` cover `ip`? Text that is no address covers nothing. */
  predicate Covers(s: string, ip: Ip) {
    ParseBlock(s).Some? && ParseBlock(s).value.Contains(ip)
  }

  /** `IP.String` of a four-byte address. */
  function IPText(ip: Ip): string {
    Join([NatText(ip / 0x100_0000), NatText(ip / 0x1_0000 % 0x100),
          NatText(ip / 0x100 % 0x100), NatText(ip % 0x100)], '.')
  }

  lemma ParseIPText(ip: Ip)
    ensures ParseIP(IPText(ip)) == Some(ip)
  {
    OctetsOf(ip);
    JoinedOctets(ip / 0x100_0000, ip / 0x1_0000 % 0x100, ip / 0x100 % 0x100, ip % 0x100);
  }

  /** A block in the notation that `ParseCIDR` reads. */
  function CIDRText(c: Cidr): string {
    IPText(c.addr) + "/" + NatText(c.len)
  }

  lemma ParseCIDRText(c: Cidr)
    requires c.Valid()
    ensures ParseCIDR(CIDRText(c)) == Some(c)
  {
    JoinFree([NatText(c.addr / 0x100_0000), NatText(c.addr / 0x1_0000 % 0x100),
              NatText(c.addr / 0x100 % 0x100), NatText(c.addr % 0x100)], '.', '/');
    SplitFirst(IPText(c.addr), '/', NatText(c.len));
    SplitWhole(NatText(c.len), '/');
    ParseIPText(c.addr);
    ReadNatText(c.len);
  }

  lemma OctetsOf(ip: Ip)
    ensures ip / 0x100_0000 <= 255
    ensures ip == 0x100_0000 * (ip / 0x100_0000) + 0x1_0000 * (ip / 0x1_0000 % 0x100)
                  + 0x100 * (ip / 0x100 % 0x100) + ip % 0x100
  {
    assert ip / 0x1_0000 == ip / 0x100 / 0x100;
    assert ip / 0x100_0000 == ip / 0x1_0000 / 0x100;
  }

  lemma JoinedOctets(a: nat, b: nat, c: nat, d: nat)
    requires a <= 255 && b <= 255 && c <= 255 && d <= 255
    ensures ParseIP(Join([NatText(a), NatText(b), NatText(c), NatText(d)], '.'))
            == Some(FromOctets(a, b, c, d))
  {
    SplitJoin([NatText(a), NatText(b), NatText(c), NatText(d)], '.');
    ReadNatText(a);
    ReadNatText(b);
    ReadNatText(c);
    ReadNatText(d);
  }

  lemma JoinTwo(a: string, b: string, sep: char)
    ensures Join([a, b], sep) == a + [sep] + b
  {
    assert [a, b][1..] == [b];
  }

  lemma JoinFour(a: string, b: string, c: string, d: string, sep: char)
    ensures Join([a, b, c, d], sep) == a + [sep] + b + [sep] + c + [sep] + d
  {
    JoinTwo(c, d, sep);
    assert [a, b, c, d][1..] == [b, c, d] && [b, c, d][1..] == [c, d];
    assert Join([b, c, d], sep) == b + [sep] + Join([c, d], sep);
  }

  predicate IsJoined(s: string, a: string, b: string, c: string, d: string) {
    s == a + ['.'] + b + ['.'] + c + ['.'] + d
  }

  lemma JoinedIs(s: string, a: string, b: string, c: string, d: string)
    requires IsJoined(s, a, b, c, d)
    ensures s == Join([a, b, c, d], '.')
  {
    JoinFour(a, b, c, d, '.');
  }

  lemma Weights(a: nat, b: nat, c: nat, d: nat)
    requires a <= 255 && b <= 255 && c <= 255 && d <= 255
    ensures FromOctets(a, b, c, d) == 256 * (256 * (256 * a + b) + c) + d
  {
  }

  lemma ParseJoined(a: nat, b: nat, c: nat, d: nat, s: string, ip: int)
    requires a <= 255 && b <= 255 && c <= 255 && d <= 255
    requires s == Join([NatText(a), NatText(b), NatText(c), NatText(d)], '.')
    requires ip == FromOctets(a, b, c, d)
    ensures ParseIP(s) == Some(ip)
  {
    JoinedOctets(a, b, c, d);
  }

  /** The four numbers of an address, the most significant first. */
  lemma ParseDotted(a: nat, b: nat, c: nat, d: nat, s: string, ip: int)
    requires a <= 255 && b <= 255 && c <= 255 && d <= 255
    requires IsJoined(s, NatText(a), NatText(b), NatText(c), NatText(d))
    requires ip == 256 * (256 * (256 * a + b) + c) + d
    ensures ParseIP(s) == Some(ip)
  {
    JoinedIs(s, NatText(a), NatText(b), NatText(c), NatText(d));
    Weights(a, b, c, d);
    ParseJoined(a, b, c, d, s, ip);
  }

  lemma {:induction false} SplitKeeps(s: string, sep: char, other: char)
    requires sep != other && other in s
    ensures exists p :: p in Split(s, sep) && other in p
  {
    var rest := Split(s[1..], sep);
    if s[0] == other {
      assert Split(s, sep)[0] == [s[0]] + rest[0];
      assert other in Split(s, sep)[0];
    } else {
      SplitKeeps(s[1..], sep, other);
      var k :| 0 <= k < |rest| && other in rest[k];
      if s[0] == sep {
        assert Split(s, sep)[k + 1] == rest[k];
      } else if k == 0 {
        assert Split(s, sep)[0] == [s[0]] + rest[0];
        assert other in Split(s, sep)[0];
      } else {
        assert Split(s, sep)[k] == rest[k];
      }
    }
  }

  lemma {:induction false} NumbersAreDigits(s: string)
    requires ReadNat(s).Some?
    ensures forall c :: c in s ==> IsDigit(c)
  {
    if |s| > 1 {
      NumbersAreDigits(s[..|s| - 1]);
      assert s == s[..|s| - 1] + [s[|s| - 1]];
    }
  }

  /** An address has no slash, so no text is both an address and a block. */
  lemma AddressIsNoBlock(s: string)
    requires ParseIP(s).Some?
    ensures ParseCIDR(s).None?
  {
    if '/' in s {
      SplitKeeps(s, '.', '/');
      var p := Split(s, '.');
      NumbersAreDigits(p[0]);
      NumbersAreDigits(p[1]);
      NumbersAreDigits(p[2]);
      NumbersAreDigits(p[3]);
      assert false;
    } else {
      SplitWhole(s, '/');
    }
  }

  /** A single address covers itself and nothing else. */
  lemma AddressCovers(s: string, ip: Ip)
    requires ParseIP(s).Some?
    ensures Covers(s, ip) <==> ip == ParseIP(s).value
  {
    AddressIsNoBlock(s);
    assert Cidr(ParseIP(s).value, 32).Size() == 1;
  }

  lemma EmptyIsNoAddress()
    ensures ParseBlock("").None?
  {
    assert Split("", '/') == [""];
    assert Split("", '.') == [""];
  }
}
