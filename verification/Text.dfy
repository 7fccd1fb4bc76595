/** Decimal numbers and separated text: what `%d`, `strconv.Atoi`, `strings.Join`
    and `strings.ToLower` compute, and their inverses. */
module Text {
  import opened Collections

  function Digit(n: nat): char
    requires n < 10
  {
    '0' + n as char
  }

  predicate IsDigit(c: char) {
    '0' <= c <= '9'
  }

  /** `%d` of a non-negative number. */
  function NatText(n: nat): (s: string)
    ensures s != [] && forall c :: c in s ==> IsDigit(c)
  {
    if n < 10 then [Digit(n)] else NatText(n / 10) + [Digit(n % 10)]
  }

  /** `%d`. */
  function IntText(n: int): string {
    if n < 0 then "-" + NatText(-n) else NatText(n)
  }

  function ReadNat(s: string): (n: Option<int>)
    ensures n.Some? ==> n.value >= 0
  {
    if s == [] || !IsDigit(s[|s| - 1]) then None
    else
      var d := s[|s| - 1] as int - '0' as int;
      if |s| == 1 then Some(d)
      else match ReadNat(s[..|s| - 1])
        case None => None
        case Some(n) => Some(10 * n + d)
  }

  function ReadInt(s: string): Option<int> {
    if s != [] && s[0] == '-' then
      match ReadNat(s[1..])
      case None => None
      case Some(n) => Some(-n)
    else match ReadNat(s)
      case None => None
      case Some(n) => Some(n)
  }

  lemma {:induction false} ReadNatText(n: nat)
    ensures ReadNat(NatText(n)) == Some(n)
  {
    if n >= 10 {
      ReadNatText(n / 10);
      var s := NatText(n);
      assert s[..|s| - 1] == NatText(n / 10);
    }
  }

  function Pow10(k: nat): nat {
    if k == 0 then 1 else 10 * Pow10(k - 1)
  }

  lemma Distribute(c: int, p: int, v: int, d: int)
    ensures 10 * (c * p + v) + d == c * (10 * p) + (10 * v + d)
  {
  }

  /** Numbers are read with the most significant digit first; leading zeros do not matter. */
  lemma {:induction false} LeadingDigit(c: char, s: string)
    requires IsDigit(c) && ReadNat(s).Some?
    ensures ReadNat([c] + s) == Some((c as int - '0' as int) * Pow10(|s|) + ReadNat(s).value)
  {
    var t, d := s[..|s| - 1], s[|s| - 1] as int - '0' as int;
    assert ([c] + s)[..|s|] == [c] + t;
    assert ReadNat([c]) == Some(c as int - '0' as int);
    if t == [] {
      assert [c] + t == [c];
    } else {
      LeadingDigit(c, t);
      Distribute(c as int - '0' as int, Pow10(|t|), ReadNat(t).value, d);
    }
  }

  /** And they are written without leading zeros. */
  lemma {:induction false} NoLeadingZero(n: nat)
    ensures n > 0 ==> NatText(n)[0] != '0'
    ensures n == 0 ==> NatText(n) == "0"
  {
    if n >= 10 {
      NoLeadingZero(n / 10);
    }
  }

  lemma ReadIntNatText(n: nat)
    ensures ReadInt(NatText(n)) == Some(n)
  {
    ReadNatText(n);
    assert NatText(n)[0] in NatText(n);
  }

  lemma ReadMinus(t: string)
    requires ReadNat(t).Some?
    ensures ReadInt("-" + t) == Some(-ReadNat(t).value)
  {
    assert ("-" + t)[1..] == t;
  }

  lemma ReadIntText(n: int)
    ensures ReadInt(IntText(n)) == Some(n)
  {
    if n < 0 {
      ReadNatText(-n);
      ReadMinus(NatText(-n));
    } else {
      ReadIntNatText(n);
    }
  }

  /** The characters `%d` can produce. */
  lemma IntTextChars(n: int)
    ensures IntText(n) != []
    ensures forall c :: c in IntText(n) ==> IsDigit(c) || c == '-'
  {
  }

  const MAX_INT := 0x7fff_ffff_ffff_ffff

  /** `strconv.Atoi` with its error discarded: 0 for a syntax error, the nearest
      64-bit bound for a number out of range. */
  function Atoi(s: string): int {
    var signed := s != [] && (s[0] == '-' || s[0] == '+');
    match ReadNat(if signed then s[1..] else s)
    case None => 0
    case Some(n) =>
      if s[0] == '-' then (if n > MAX_INT + 1 then -MAX_INT - 1 else -n)
      else if n > MAX_INT then MAX_INT else n
  }

  /** `strings.ToLower` on ASCII text. */
  function ToLower(s: string): string {
    Map((c: char) => if 'A' <= c <= 'Z' then ((c as int) + 32) as char else c, s)
  }

  // ----- Separated text

  function Join(parts: seq<string>, sep: char): string
    requires parts != []
  {
    if |parts| == 1 then parts[0] else parts[0] + [sep] + Join(parts[1..], sep)
  }

  function Split(s: string, sep: char): (parts: seq<string>)
    ensures parts != []
  {
    if s == [] then [""]
    else
      var rest := Split(s[1..], sep);
      if s[0] == sep then [""] + rest else [[s[0]] + rest[0]] + rest[1..]
  }

  lemma {:induction false} SplitWhole(a: string, sep: char)
    requires sep !in a
    ensures Split(a, sep) == [a]
  {
    if a != [] {
      SplitWhole(a[1..], sep);
      assert a == [a[0]] + a[1..];
    }
  }

  lemma {:induction false} SplitFirst(a: string, sep: char, rest: string)
    requires sep !in a
    ensures Split(a + [sep] + rest, sep) == [a] + Split(rest, sep)
  {
    var s := a + [sep] + rest;
    if a == [] {
      assert s[1..] == rest;
    } else {
      SplitFirst(a[1..], sep, rest);
      assert s[1..] == a[1..] + [sep] + rest;
      assert a == [a[0]] + a[1..];
    }
  }

  /** Splitting undoes joining, for parts free of the separator. */
  lemma {:induction false} SplitJoin(parts: seq<string>, sep: char)
    requires parts != []
    requires forall p :: p in parts ==> sep !in p
    ensures Split(Join(parts, sep), sep) == parts
  {
    if |parts| == 1 {
      SplitWhole(parts[0], sep);
    } else {
      SplitJoin(parts[1..], sep);
      SplitFirst(parts[0], sep, Join(parts[1..], sep));
    }
  }

  /** A character in none of the parts, and other than the separator, is not in the whole. */
  lemma {:induction false} JoinFree(parts: seq<string>, sep: char, c: char)
    requires parts != [] && c != sep && forall p :: p in parts ==> c !in p
    ensures c !in Join(parts, sep)
  {
    if |parts| > 1 {
      JoinFree(parts[1..], sep, c);
    }
  }
}
