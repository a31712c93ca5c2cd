/**
 * Java's 32-bit `int` arithmetic as the naming scheme uses it: `String.hashCode`
 * (the 31-polynomial over the characters, wrapped at every step) and
 * `Integer.toHexString` (the unsigned two's-complement value in lower-case hex).
 * Each character counts as one UTF-16 code unit.
 */
module JavaInts {

  const TWO_32: int := 0x1_0000_0000
  const TWO_31: int := 0x8000_0000

  predicate IsInt32(x: int) {
    -TWO_31 <= x < TWO_31
  }

  /** The int whose 32 bits are the low 32 bits of `u` (a narrowing cast). */
  function ToInt32(u: int): (r: int)
    ensures IsInt32(r)
    ensures 0 <= u < TWO_31 ==> r == u
    ensures (r - u) % TWO_32 == 0
  {
    var w := u % TWO_32;
    if w < TWO_31 then w else w - TWO_32
  }

  /** The unsigned reading of an int's 32 bits. */
  function ToUnsigned(i: int): (u: int)
    requires IsInt32(i)
    ensures 0 <= u < TWO_32
    ensures ToInt32(u) == i
    ensures i >= 0 ==> u == i
  {
    if i >= 0 then i else i + TWO_32
  }

  /** The mathematical polynomial s[0]*31^(n-1) + ... + s[n-1], without wrap-around. */
  function Polynomial(s: string): int {
    if |s| == 0 then 0 else 31 * Polynomial(s[..|s| - 1]) + s[|s| - 1] as int
  }

  /** `h = 31 * h + c` over the characters, each step wrapped to 32 bits (kept unsigned). */
  function HashBits(s: string): (h: int)
    ensures 0 <= h < TWO_32
  {
    if |s| == 0 then 0 else (31 * HashBits(s[..|s| - 1]) + s[|s| - 1] as int) % TWO_32
  }

  lemma WrapStep(p: int, c: int)
    ensures (31 * (p % TWO_32) + c) % TWO_32 == (31 * p + c) % TWO_32
  {
    var q := p / TWO_32;
    assert p == TWO_32 * q + p % TWO_32;
    assert 31 * p + c == (31 * (p % TWO_32) + c) + TWO_32 * (31 * q);
  }

  lemma {:induction false} HashBitsIsWrappedPolynomial(s: string)
    ensures HashBits(s) == Polynomial(s) % TWO_32
  {
    if |s| > 0 {
      var init := s[..|s| - 1];
      HashBitsIsWrappedPolynomial(init);
      WrapStep(Polynomial(init), s[|s| - 1] as int);
    }
  }

  /** `String.hashCode`: a signed 32-bit int congruent to the polynomial modulo 2^32. */
  function HashCode(s: string): (h: int)
    ensures IsInt32(h)
    ensures ToUnsigned(h) == Polynomial(s) % TWO_32
  {
    HashBitsIsWrappedPolynomial(s);
    ToInt32(HashBits(s))
  }

  predicate IsHexDigit(c: char) {
    '0' <= c <= '9' || 'a' <= c <= 'f'
  }

  predicate IsHexNumeral(s: string) {
    forall i :: 0 <= i < |s| ==> IsHexDigit(s[i])
  }

  /** A hex numeral as `Integer.toHexString` writes it: at least one digit, no leading zero. */
  predicate IsCanonicalHex(s: string) {
    |s| >= 1 && IsHexNumeral(s) && (s[0] == '0' ==> s == "0")
  }

  function HexDigit(d: int): (c: char)
    requires 0 <= d < 16
    ensures IsHexDigit(c)
  {
    "0123456789abcdef"[d]
  }

  function DigitValue(c: char): (d: int)
    requires IsHexDigit(c)
    ensures 0 <= d < 16
  {
    if c <= '9' then c as int - '0' as int else c as int - 'a' as int + 10
  }

  lemma DigitRoundTrip(d: int)
    requires 0 <= d < 16
    ensures DigitValue(HexDigit(d)) == d
  {
  }

  lemma DigitOfValue(c: char)
    requires IsHexDigit(c)
    ensures HexDigit(DigitValue(c)) == c
  {
    var digits := "0123456789abcdef";
    if c <= '9' {
      assert digits[c as int - '0' as int] == c;
    } else {
      assert digits[c as int - 'a' as int + 10] == c;
    }
  }

  /** A numeral whose first digit is not zero has a positive value. */
  lemma {:induction false} LeadingDigitPositive(s: string)
    requires |s| >= 1 && IsHexNumeral(s) && s[0] != '0'
    ensures ParseHex(s) >= 1
  {
    if |s| > 1 {
      LeadingDigitPositive(s[..|s| - 1]);
    }
  }

  /** Every canonical numeral is the rendering of its own value. */
  lemma {:induction false} CanonicalHexIsHex(s: string)
    requires IsCanonicalHex(s)
    ensures Hex(ParseHex(s)) == s
  {
    var last := s[|s| - 1];
    DigitOfValue(last);
    if |s| == 1 {
      assert s[..0] == [];
    } else {
      var prefix := s[..|s| - 1];
      LeadingDigitPositive(prefix);
      CanonicalHexIsHex(prefix);
      var u := ParseHex(s);
      assert u == 16 * ParseHex(prefix) + DigitValue(last);
      assert u / 16 == ParseHex(prefix) && u % 16 == DigitValue(last);
      assert s == prefix + [last];
    }
  }

  /** Two canonical numerals with the same value are the same string. */
  lemma HexNumeralUnique(s: string, t: string)
    requires IsCanonicalHex(s) && IsCanonicalHex(t)
    requires ParseHex(s) == ParseHex(t)
    ensures s == t
  {
    CanonicalHexIsHex(s);
    CanonicalHexIsHex(t);
  }

  /** Hex digits of `u`, most significant first, without leading zeros. */
  function Hex(u: nat): (r: string)
    ensures |r| >= 1 && IsHexNumeral(r)
    ensures r[0] == '0' ==> u == 0
  {
    if u < 16 then [HexDigit(u)] else Hex(u / 16) + [HexDigit(u % 16)]
  }

  function ParseHex(s: string): nat
    requires IsHexNumeral(s)
  {
    if |s| == 0 then 0 else 16 * ParseHex(s[..|s| - 1]) + DigitValue(s[|s| - 1])
  }

  lemma {:induction false} HexRoundTrip(u: nat)
    ensures ParseHex(Hex(u)) == u
  {
    var r := Hex(u);
    if u < 16 {
      DigitRoundTrip(u);
      assert r[..0] == [];
    } else {
      HexRoundTrip(u / 16);
      DigitRoundTrip(u % 16);
      assert r[..|r| - 1] == Hex(u / 16);
    }
  }

  lemma {:induction false} HexLength(u: nat, bound: nat, digits: nat)
    requires u < bound
    requires bound == Pow16(digits)
    requires digits >= 1
    ensures |Hex(u)| <= digits
  {
    if u >= 16 {
      HexLength(u / 16, Pow16(digits - 1), digits - 1);
    }
  }

  function Pow16(n: nat): nat {
    if n == 0 then 1 else 16 * Pow16(n - 1)
  }

  /** `Integer.toHexString`: one to eight lower-case hex digits, no leading zero, for any int. */
  function ToHexString(i: int): (r: string)
    requires IsInt32(i)
    ensures 1 <= |r| <= 8 && IsHexNumeral(r)
    ensures IsCanonicalHex(r)
    ensures ParseHex(r) == ToUnsigned(i)
  {
    var u := ToUnsigned(i);
    assert Pow16(8) == TWO_32;
    HexLength(u, TWO_32, 8);
    HexRoundTrip(u);
    Hex(u)
  }

  /** Distinct ints never share a hex rendering. */
  lemma ToHexStringInjective(i: int, j: int)
    requires IsInt32(i) && IsInt32(j)
    ensures ToHexString(i) == ToHexString(j) <==> i == j
  {
    if ToHexString(i) == ToHexString(j) {
      assert ToUnsigned(i) == ToUnsigned(j);
      assert i == ToInt32(ToUnsigned(i));
    }
  }
}
