/**
 * The value types the account entity is built from: the two enums, identifiers,
 * timestamps, Java's 32-bit Integer, java.math.BigDecimal, and the java.lang.String
 * operations the validators rely on (trim and UTF-16 length).
 */
module Domain {

  /** model/AccountType.java */
  datatype AccountType = SAVINGS | CHECKING | INVESTMENT | BUSINESS

  /** model/AccountStatus.java */
  datatype AccountStatus = ACTIVE | INACTIVE | PENDING

  /** A java.util.UUID, read as an unsigned 128-bit number. */
  type Uuid = x: int | 0 <= x < 0x1_0000_0000_0000_0000_0000_0000_0000_0000

  /** A java.time.LocalDateTime; only its identity matters here. */
  type Timestamp = int

  /** A java.lang.Integer value. */
  type Int32 = x: int | -0x8000_0000 <= x < 0x8000_0000

  // ---------------------------------------------------------------------------
  // java.math.BigDecimal
  // ---------------------------------------------------------------------------

  /**
   * A BigDecimal is the number unscaled * 10^(-scale). Two of them are `equals`
   * only when both the unscaled value and the scale agree, so 2.0 and 2.00 differ;
   * this is exactly datatype equality.
   */
  datatype Decimal = Decimal(unscaled: int, scale: Int32)

  function Pow10(n: nat): (r: nat)
    ensures r >= 1
  {
    if n == 0 then 1 else 10 * Pow10(n - 1)
  }

  /** `a.compareTo(b) == 0`: the same number, whatever the scales. */
  predicate SameValue(a: Decimal, b: Decimal)
  {
    var k := if a.scale < b.scale then b.scale else a.scale;
    a.unscaled * Pow10(k - a.scale) == b.unscaled * Pow10(k - b.scale)
  }

  /** `d.compareTo(BigDecimal.ZERO) > 0`: the sign of a BigDecimal is the sign of its unscaled value. */
  predicate IsPositive(d: Decimal)
  {
    d.unscaled > 0
  }

  lemma SignOfScaled(x: int, p: nat)
    requires p >= 1
    ensures x > 0 <==> x * p > 0
  {
    if x > 0 {
      assert x * p >= x * 1;
    } else {
      assert x * p <= 0 * p;
    }
  }

  /** Positivity is numeric: it does not depend on the scale a value is written with. */
  lemma PositivityIsNumeric(a: Decimal, b: Decimal)
    requires SameValue(a, b)
    ensures IsPositive(a) <==> IsPositive(b)
  {
    var k := if a.scale < b.scale then b.scale else a.scale;
    SignOfScaled(a.unscaled, Pow10(k - a.scale));
    SignOfScaled(b.unscaled, Pow10(k - b.scale));
  }

  /** 2.0 and 2.00 are the same number but not `equals`. */
  lemma ScaleDistinguishesEqualValues()
    ensures SameValue(Decimal(20, 1), Decimal(200, 2))
    ensures Decimal(20, 1) != Decimal(200, 2)
  {
    assert Pow10(1) == 10;
  }

  // ---------------------------------------------------------------------------
  // The initial_deposit column, numeric(10, 2)
  // ---------------------------------------------------------------------------

  /** Ten digits, two of them after the point: in cents, a stored value stays below 10^10 in magnitude. */
  const CENTS_BOUND := 10_000_000_000

  function Abs(x: int): (r: nat)
    ensures r == x || r == -x
  {
    if x < 0 then -x else x
  }

  /** Rounding u / p to the nearest integer, ties upwards: q * p lies within half of p from u. */
  lemma HalfUpQuotient(u: nat, p: nat)
    requires p >= 1
    ensures var q := (2 * u + p) / (2 * p);
      q >= 0 && 2 * u - p < 2 * (q * p) <= 2 * u + p
  {
    var q, m := (2 * u + p) / (2 * p), (2 * u + p) % (2 * p);
    assert 2 * u + p == q * (2 * p) + m && 0 <= m < 2 * p;
    assert q * (2 * p) == 2 * (q * p);
  }

  /** The rounded magnitude with the sign put back: within half a unit, ties away from zero. */
  lemma HalfAwayFromZero(u: int, p: nat)
    requires p >= 1
    ensures var q := (2 * Abs(u) + p) / (2 * p);
      var r := if u < 0 then -q else q;
      && 2 * Abs(r * p - u) <= p
      && (2 * Abs(r * p - u) == p ==> Abs(r) * p > Abs(u))
      && (u >= 0 ==> r >= 0) && (u <= 0 ==> r <= 0)
  {
    var q := (2 * Abs(u) + p) / (2 * p);
    HalfUpQuotient(Abs(u), p);
    if u < 0 {
      assert (-q) * p - u == -(q * p - Abs(u));
    }
  }

  /**
   * The value PostgreSQL keeps in a numeric(10, 2) column: the number rounded
   * to two decimals, ties away from zero. A value with at most two decimals
   * keeps its number and only gains trailing zeros.
   */
  function RoundToCents(d: Decimal): (r: Decimal)
    ensures r.scale == 2
    ensures d.scale <= 2 ==> SameValue(r, d)
    ensures d.scale == 2 ==> r == d
    ensures d.scale > 2 ==> 2 * Abs(r.unscaled * Pow10(d.scale - 2) - d.unscaled) <= Pow10(d.scale - 2)
    ensures d.scale > 2 && 2 * Abs(r.unscaled * Pow10(d.scale - 2) - d.unscaled) == Pow10(d.scale - 2) ==>
      Abs(r.unscaled) * Pow10(d.scale - 2) > Abs(d.unscaled)
    ensures d.unscaled >= 0 ==> r.unscaled >= 0
    ensures d.unscaled <= 0 ==> r.unscaled <= 0
  {
    if d.scale <= 2 then
      assert Pow10(0) == 1;
      Decimal(d.unscaled * Pow10(2 - d.scale), 2)
    else
      var p := Pow10(d.scale - 2);
      HalfAwayFromZero(d.unscaled, p);
      var q := (2 * Abs(d.unscaled) + p) / (2 * p);
      Decimal(if d.unscaled < 0 then -q else q, 2)
  }

  /** A non-zero multiple of p is at least p away from zero. */
  lemma NonZeroMultiple(a: int, p: nat)
    requires a != 0
    ensures Abs(a * p) >= p
  {
    var b := Abs(a);
    assert (b - 1) * p >= 0;
    assert b * p == (b - 1) * p + p;
    assert a * p == b * p || a * p == -(b * p);
  }

  /** Two multiples of p within half of p of each other are the same multiple. */
  lemma CloseMultiplesAgree(x: int, y: int, p: nat)
    requires p >= 1 && 2 * Abs(x * p - y * p) <= p
    ensures x == y
  {
    assert x * p - y * p == (x - y) * p;
    if x != y {
      NonZeroMultiple(x - y, p);
    }
  }

  /** A value equal to one with two decimals rounds to exactly that one, whatever its own scale. */
  lemma RoundingKeepsCents(d: Decimal, e: Decimal)
    requires e.scale == 2 && SameValue(d, e)
    ensures RoundToCents(d) == e
  {
    assert Pow10(0) == 1;
    if d.scale > 2 {
      var p := Pow10(d.scale - 2);
      assert d.unscaled == e.unscaled * p;
      CloseMultiplesAgree(RoundToCents(d).unscaled, e.unscaled, p);
    }
  }

  /** Whether the rounded value fits the column's ten digits; a larger one makes the write fail. */
  predicate FitsColumn(d: Decimal)
  {
    Abs(RoundToCents(d).unscaled) < CENTS_BOUND
  }

  /**
   * What the column does to three deposits the request rules accept: 1000 reads
   * back as 1000.00, which is not `equals` to it; 0.001 reads back as 0.00, which
   * is not positive; 10^8 does not fit at all.
   */
  lemma ColumnExamples()
    ensures RoundToCents(Decimal(1000, 0)) == Decimal(100000, 2) != Decimal(1000, 0)
    ensures RoundToCents(Decimal(1, 3)) == Decimal(0, 2) && !IsPositive(RoundToCents(Decimal(1, 3)))
    ensures IsPositive(Decimal(1, 3))
    ensures !FitsColumn(Decimal(100_000_000, 0)) && FitsColumn(Decimal(9_999_999_999, 2))
  {
    assert Pow10(2) == 100;
    assert Pow10(1) == 10;
  }

  // ---------------------------------------------------------------------------
  // java.lang.String
  // ---------------------------------------------------------------------------

  /** String.trim() removes every leading character at or below U+0020 ... */
  function TrimStart(s: string): (r: string)
    ensures |r| <= |s|
  {
    if s != [] && s[0] <= ' ' then TrimStart(s[1..]) else s
  }

  /** ... and every trailing one. */
  function TrimEnd(s: string): (r: string)
    ensures |r| <= |s|
  {
    if s != [] && s[|s| - 1] <= ' ' then TrimEnd(s[..|s| - 1]) else s
  }

  function Trim(s: string): string
  {
    TrimEnd(TrimStart(s))
  }

  /** What @NotBlank rejects: a string that trims to nothing. */
  predicate IsBlank(s: string)
  {
    Trim(s) == []
  }

  predicate AllControlOrSpace(s: string)
  {
    forall i :: 0 <= i < |s| ==> s[i] <= ' '
  }

  lemma {:induction false} TrimStartEmpty(s: string)
    ensures TrimStart(s) == [] <==> AllControlOrSpace(s)
    ensures TrimStart(s) != [] ==> TrimStart(s)[0] > ' '
  {
    if s != [] && s[0] <= ' ' {
      TrimStartEmpty(s[1..]);
      assert forall i :: 1 <= i < |s| ==> s[i] == s[1..][i - 1];
    }
  }

  lemma {:induction false} TrimEndEmpty(s: string)
    ensures TrimEnd(s) == [] <==> AllControlOrSpace(s)
  {
    if s != [] && s[|s| - 1] <= ' ' {
      TrimEndEmpty(s[..|s| - 1]);
      assert forall i :: 0 <= i < |s| - 1 ==> s[i] == s[..|s| - 1][i];
    }
  }

  /** A string is blank exactly when every character is a control character or a space. */
  lemma BlankIffAllControlOrSpace(s: string)
    ensures IsBlank(s) <==> AllControlOrSpace(s)
  {
    TrimStartEmpty(s);
    var t := TrimStart(s);
    TrimEndEmpty(t);
    if t != [] {
      assert !AllControlOrSpace(t) by { assert t[0] > ' '; }
    }
  }

  /** String.length(): UTF-16 code units, two for a character outside the Basic Multilingual Plane. */
  function Utf16Length(s: string): (n: nat)
    ensures n >= |s|
    ensures n <= 2 * |s|
    ensures (forall i :: 0 <= i < |s| ==> s[i] as int <= 0xFFFF) ==> n == |s|
  {
    if s == [] then 0 else (if s[0] as int > 0xFFFF then 2 else 1) + Utf16Length(s[1..])
  }

  /** The length of a concatenation is the sum of the lengths. */
  lemma {:induction false} Utf16LengthAppend(a: string, b: string)
    ensures Utf16Length(a + b) == Utf16Length(a) + Utf16Length(b)
  {
    if a != [] {
      assert (a + b)[1..] == a[1..] + b;
      Utf16LengthAppend(a[1..], b);
    } else {
      assert a + b == b;
    }
  }

  // ---------------------------------------------------------------------------
  // UUID.toString()
  // ---------------------------------------------------------------------------

  function HexDigit(d: nat): (c: char)
    requires d < 16
    ensures '0' <= c <= '9' || 'a' <= c <= 'f'
  {
    if d < 10 then (48 + d) as char else (87 + d) as char
  }

  function Pow16(n: nat): (r: nat)
    ensures r >= 1
  {
    if n == 0 then 1 else 16 * Pow16(n - 1)
  }

  /** The low `width` hexadecimal digits of n, zero-padded and lower-case. */
  function Hex(n: nat, width: nat): (r: string)
    ensures |r| == width
    ensures forall i :: 0 <= i < |r| ==> r[i] != '-'
  {
    if width == 0 then [] else Hex(n / 16, width - 1) + [HexDigit(n % 16)]
  }

  /** Two numbers below 16^width with the same digits are equal. */
  lemma {:induction false} HexInjective(n: nat, m: nat, width: nat)
    requires n < Pow16(width) && m < Pow16(width)
    requires Hex(n, width) == Hex(m, width)
    ensures n == m
  {
    if width > 0 {
      assert Hex(n, width)[width - 1] == HexDigit(n % 16);
      assert Hex(m, width)[width - 1] == HexDigit(m % 16);
      assert Hex(n, width)[..width - 1] == Hex(n / 16, width - 1);
      assert Hex(m, width)[..width - 1] == Hex(m / 16, width - 1);
      HexInjective(n / 16, m / 16, width - 1);
    }
  }

  /**
   * UUID.toString(): the most significant 64 bits give the groups of 8, 4 and
   * 4 digits, the least significant 64 bits the groups of 4 and 12.
   */
  function UuidString(id: Uuid): (r: string)
    ensures |r| == 36
    ensures r[8] == '-' && r[13] == '-' && r[18] == '-' && r[23] == '-'
  {
    var msb, lsb := id / 0x1_0000_0000_0000_0000, id % 0x1_0000_0000_0000_0000;
    Hex(msb / 0x1_0000_0000, 8) + "-" +
    Hex(msb / 0x1_0000 % 0x1_0000, 4) + "-" +
    Hex(msb % 0x1_0000, 4) + "-" +
    Hex(lsb / 0x1_0000_0000_0000, 4) + "-" +
    Hex(lsb % 0x1_0000_0000_0000, 12)
  }

  /** The three high groups determine the most significant half. */
  lemma HighGroupsDetermine(x: nat, y: nat)
    requires x / 0x1_0000_0000 == y / 0x1_0000_0000
    requires x / 0x1_0000 % 0x1_0000 == y / 0x1_0000 % 0x1_0000
    requires x % 0x1_0000 == y % 0x1_0000
    ensures x == y
  {
  }

  /** The five groups of digits determine the id. */
  lemma GroupsDetermineId(a: Uuid, b: Uuid)
    requires a / 0x1_0000_0000_0000_0000 / 0x1_0000_0000 == b / 0x1_0000_0000_0000_0000 / 0x1_0000_0000
    requires a / 0x1_0000_0000_0000_0000 / 0x1_0000 % 0x1_0000 == b / 0x1_0000_0000_0000_0000 / 0x1_0000 % 0x1_0000
    requires a / 0x1_0000_0000_0000_0000 % 0x1_0000 == b / 0x1_0000_0000_0000_0000 % 0x1_0000
    requires a % 0x1_0000_0000_0000_0000 / 0x1_0000_0000_0000 == b % 0x1_0000_0000_0000_0000 / 0x1_0000_0000_0000
    requires a % 0x1_0000_0000_0000_0000 % 0x1_0000_0000_0000 == b % 0x1_0000_0000_0000_0000 % 0x1_0000_0000_0000
    ensures a == b
  {
    HighGroupsDetermine(a / 0x1_0000_0000_0000_0000, b / 0x1_0000_0000_0000_0000);
  }

  lemma Pow16Widths()
    ensures Pow16(4) == 0x1_0000 && Pow16(8) == 0x1_0000_0000 && Pow16(12) == 0x1_0000_0000_0000
  {
    assert Pow16(4) == 0x1_0000;
    assert Pow16(8) == 0x1_0000 * Pow16(4) by { assert Pow16(8) == 16 * 16 * 16 * 16 * Pow16(4); }
    assert Pow16(12) == 0x1_0000 * Pow16(8) by { assert Pow16(12) == 16 * 16 * 16 * 16 * Pow16(8); }
  }

  /** Where each group of digits sits in the text. */
  lemma UuidStringGroups(id: Uuid)
    ensures var s, msb, lsb := UuidString(id), id / 0x1_0000_0000_0000_0000, id % 0x1_0000_0000_0000_0000;
      && s[0..8] == Hex(msb / 0x1_0000_0000, 8)
      && s[9..13] == Hex(msb / 0x1_0000 % 0x1_0000, 4)
      && s[14..18] == Hex(msb % 0x1_0000, 4)
      && s[19..23] == Hex(lsb / 0x1_0000_0000_0000, 4)
      && s[24..] == Hex(lsb % 0x1_0000_0000_0000, 12)
  {
  }

  /** Distinct ids print differently: the text names the id. */
  lemma UuidStringInjective(a: Uuid, b: Uuid)
    requires UuidString(a) == UuidString(b)
    ensures a == b
  {
    var am, al := a / 0x1_0000_0000_0000_0000, a % 0x1_0000_0000_0000_0000;
    var bm, bl := b / 0x1_0000_0000_0000_0000, b % 0x1_0000_0000_0000_0000;
    Pow16Widths();
    UuidStringGroups(a);
    UuidStringGroups(b);
    HexInjective(am / 0x1_0000_0000, bm / 0x1_0000_0000, 8);
    HexInjective(am / 0x1_0000 % 0x1_0000, bm / 0x1_0000 % 0x1_0000, 4);
    HexInjective(am % 0x1_0000, bm % 0x1_0000, 4);
    HexInjective(al / 0x1_0000_0000_0000, bl / 0x1_0000_0000_0000, 4);
    HexInjective(al % 0x1_0000_0000_0000, bl % 0x1_0000_0000_0000, 12);
    GroupsDetermineId(a, b);
  }
}
