/**
 * The pieces of java.lang the relay depends on, written out with Java's semantics:
 * fixed-width integers, the truncating remainder, the narrowing cast to int,
 * String.trim, String.compareTo (natural order), String.equalsIgnoreCase
 * against ASCII text, and the decimal parsing done by the Long(String) and
 * Integer(String) constructors.
 */
module JavaLang {
  import opened Wrappers

  const INT_MIN: int := -0x8000_0000
  const INT_MAX: int := 0x7FFF_FFFF
  const LONG_MIN: int := -0x8000_0000_0000_0000
  const LONG_MAX: int := 0x7FFF_FFFF_FFFF_FFFF

  /** Java `int`. */
  type Int32 = x: int | -0x8000_0000 <= x < 0x8000_0000
  /** Java `long`. */
  type Int64 = x: int | -0x8000_0000_0000_0000 <= x < 0x8000_0000_0000_0000

  function Abs(x: int): nat {
    if x < 0 then -x else x
  }

  // ---------------------------------------------------------------------------
  // Integer division and narrowing
  // ---------------------------------------------------------------------------

  /** Java's integer quotient `a / b`: the exact quotient rounded toward zero. */
  function Quot(a: int, b: int): int
    requires b != 0
  {
    if (a < 0) == (b < 0) then Abs(a) / Abs(b) else -(Abs(a) / Abs(b))
  }

  /**
   * Java's integer remainder `a % b` (JLS 15.17.3): what is left after the
   * quotient rounded toward zero, so a non-zero remainder has the sign of the
   * dividend and a magnitude below that of the divisor.  Dafny's own `%` is
   * Euclidean and differs for a negative dividend.
   */
  function Rem(a: int, b: int): (r: int)
    requires b != 0
    ensures a == b * Quot(a, b) + r
    ensures Abs(r) < Abs(b)
    ensures a > 0 ==> r >= 0
    ensures a < 0 ==> r <= 0
    ensures a == 0 ==> r == 0
  {
    var m := Abs(a) % Abs(b);
    var q := Abs(a) / Abs(b);
    assert Abs(a) == Abs(b) * q + m;
    if a < 0 then
      assert a == -(Abs(b) * q) - m;
      -m
    else
      m
  }

  /** The three facts of JLS 15.17.3 determine the remainder: no other value satisfies them. */
  lemma RemUnique(a: int, b: int, q: int, r: int)
    requires b != 0
    requires a == b * q + r && Abs(r) < Abs(b)
    requires a > 0 ==> r >= 0
    requires a < 0 ==> r <= 0
    ensures r == Rem(a, b) && q == Quot(a, b)
  {
    var q0, r0 := Quot(a, b), Rem(a, b);
    if a == 0 && q != 0 {
      MultipleAtLeastDivisor(b, q);
      assert false;
    }
    assert Abs(r0 - r) < Abs(b);
    SameQuotient(b, q, q0, r0 - r);
  }

  /** Two multiples of `b` closer together than `b` is large are the same multiple. */
  lemma SameQuotient(b: int, q: int, q0: int, d: int)
    requires b != 0 && b * q - b * q0 == d && Abs(d) < Abs(b)
    ensures q == q0
  {
    assert b * (q - q0) == b * q - b * q0;
    if q != q0 {
      MultipleAtLeastDivisor(b, q - q0);
      assert false;
    }
  }

  /** A non-zero multiple of `b` is at least as large as `b` in magnitude. */
  lemma MultipleAtLeastDivisor(b: int, k: int)
    requires k != 0
    ensures Abs(b * k) >= Abs(b)
  {
    var bb, kk := Abs(b), Abs(k);
    assert Abs(b * k) == bb * kk by {
      if b < 0 && k < 0 {
        assert b * k == (-b) * (-k);
      } else if b < 0 {
        assert b * k == -((-b) * k);
      } else if k < 0 {
        assert b * k == -(b * (-k));
      }
    }
    assert bb * kk == bb + bb * (kk - 1);
    assert bb * (kk - 1) >= 0;
  }

  /** Java's narrowing cast `(int)` of a `long`: keeps the low 32 bits as two's complement (JLS 5.1.3). */
  function ToInt32(x: int): (r: Int32)
    ensures (x - r) % 0x1_0000_0000 == 0
    ensures INT_MIN <= x <= INT_MAX ==> r == x
  {
    var m := x % 0x1_0000_0000;
    if m < 0x8000_0000 then m else m - 0x1_0000_0000
  }

  // ---------------------------------------------------------------------------
  // String.trim
  // ---------------------------------------------------------------------------

  /** How many chars String.trim drops from the front: the run of chars at most U+0020. */
  function LeadingBlanks(s: string): (n: nat)
    ensures n <= |s|
    ensures n < |s| ==> s[n] > ' '
  {
    if |s| == 0 || s[0] > ' ' then 0 else 1 + LeadingBlanks(s[1..])
  }

  /** Where the run of chars at most U+0020 at the end of `s` begins. */
  function TrailingBlanksStart(s: string): (n: nat)
    ensures n <= |s|
    ensures n > 0 ==> s[n - 1] > ' '
  {
    if |s| == 0 || s[|s| - 1] > ' ' then |s| else TrailingBlanksStart(s[..|s| - 1])
  }

  /** Everything before LeadingBlanks is a blank. */
  lemma {:induction false} LeadingBlanksAreBlank(s: string, k: int)
    requires 0 <= k < LeadingBlanks(s)
    ensures s[k] <= ' '
  {
    if k > 0 {
      LeadingBlanksAreBlank(s[1..], k - 1);
    }
  }

  /** Everything from TrailingBlanksStart on is a blank. */
  lemma {:induction false} TrailingBlanksAreBlank(s: string, k: int)
    requires TrailingBlanksStart(s) <= k < |s|
    ensures s[k] <= ' '
  {
    if s[|s| - 1] <= ' ' && k < |s| - 1 {
      TrailingBlanksAreBlank(s[..|s| - 1], k);
    }
  }

  /**
   * String.trim(): `s` without its leading and trailing chars whose code is at
   * most U+0020.  The result is the slice of `s` that starts after the leading
   * blanks, is followed in `s` by blanks only, and neither starts nor ends with
   * a blank.
   */
  function Trim(s: string): (r: string)
    ensures r == [] || (r[0] > ' ' && r[|r| - 1] > ' ')
    ensures LeadingBlanks(s) + |r| <= |s|
  {
    var rest := s[LeadingBlanks(s)..];
    rest[..TrailingBlanksStart(rest)]
  }

  /** The trim is the slice of `s` that starts after the leading blanks. */
  lemma TrimIsSlice(s: string)
    ensures Trim(s) == s[LeadingBlanks(s)..LeadingBlanks(s) + |Trim(s)|]
  {
    var n := LeadingBlanks(s);
    var e := TrailingBlanksStart(s[n..]);
    assert Trim(s) == s[n..][..e];
    assert s[n..][..e] == s[n..n + e];
  }

  /** Only blanks follow the trim in `s`. */
  lemma TrimFollowedByBlanks(s: string)
    ensures forall k :: LeadingBlanks(s) + |Trim(s)| <= k < |s| ==> s[k] <= ' '
  {
    var n := LeadingBlanks(s);
    var rest := s[n..];
    var e := TrailingBlanksStart(rest);
    assert |Trim(s)| == e;
    forall k | n + e <= k < |s|
      ensures s[k] <= ' '
    {
      TrailingBlanksAreBlank(rest, k - n);
      assert s[k] == rest[k - n];
    }
  }

  /** A string that neither starts nor ends with a blank is its own trim. */
  lemma {:induction false} TrimKeepsUnpadded(s: string)
    requires s == [] || (s[0] > ' ' && s[|s| - 1] > ' ')
    ensures Trim(s) == s
  {
    var r := Trim(s);
    assert LeadingBlanks(s) == 0;
    if |r| < |s| {
      assert false;
    }
  }

  /** Trimming twice is trimming once. */
  lemma TrimIdempotent(s: string)
    ensures Trim(Trim(s)) == Trim(s)
  {
    TrimKeepsUnpadded(Trim(s));
  }

  // ---------------------------------------------------------------------------
  // String.compareTo: the natural order of strings
  // ---------------------------------------------------------------------------

  /**
   * The position of a char in UTF-16 code unit order.  Java compares strings
   * unit by unit; a char above U+FFFF is stored as a surrogate pair whose first
   * unit lies in D800..DBFF, so it sorts after every char below U+D800 and
   * before every char in U+E000..U+FFFF.  The rank places it there and keeps
   * code point order everywhere else.
   */
  function Utf16Rank(c: char): int {
    var n := c as int;
    if n < 0xD800 then n
    else if n <= 0xFFFF then n + 0x10_0000
    else n - 0x1_0000 + 0xD800
  }

  /** `a.compareTo(b) < 0`: at the first differing position `a` has the smaller code unit, or `a` is a proper prefix of `b`. */
  predicate Less(a: string, b: string)
    ensures |a| < |b| && a == b[..|a|] ==> Less(a, b)
    ensures Less(a, b) ==> a != b
  {
    if |a| == 0 then |b| > 0
    else if |b| == 0 then false
    else if a[0] != b[0] then Utf16Rank(a[0]) < Utf16Rank(b[0])
    else
      assert |a| < |b| && a == b[..|a|] ==> a[1..] == b[1..][..|a| - 1];
      Less(a[1..], b[1..])
  }

  /** Strings that agree up to position `k` and differ there are ordered by their chars at `k`. */
  lemma {:induction false} LessAtFirstDifference(a: string, b: string, k: nat)
    requires k < |a| && k < |b|
    requires forall i :: 0 <= i < k ==> a[i] == b[i]
    requires Utf16Rank(a[k]) < Utf16Rank(b[k])
    ensures Less(a, b)
  {
    if k > 0 {
      assert a[0] == b[0];
      LessAtFirstDifference(a[1..], b[1..], k - 1);
    }
  }

  /** `a.compareTo(b) <= 0` (compareTo is 0 exactly for equal strings). */
  predicate AtMost(a: string, b: string) {
    a == b || Less(a, b)
  }

  lemma RankInjective(c: char, d: char)
    requires Utf16Rank(c) == Utf16Rank(d)
    ensures c == d
  {
  }

  lemma {:induction false} LessIrreflexive(a: string)
    ensures !Less(a, a)
  {
    if |a| > 0 {
      LessIrreflexive(a[1..]);
    }
  }

  lemma {:induction false} LessAsymmetric(a: string, b: string)
    requires Less(a, b)
    ensures !Less(b, a)
  {
    if |a| > 0 && |b| > 0 && a[0] == b[0] {
      LessAsymmetric(a[1..], b[1..]);
    }
  }

  lemma {:induction false} LessTransitive(a: string, b: string, c: string)
    requires Less(a, b) && Less(b, c)
    ensures Less(a, c)
  {
    if |a| > 0 && a[0] == b[0] && b[0] == c[0] {
      LessTransitive(a[1..], b[1..], c[1..]);
    }
  }

  lemma {:induction false} LessTotal(a: string, b: string)
    requires a != b
    ensures Less(a, b) || Less(b, a)
  {
    if |a| > 0 && |b| > 0 {
      if a[0] == b[0] {
        assert a == [a[0]] + a[1..] && b == [b[0]] + b[1..];
        LessTotal(a[1..], b[1..]);
      } else if Utf16Rank(a[0]) == Utf16Rank(b[0]) {
        RankInjective(a[0], b[0]);
      }
    }
  }

  /** Natural order on strings is a total order. */
  lemma AtMostTotalOrder(a: string, b: string, c: string)
    ensures AtMost(a, a)
    ensures AtMost(a, b) && AtMost(b, a) ==> a == b
    ensures AtMost(a, b) && AtMost(b, c) ==> AtMost(a, c)
    ensures AtMost(a, b) || AtMost(b, a)
  {
    if a != b {
      LessTotal(a, b);
      if Less(a, b) { LessAsymmetric(a, b); }
    }
    if Less(a, b) && Less(b, c) { LessTransitive(a, b, c); }
  }

  // ---------------------------------------------------------------------------
  // String.equalsIgnoreCase against ASCII text
  // ---------------------------------------------------------------------------

  predicate IsAscii(s: string) {
    forall k :: 0 <= k < |s| ==> s[k] < 128 as char
  }

  /**
   * The ASCII char that equalsIgnoreCase identifies `c` with.  Java compares
   * two chars as equal when their upper cases agree, or the lower cases of
   * their upper cases agree.  Against an ASCII char that identifies the two
   * cases of a Latin letter, and also U+0131 (dotless i, upper case I),
   * U+0130 (capital I with dot, lower case i), U+017F (long s, upper case S)
   * and U+212A (Kelvin sign, lower case k).
   */
  function AsciiFold(c: char): char {
    if 'A' <= c <= 'Z' then (c as int + 32) as char
    else if c == 'İ' || c == 'ı' then 'i'
    else if c == 'ſ' then 's'
    else if c == 'K' then 'k'
    else c
  }

  /** `s.equalsIgnoreCase(t)` for an ASCII `t`. */
  predicate EqualsIgnoreCase(s: string, t: string)
    requires IsAscii(t)
    ensures EqualsIgnoreCase(s, t) ==> |s| == |t|
    ensures s == t ==> EqualsIgnoreCase(s, t)
  {
    |s| == |t| && forall k :: 0 <= k < |s| ==> AsciiFold(s[k]) == AsciiFold(t[k])
  }

  /**
   * Against ASCII text, the only non-ASCII chars that can match are the four
   * whose case mappings reach an ASCII letter: U+0130 and U+0131 (i), U+017F
   * (s) and U+212A (k).
   */
  lemma NonAsciiMatchesOnlyFoldedLetters(s: string, t: string, k: int)
    requires IsAscii(t) && EqualsIgnoreCase(s, t)
    requires 0 <= k < |s| && s[k] >= 128 as char
    ensures s[k] in {'İ', 'ı', 'ſ', '\U{212A}'}
    ensures s[k] in {'İ', 'ı'} <==> t[k] in {'i', 'I'}
    ensures s[k] == 'ſ' <==> t[k] in {'s', 'S'}
    ensures s[k] == '\U{212A}' <==> t[k] in {'k', 'K'}
  {
    assert AsciiFold(s[k]) == AsciiFold(t[k]);
    assert t[k] < 128 as char;
  }

  /** Lower case of an ASCII string (String.toLowerCase restricted to ASCII). */
  function AsciiLower(s: string): (r: string)
    ensures |r| == |s|
    ensures forall k :: 0 <= k < |s| ==> r[k] == AsciiFold(s[k])
  {
    if s == [] then [] else [AsciiFold(s[0])] + AsciiLower(s[1..])
  }

  /** For ASCII text, ignoring case means comparing lower cases. */
  lemma EqualsIgnoreCaseIsLowerEquality(s: string, t: string)
    requires IsAscii(s) && IsAscii(t)
    ensures EqualsIgnoreCase(s, t) <==> AsciiLower(s) == AsciiLower(t)
  {
    if AsciiLower(s) == AsciiLower(t) {
      assert |s| == |t|;
      forall k | 0 <= k < |s| ensures AsciiFold(s[k]) == AsciiFold(t[k]) {
        assert AsciiLower(s)[k] == AsciiLower(t)[k];
      }
    }
  }

  // ---------------------------------------------------------------------------
  // Long(String) and Integer(String): decimal parsing
  // ---------------------------------------------------------------------------

  predicate IsDigit(c: char) {
    '0' <= c <= '9'
  }

  predicate AllDigits(s: string) {
    forall k :: 0 <= k < |s| ==> IsDigit(s[k])
  }

  /** The value of a run of decimal digits, most significant first. */
  function DigitsValue(s: string): nat
    requires AllDigits(s)
  {
    if |s| == 0 then 0 else DigitsValue(s[..|s| - 1]) * 10 + (s[|s| - 1] as int - '0' as int)
  }

  /** What Long.parseLong and Integer.parseInt accept in radix 10: an optional sign, then one or more digits. */
  predicate IsDecimal(s: string) {
    |s| > 0 &&
    if s[0] == '-' || s[0] == '+' then |s| > 1 && AllDigits(s[1..]) else AllDigits(s)
  }

  function DecimalValue(s: string): int
    requires IsDecimal(s)
  {
    if s[0] == '-' then -(DigitsValue(s[1..]) as int)
    else if s[0] == '+' then DigitsValue(s[1..])
    else DigitsValue(s)
  }

  /**
   * Parsing into a Java integer type whose range is [lo, hi]: the text must be a
   * decimal numeral whose value fits; otherwise the JDK throws
   * NumberFormatException, which is `None` here.
   */
  function ParseInteger(s: string, lo: int, hi: int): (r: Option<int>)
    ensures r.Some? ==> lo <= r.value <= hi
  {
    if IsDecimal(s) && lo <= DecimalValue(s) <= hi then Some(DecimalValue(s)) else None
  }

  /** `new Long(s)`, that is Long.parseLong(s, 10). */
  function ParseLong(s: string): (r: Option<Int64>)
    ensures r.Some? <==> IsDecimal(s) && LONG_MIN <= DecimalValue(s) <= LONG_MAX
    ensures r.Some? ==> r.value == DecimalValue(s)
  {
    match ParseInteger(s, LONG_MIN, LONG_MAX)
    case Some(n) => Some(n as Int64)
    case None => None
  }

  /** `new Integer(s)`, that is Integer.parseInt(s, 10). */
  function ParseInt(s: string): (r: Option<Int32>)
    ensures r.Some? <==> IsDecimal(s) && INT_MIN <= DecimalValue(s) <= INT_MAX
    ensures r.Some? ==> r.value == DecimalValue(s)
  {
    match ParseInteger(s, INT_MIN, INT_MAX)
    case Some(n) => Some(n as Int32)
    case None => None
  }

  /** The decimal digits of a natural number, as Long.toString writes them. */
  function NatDigits(n: nat): (s: string)
    ensures |s| > 0 && AllDigits(s)
  {
    var d := [('0' as int + n % 10) as char];
    if n < 10 then d else NatDigits(n / 10) + d
  }

  /** Long.toString / Integer.toString. */
  function DecimalString(n: int): string {
    if n < 0 then "-" + NatDigits(-n) else NatDigits(n)
  }

  lemma {:induction false} NatDigitsValue(n: nat)
    ensures DigitsValue(NatDigits(n)) == n
  {
    var d := [('0' as int + n % 10) as char];
    if n >= 10 {
      var s := NatDigits(n / 10) + d;
      assert s[..|s| - 1] == NatDigits(n / 10);
      NatDigitsValue(n / 10);
    }
  }

  /** Parsing reads back what toString writes, for every value of the target's range. */
  lemma ParseDecimalStringRoundTrip(n: int, lo: int, hi: int)
    requires lo <= n <= hi
    ensures ParseInteger(DecimalString(n), lo, hi) == Some(n)
  {
    var s := DecimalString(n);
    if n < 0 {
      assert s[1..] == NatDigits(-n);
      NatDigitsValue(-n);
    } else {
      var d := NatDigits(n);
      assert IsDigit(d[0]);
      NatDigitsValue(n);
    }
  }
}
