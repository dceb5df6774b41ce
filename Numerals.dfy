/**
 * The numerals the print converters produce: positional digits, most
 * significant first, over the table "0123456789ABCDEF" (upper-case), in base
 * 10 or 16, and the texts of the four converters built from them.
 */
module Numerals {
  import opened Machine

  /** The converters' `digits_map` / `hex_map` table. */
  const DIGIT_MAP: seq<char> := "0123456789ABCDEF"

  /** Entry d of the digit table. */
  function DigitChar(d: nat): (c: char)
    requires d < 16
    ensures DigitValue(c) == d
    ensures c != '\0' && c != '-' && c != 'H'
  {
    if d < 10 then ('0' as int + d) as char else ('A' as int + d - 10) as char
  }

  /** The table really is "0123456789ABCDEF". */
  lemma DigitMapIsTable(d: nat)
    requires d < 16
    ensures DIGIT_MAP[d] == DigitChar(d)
  {
  }

  /** The value of a digit character of the table, or -1 for any other character. */
  function DigitValue(c: char): int
  {
    if '0' <= c <= '9' then c as int - '0' as int
    else if 'A' <= c <= 'F' then c as int - 'A' as int + 10
    else -1
  }

  predicate IsBase(base: nat)
  {
    base == 10 || base == 16
  }

  /** Every character of s is a digit below base. */
  predicate AllDigits(s: seq<char>, base: nat)
  {
    forall i :: 0 <= i < |s| ==> 0 <= DigitValue(s[i]) < base
  }

  /** The numeral of n in base: the digits most significant first, without leading zeros, "0" for zero. */
  function Digits(n: nat, base: nat): (s: seq<char>)
    requires IsBase(base)
    ensures |s| >= 1 && AllDigits(s, base)
    decreases n
  {
    if n < base then [DigitChar(n)] else Digits(n / base, base) + [DigitChar(n % base)]
  }

  /** The value of a numeral, most significant digit first. */
  function Value(s: seq<char>, base: nat): nat
    requires IsBase(base) && AllDigits(s, base)
  {
    if s == [] then 0 else Value(s[..|s| - 1], base) * base + DigitValue(s[|s| - 1])
  }

  /** One more digit on the right: ten (or sixteen) times the value, plus the digit. */
  lemma ValueSnoc(s: seq<char>, c: char, base: nat)
    requires IsBase(base) && AllDigits(s, base) && 0 <= DigitValue(c) < base
    ensures AllDigits(s + [c], base) && Value(s + [c], base) == Value(s, base) * base + DigitValue(c)
  {
    assert (s + [c])[..|s|] == s;
  }

  /** A numeral reads back as the number it was written from. */
  lemma {:induction false} DigitsRoundTrip(n: nat, base: nat)
    requires IsBase(base)
    ensures Value(Digits(n, base), base) == n
  {
    if n >= base {
      DigitsRoundTrip(n / base, base);
      var s := Digits(n, base);
      assert s[..|s| - 1] == Digits(n / base, base);
    }
  }

  /** Numerals have no leading zero: the first digit is '0' only in the numeral "0" of zero. */
  lemma {:induction false} DigitsCanonical(n: nat, base: nat)
    requires IsBase(base)
    ensures Digits(0, base) == "0"
    ensures Digits(n, base)[0] == '0' <==> n == 0
  {
    if n >= base {
      DigitsCanonical(n / base, base);
    }
  }

  function Pow(base: nat, k: nat): (r: nat)
    requires IsBase(base)
    ensures r >= 1
  {
    if k == 0 then 1 else base * Pow(base, k - 1)
  }

  /** A number below base^k has at most k digits, and a number with k digits is at least base^(k-1). */
  lemma {:induction false} DigitsLength(n: nat, base: nat, k: nat)
    requires IsBase(base) && k >= 1
    ensures n < Pow(base, k) <==> |Digits(n, base)| <= k
  {
    if n >= base {
      if k == 1 {
        assert Pow(base, 1) == base;
        assert |Digits(n, base)| >= 2 by {
          assert |Digits(n, base)| == |Digits(n / base, base)| + 1;
        }
      } else {
        DigitsLength(n / base, base, k - 1);
        assert n < Pow(base, k) <==> n / base < Pow(base, k - 1);
      }
    } else {
      assert Pow(base, k) == base * Pow(base, k - 1);
    }
  }

  /** A 64-bit unsigned value has at most 20 decimal and at most 16 hexadecimal digits. */
  lemma U64DigitBounds(n: u64)
    ensures |Digits(n, 10)| <= 20 && |Digits(n, 16)| <= 16
  {
    SixteenToTheSixteenth();
    TenToTheTwentieth();
    DigitsLength(n, 10, 20);
    DigitsLength(n, 16, 16);
  }

  lemma SixteenToTheSixteenth()
    ensures Pow(16, 16) == TWO_64
  {
    assert Pow(16, 4) == 0x1_0000;
    assert Pow(16, 8) == 0x1_0000 * Pow(16, 4);
    assert Pow(16, 16) == 0x1_0000_0000 * Pow(16, 8);
  }

  lemma TenToTheTwentieth()
    ensures Pow(10, 20) > TWO_64
  {
    assert Pow(10, 5) == 100000;
    assert Pow(10, 10) == 100000 * Pow(10, 5);
    assert Pow(10, 20) == 10000000000 * Pow(10, 10);
  }

  function Zeros(k: nat): (s: seq<char>)
    ensures |s| == k && AllDigits(s, 10) && AllDigits(s, 16)
    ensures forall i :: 0 <= i < k ==> s[i] == '0'
  {
    seq(k, _ => '0')
  }

  /** Leading zeros do not change the value of a numeral. */
  lemma {:induction false} ValueLeadingZeros(k: nat, s: seq<char>, base: nat)
    requires IsBase(base) && AllDigits(s, base)
    ensures AllDigits(Zeros(k) + s, base)
    ensures Value(Zeros(k) + s, base) == Value(s, base)
    decreases |s|
  {
    if s == [] {
      assert Zeros(k) + s == Zeros(k);
      ZerosHaveNoValue(k, base);
    } else {
      var t := Zeros(k) + s;
      assert t[..|t| - 1] == Zeros(k) + s[..|s| - 1];
      ValueLeadingZeros(k, s[..|s| - 1], base);
    }
  }

  lemma {:induction false} ZerosHaveNoValue(k: nat, base: nat)
    requires IsBase(base)
    ensures Value(Zeros(k), base) == 0
  {
    if k > 0 {
      assert Zeros(k)[..k - 1] == Zeros(k - 1);
      ZerosHaveNoValue(k - 1, base);
    }
  }

  /** The sixteen-digit upper-case hexadecimal numeral of a 64-bit value, padded with zeros on the left. */
  function Hex64Digits(n: u64): (s: seq<char>)
    ensures |s| == 16 && AllDigits(s, 16)
  {
    U64DigitBounds(n);
    Zeros(16 - |Digits(n, 16)|) + Digits(n, 16)
  }

  /** The padded numeral reads back as the value. */
  lemma Hex64RoundTrip(n: u64)
    ensures Value(Hex64Digits(n), 16) == n
  {
    U64DigitBounds(n);
    ValueLeadingZeros(16 - |Digits(n, 16)|, Digits(n, 16), 16);
    DigitsRoundTrip(n, 16);
  }

  /** A sequence read backwards; the converters collect digits least significant first. */
  function Reverse<T>(s: seq<T>): (r: seq<T>)
    ensures |r| == |s|
  {
    if s == [] then [] else Reverse(s[1..]) + [s[0]]
  }

  /** Element i of the reversal is element |s|-1-i of the original. */
  lemma {:induction false} ReverseIndex<T>(s: seq<T>)
    ensures forall i :: 0 <= i < |s| ==> Reverse(s)[i] == s[|s| - 1 - i]
  {
    if s != [] {
      ReverseIndex(s[1..]);
    }
  }

  /** What `udecimal_to_string` writes. */
  function UdecimalText(v: u64): seq<char>
  {
    Digits(v, 10)
  }

  /** The one signed value whose negation does not fit in 64 bits. */
  const INT64_MIN: int := -0x8000_0000_0000_0000

  /** What `decimal_to_string` writes: a minus sign for negative values, then the digits of the magnitude. */
  function DecimalText(v: i64): seq<char>
    requires v != INT64_MIN
  {
    if v < 0 then "-" + UdecimalText(-v) else UdecimalText(v)
  }

  /** What `hex_to_string` writes: the hexadecimal numeral followed by the suffix 'H'. */
  function HexText(v: u64): seq<char>
  {
    Digits(v, 16) + "H"
  }

  /** What `hex64_to_string` writes: sixteen zero-padded hexadecimal digits followed by 'H'. */
  function Hex64Text(v: u64): seq<char>
  {
    Hex64Digits(v) + "H"
  }

  /** Reads an optionally signed decimal numeral. */
  function ParseDecimal(s: seq<char>): (v: int)
    requires s != []
    requires s[0] == '-' ==> AllDigits(s[1..], 10)
    requires s[0] != '-' ==> AllDigits(s, 10)
  {
    if s[0] == '-' then 0 - Value(s[1..], 10) else Value(s, 10)
  }

  /**
   * The unsigned decimal text reads back as the value, is 1 to 20 characters
   * long and starts with '0' only for zero.
   */
  lemma UdecimalTextProperties(v: u64)
    ensures AllDigits(UdecimalText(v), 10) && Value(UdecimalText(v), 10) == v
    ensures 1 <= |UdecimalText(v)| <= 20
    ensures UdecimalText(v)[0] == '0' <==> v == 0
  {
    DigitsRoundTrip(v, 10);
    U64DigitBounds(v);
    DigitsCanonical(v, 10);
  }

  /**
   * The signed decimal text reads back as the value; it has a sign exactly
   * for negative values, and is one longer than the digits of the magnitude.
   */
  lemma DecimalTextRoundTrip(v: i64)
    requires v != INT64_MIN
    ensures DecimalText(v) != [] && (DecimalText(v)[0] == '-' <==> v < 0)
    ensures |DecimalText(v)| == (if v < 0 then 1 else 0) + |UdecimalText(if v < 0 then -v else v)|
    ensures ParseDecimal(DecimalText(v)) == v
  {
    var m := if v < 0 then -v else v;
    DigitsRoundTrip(m, 10);
    if v < 0 {
      assert DecimalText(v)[1..] == Digits(m, 10);
    }
  }

  /** For non-negative values the signed and unsigned texts coincide. */
  lemma DecimalOfNonNegative(v: i64)
    requires v >= 0
    ensures DecimalText(v) == UdecimalText(v)
  {
  }

  /**
   * The hexadecimal text is the digits and one 'H', at most 17 characters,
   * and the digits read back as the value.
   */
  lemma HexTextRoundTrip(v: u64)
    ensures var t := HexText(v);
      2 <= |t| <= 17 && t[|t| - 1] == 'H' && AllDigits(t[..|t| - 1], 16) && Value(t[..|t| - 1], 16) == v
  {
    assert HexText(v)[..|HexText(v)| - 1] == Digits(v, 16);
    DigitsRoundTrip(v, 16);
    U64DigitBounds(v);
  }

  /** The 64-bit text is always 17 characters, and its digits read back as the value. */
  lemma Hex64TextRoundTrip(v: u64)
    ensures var t := Hex64Text(v);
      |t| == 17 && t[16] == 'H' && AllDigits(t[..16], 16) && Value(t[..16], 16) == v
  {
    assert Hex64Text(v)[..16] == Hex64Digits(v);
    Hex64RoundTrip(v);
  }

  /** An example from the kernel's start-up output: 0x123456789ABCD prints as "123456789ABCDH". */
  lemma HexTextExample()
    ensures HexText(0x1_2345_6789_ABCD) == "123456789ABCDH"
  {
  }
}
