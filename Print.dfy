/**
 * The converters of the print library: each writes the text of a value into
 * a character buffer at a given position and returns how many characters it
 * wrote. The numeric ones collect digits least significant first into a
 * local `digits_buffer` with a do/while loop, then copy that buffer backwards.
 */
module Print {
  import opened Machine
  import opened Numerals
  import opened Lib

  /** s with t written over it from position p onwards. */
  function Splice<T>(s: seq<T>, p: nat, t: seq<T>): (r: seq<T>)
    requires p + |t| <= |s|
    ensures |r| == |s| && r[..p] == s[..p] && r[p..p + |t|] == t && r[p + |t|..] == s[p + |t|..]
  {
    s[..p] + t + s[p + |t|..]
  }

  /** Writing a then b right after it is writing a + b. */
  lemma SpliceAppend<T>(s: seq<T>, p: nat, a: seq<T>, b: seq<T>)
    requires p + |a| + |b| <= |s|
    ensures Splice(Splice(s, p, a), p + |a|, b) == Splice(s, p, a + b)
  {
    var l := Splice(Splice(s, p, a), p + |a|, b);
    var r := Splice(s, p, a + b);
    forall i | 0 <= i < |s| ensures l[i] == r[i] {
      if i < p {
        assert l[i] == s[i] == r[i];
      } else if i < p + |a| {
        assert l[i] == Splice(s, p, a)[i] == a[i - p];
      } else if i < p + |a| + |b| {
        assert l[i] == b[i - p - |a|];
      }
    }
  }

  /** Reversal turns appending at the end into prepending. */
  lemma ReverseSnoc<T>(s: seq<T>, x: T)
    ensures Reverse(s + [x]) == [x] + Reverse(s)
  {
    ReverseIndex(s + [x]);
    ReverseIndex(s);
  }

  /** One round of the do/while loop peels off the least significant digit. */
  lemma DigitsLastFirst(d: nat, base: nat)
    requires IsBase(base)
    ensures Digits(d, base) == (if d / base == 0 then [] else Digits(d / base, base)) + [DigitChar(d % base)]
    ensures d / base != 0 ==> d / base < d
  {
    if d >= base {
      assert d / base * base <= d;
    }
  }

  /** One round of the do/while loop, on the digits still to come and those already collected. */
  lemma ExtractStep(d: nat, base: nat, collected: seq<char>)
    requires IsBase(base)
    ensures d / base != 0 ==> d / base < d
    ensures Digits(d, base) + Reverse(collected)
         == (if d / base == 0 then [] else Digits(d / base, base)) + Reverse(collected + [DigitChar(d % base)])
  {
    DigitsLastFirst(d, base);
    ReverseSnoc(collected, DigitChar(d % base));
  }

  /**
   * The do/while loop of the numeric converters: stores the digits of v in
   * base into db, least significant first, and returns their count.
   */
  method ExtractDigits(db: array<char>, v: nat, base: nat) returns (size: nat)
    requires IsBase(base) && |Digits(v, base)| <= db.Length
    modifies db
    ensures size == |Digits(v, base)|
    ensures Reverse(db[..size]) == Digits(v, base)
  {
    var d: nat := v;
    size := 0;
    while true
      invariant size < |Digits(v, base)|
      invariant Digits(v, base) == Digits(d, base) + Reverse(db[..size])
      decreases d
    {
      ghost var before := db[..size];
      ExtractStep(d, base, before);
      db[size] := DigitChar(d % base);
      size := size + 1;
      assert db[..size] == before + [DigitChar(d % base)];
      d := d / base;
      if d == 0 {
        return;
      }
    }
  }

  /** The copy loop of the converters: db[size-1], ..., db[0] written to buffer from position on. */
  method WriteReversed(buffer: array<char>, position: nat, db: array<char>, size: nat)
    requires size <= db.Length && position + size <= buffer.Length && buffer != db
    modifies buffer
    ensures buffer[..] == Splice(old(buffer[..]), position, Reverse(db[..size]))
  {
    var i: int := size - 1;
    var p := position;
    while i >= 0
      invariant -1 <= i < size && p == position + (size - 1 - i)
      invariant forall j :: 0 <= j < position ==> buffer[j] == old(buffer[j])
      invariant forall j :: position <= j < p ==> buffer[j] == db[size - 1 - (j - position)]
      invariant forall j :: p <= j < buffer.Length ==> buffer[j] == old(buffer[j])
    {
      buffer[p] := db[i];
      p := p + 1;
      i := i - 1;
    }
    ReverseIndex(db[..size]);
    assert buffer[..] == Splice(old(buffer[..]), position, Reverse(db[..size]));
  }

  /** Reversal of a concatenation is the reversed parts in the other order. */
  lemma {:induction false} ReverseConcat<T>(a: seq<T>, b: seq<T>)
    ensures Reverse(a + b) == Reverse(b) + Reverse(a)
  {
    if a == [] {
      assert a + b == b;
    } else {
      assert (a + b)[1..] == a[1..] + b;
      ReverseConcat(a[1..], b);
    }
  }

  /** A run of zeros reads the same backwards. */
  lemma {:induction false} ReverseZeros(m: nat)
    ensures Reverse(Zeros(m)) == Zeros(m)
  {
    if m > 0 {
      assert Zeros(m)[1..] == Zeros(m - 1);
      ReverseZeros(m - 1);
      assert Zeros(m - 1) + ['0'] == Zeros(m);
    }
  }

  /** The tail of both hexadecimal converters: the collected digits, most significant first, then 'H'. */
  method WriteHex(buffer: array<char>, position: nat, db: array<char>, size: nat, ghost numeral: seq<char>)
    requires size <= db.Length && position + size + 1 <= buffer.Length && buffer != db
    requires Reverse(db[..size]) == numeral
    modifies buffer
    ensures buffer[..] == Splice(old(buffer[..]), position, numeral + "H")
  {
    WriteReversed(buffer, position, db, size);
    buffer[position + size] := 'H';
    SpliceAppend(old(buffer[..]), position, Reverse(db[..size]), "H");
  }

  /** `udecimal_to_string`: the decimal digits of the value, most significant first. */
  method UdecimalToString(buffer: array<char>, position: nat, digits: u64) returns (size: nat)
    requires position + |UdecimalText(digits)| <= buffer.Length
    modifies buffer
    ensures size == |UdecimalText(digits)|
    ensures buffer[..] == Splice(old(buffer[..]), position, UdecimalText(digits))
  {
    var digitsBuffer := new char[25];
    U64DigitBounds(digits);
    size := ExtractDigits(digitsBuffer, digits, 10);
    WriteReversed(buffer, position, digitsBuffer, size);
  }

  /** `decimal_to_string`: a '-' for a negative value, then the digits of its magnitude. */
  method DecimalToString(buffer: array<char>, position: nat, digits: i64) returns (size: nat)
    requires digits != INT64_MIN
    requires position + |DecimalText(digits)| <= buffer.Length
    modifies buffer
    ensures size == |DecimalText(digits)|
    ensures buffer[..] == Splice(old(buffer[..]), position, DecimalText(digits))
  {
    size := 0;
    var p := position;
    var d := digits;
    if d < 0 {
      d := -d;
      buffer[p] := '-';
      p := p + 1;
      size := 1;
      assert buffer[..] == Splice(old(buffer[..]), position, "-");
    }
    ghost var mid := buffer[..];
    var n := UdecimalToString(buffer, p, d);
    size := size + n;
    if digits < 0 {
      SpliceAppend(old(buffer[..]), position, "-", UdecimalText(d));
    }
  }

  /** `hex_to_string`: the upper-case hexadecimal digits, no leading zeros, then 'H'. */
  method HexToString(buffer: array<char>, position: nat, digits: u64) returns (size: nat)
    requires position + |HexText(digits)| <= buffer.Length
    modifies buffer
    ensures size == |HexText(digits)|
    ensures buffer[..] == Splice(old(buffer[..]), position, HexText(digits))
  {
    var digitsBuffer := new char[25];
    U64DigitBounds(digits);
    var n := ExtractDigits(digitsBuffer, digits, 16);
    WriteHex(buffer, position, digitsBuffer, n, Digits(digits, 16));
    size := n + 1;
  }

  /** The padding loop of `hex64_to_string`: '0's after the collected digits up to sixteen in all. */
  method PadWithZeros(db: array<char>, k: nat, ghost numeral: seq<char>) returns (n: nat)
    requires k <= 16 <= db.Length && Reverse(db[..k]) == numeral
    modifies db
    ensures n == 16 && Reverse(db[..n]) == Zeros(16 - k) + numeral
  {
    ghost var collected := db[..k];
    n := k;
    assert collected + Zeros(0) == collected;
    while n < 16
      invariant k <= n <= 16 && db[..n] == collected + Zeros(n - k)
    {
      db[n] := '0';
      assert db[..n + 1] == db[..n] + ['0'];
      assert Zeros(n - k) + ['0'] == Zeros(n + 1 - k);
      n := n + 1;
    }
    ReverseConcat(collected, Zeros(16 - k));
    ReverseZeros(16 - k);
  }

  /** `hex64_to_string`: always sixteen upper-case hexadecimal digits, zero-padded on the left, then 'H'. */
  method Hex64ToString(buffer: array<char>, position: nat, digits: u64) returns (size: nat)
    requires position + 17 <= buffer.Length
    modifies buffer
    ensures size == |Hex64Text(digits)| == 17
    ensures buffer[..] == Splice(old(buffer[..]), position, Hex64Text(digits))
  {
    var digitsBuffer := new char[17];
    U64DigitBounds(digits);
    var n := ExtractDigits(digitsBuffer, digits, 16);
    n := PadWithZeros(digitsBuffer, n, Digits(digits, 16));
    WriteHex(buffer, position, digitsBuffer, n, Hex64Digits(digits));
    size := n + 1;
  }

  /** `read_string`: copies the characters of a C string, without its NUL, and returns how many. */
  method ReadString(buffer: array<char>, position: nat, str: seq<char>) returns (index: nat)
    requires NUL in str && position + CLen(str) <= buffer.Length
    modifies buffer
    ensures index == |CString(str)|
    ensures buffer[..] == Splice(old(buffer[..]), position, CString(str))
  {
    index := 0;
    while str[index] != NUL
      invariant index <= CLen(str)
      invariant forall j :: 0 <= j < position ==> buffer[j] == old(buffer[j])
      invariant forall j :: position <= j < position + index ==> buffer[j] == str[j - position]
      invariant forall j :: position + index <= j < buffer.Length ==> buffer[j] == old(buffer[j])
      decreases CLen(str) - index
    {
      buffer[position + index] := str[index];
      index := index + 1;
    }
    assert buffer[..] == Splice(old(buffer[..]), position, CString(str));
  }
}
