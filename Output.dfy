/**
 * `printk` and `vprintk`: each walks its format, builds the output in a
 * local 1024-character buffer with the converters, and hands the buffer to
 * `write_screen` in white. Each is proved to build exactly the text of its
 * walker in Format and to leave the screen as writing that text leaves it.
 */
module Output {
  import opened Machine
  import opened Numerals
  import opened Lib
  import opened Print
  import opened Format
  import opened Screen

  /** The size of the local output buffer of both interpreters. */
  const OUTPUT_SIZE: nat := 1024

  /** After writing t at p, the first p + |t| characters are the old first p and t. */
  lemma {:induction false} SplicePrefix<T>(s: seq<T>, p: nat, t: seq<T>)
    requires p + |t| <= |s|
    ensures Splice(s, p, t)[..p + |t|] == s[..p] + t
  {
  }

  /** A single `buffer[position] = c`. */
  method Emit(buffer: array<char>, position: nat, c: char)
    requires position < buffer.Length
    modifies buffer
    ensures buffer[..] == Splice(old(buffer[..]), position, [c])
  {
    buffer[position] := c;
  }

  // ---------------------------------------------------------------- printk

  /**
   * The invariant of `printk`'s loop: done, the text in the buffer so far,
   * followed by the text from format[i] and args[a] on, is the whole text.
   */
  ghost predicate PrintkProgress(done: seq<char>, format: seq<char>, i: nat, args: seq<Arg>, a: nat, total: seq<char>)
    requires InFormat(format, i) && a <= |args|
  {
    PrintkFrom(format, i, args, a).Some? && done + PrintkFrom(format, i, args, a).value == total
  }

  /**
   * One step of `printk`'s loop, at index i of the format and a of the
   * arguments: the step's text follows what is done, and the invariant holds
   * where the step ends.
   */
  lemma {:induction false} PrintkAdvance(done: seq<char>, format: seq<char>, i: nat, args: seq<Arg>, a: nat, total: seq<char>) returns (p: Piece)
    requires InFormat(format, i) && i < CLen(format) && a <= |args|
    requires PrintkProgress(done, format, i, args, a, total)
    ensures PrintkPiece(format, i, args, a) == Some(p)
    ensures |done| + |p.text| <= |total|
    ensures PrintkProgress(done + p.text, format, i + p.span, args, a + p.used, total)
  {
    p := PrintkPiece(format, i, args, a).value;
    var rest := PrintkFrom(format, i + p.span, args, a + p.used);
    assert done + (p.text + rest.value) == (done + p.text) + rest.value;
  }

  /**
   * The body of the loop of `printk` at format[i], which is not the
   * terminator, with args[a] the next argument: writes the step's text at size.
   */
  method PrintkStep(buffer: array<char>, size: nat, format: seq<char>, i: nat, args: seq<Arg>, a: nat, ghost p: Piece)
      returns (span: nat, used: nat, n: nat)
    requires InFormat(format, i) && i < CLen(format) && a <= |args|
    requires PrintkPiece(format, i, args, a) == Some(p)
    requires size + |p.text| <= buffer.Length
    modifies buffer
    ensures span == p.span && used == p.used && n == |p.text|
    ensures buffer[..] == Splice(old(buffer[..]), size, p.text)
  {
    if format[i] != '%' {
      buffer[size] := format[i];
      span, used, n := 1, 0, 1;
      assert buffer[..] == Splice(old(buffer[..]), size, [format[i]]);
      return;
    }
    var c := format[i + 1];
    if c == 'x' {
      n := HexToString(buffer, size, args[a].bits);
      span, used := 2, 1;
    } else if c == 'u' {
      n := UdecimalToString(buffer, size, args[a].bits);
      span, used := 2, 1;
    } else if c == 'd' {
      n := DecimalToString(buffer, size, AsSigned(args[a].bits));
      span, used := 2, 1;
    } else if c == 's' {
      n := ReadString(buffer, size, args[a].mem);
      span, used := 2, 1;
    } else if c == 'c' {
      buffer[size] := CharOf(args[a].bits);
      span, used, n := 2, 1, 1;
      assert buffer[..] == Splice(old(buffer[..]), size, [CharOf(args[a].bits)]);
    } else if c == 'l' {
      if format[i + 2] == 'l' {
        n := Hex64ToString(buffer, size, args[a].bits);
        span, used := 3, 1;
      } else {
        buffer[size] := '%';
        buffer[size + 1] := 'l';
        span, used, n := 2, 0, 2;
        assert buffer[..] == Splice(old(buffer[..]), size, "%l");
      }
    } else {
      buffer[size] := '%';
      span, used, n := 1, 0, 1;
      assert buffer[..] == Splice(old(buffer[..]), size, "%");
    }
  }

  /**
   * One round of the loop of `printk`: the text so far is in buffer[..size];
   * the round appends the next step's text and moves past the format
   * characters and arguments the step used.
   */
  method PrintkRound(buffer: array<char>, size: nat, format: seq<char>, i: nat, args: seq<Arg>, a: nat,
                     ghost done: seq<char>, ghost total: seq<char>)
      returns (size': nat, i': nat, a': nat, ghost done': seq<char>)
    requires InFormat(format, i) && i < CLen(format) && a <= |args|
    requires buffer.Length == OUTPUT_SIZE && |total| <= OUTPUT_SIZE
    requires size <= buffer.Length && done == buffer[..size] && PrintkProgress(done, format, i, args, a, total)
    modifies buffer
    ensures i < i' <= CLen(format) && a' <= |args| && size' <= buffer.Length
    ensures done' == buffer[..size'] && PrintkProgress(done', format, i', args, a', total)
  {
    ghost var before := buffer[..];
    ghost var p := PrintkAdvance(done, format, i, args, a, total);
    var span, used, n := PrintkStep(buffer, size, format, i, args, a, p);
    SplicePrefix(before, size, p.text);
    done' := done + p.text;
    size', i', a' := size + n, i + span, a + used;
    assert i' == i + p.span && a' == a + p.used;
  }

  /**
   * The loop of `printk`: builds the text of the format in a local buffer of
   * OUTPUT_SIZE characters, one conversion at a time.
   */
  method PrintkBuild(format: seq<char>, args: seq<Arg>) returns (text: seq<char>)
    requires NUL in format
    requires PrintkText(format, args).Some? && |PrintkText(format, args).value| <= OUTPUT_SIZE
    ensures text == PrintkText(format, args).value
  {
    var buffer := new char[OUTPUT_SIZE];
    ghost var total := PrintkText(format, args).value;
    var size: nat := 0;
    var i: nat := 0;
    var a: nat := 0;
    ghost var done: seq<char> := [];
    while format[i] != NUL
      invariant i <= CLen(format) && a <= |args| && size <= buffer.Length == OUTPUT_SIZE
      invariant done == buffer[..size] && PrintkProgress(done, format, i, args, a, total)
      decreases CLen(format) - i
    {
      size, i, a, done := PrintkRound(buffer, size, format, i, args, a, done, total);
    }
    assert done + [] == total;
    text := buffer[..size];
  }

  /**
   * `printk(format, ...)`: the text handed to the screen is the text of the
   * walker, in white, and the count returned is its length.
   */
  method Printk(sb: ScreenBuffer, format: seq<char>, args: seq<Arg>) returns (count: int)
    requires sb.Valid() && NUL in format
    requires PrintkText(format, args).Some? && |PrintkText(format, args).value| <= OUTPUT_SIZE
    modifies sb, sb.cells
    ensures sb.Valid() && sb.cells == old(sb.cells)
    ensures count == |PrintkText(format, args).value|
    ensures sb.Snapshot() == WriteAll(old(sb.Snapshot()), PrintkText(format, args).value, WHITE)
  {
    var text := PrintkBuild(format, args);
    sb.WriteScreen(text, WHITE);
    count := |text|;
  }

  // --------------------------------------------------------------- vprintk

  /** The padding loop of `vprintk`'s numeric conversions: count zeros from position on. */
  method WriteZeros(buffer: array<char>, position: nat, count: nat)
    requires position + count <= buffer.Length
    modifies buffer
    ensures buffer[..] == Splice(old(buffer[..]), position, Zeros(count))
  {
    var k: nat := 0;
    while k < count
      invariant k <= count
      invariant forall q :: 0 <= q < position ==> buffer[q] == old(buffer[q])
      invariant forall q :: position <= q < position + k ==> buffer[q] == '0'
      invariant forall q :: position + k <= q < buffer.Length ==> buffer[q] == old(buffer[q])
    {
      buffer[position + k] := '0';
      k := k + 1;
    }
    assert buffer[..] == Splice(old(buffer[..]), position, Zeros(count));
  }

  /** The copy loop of `vprintk`'s numeric conversions: the len characters of src from index from. */
  method CopyChars(buffer: array<char>, position: nat, src: array<char>, from: nat, len: nat)
    requires from + len <= src.Length && buffer != src && position + len <= buffer.Length
    modifies buffer
    ensures buffer[..] == Splice(old(buffer[..]), position, src[from..from + len])
  {
    var j: nat := 0;
    while j < len
      invariant j <= len
      invariant forall q :: 0 <= q < position ==> buffer[q] == old(buffer[q])
      invariant forall q :: position <= q < position + j ==> buffer[q] == src[from + (q - position)]
      invariant forall q :: position + j <= q < buffer.Length ==> buffer[q] == old(buffer[q])
    {
      buffer[position + j] := src[from + j];
      j := j + 1;
    }
    assert buffer[..] == Splice(old(buffer[..]), position, src[from..from + len]);
  }

  /**
   * The padding and copy loops of `vprintk`'s numeric conversions: zeros up
   * to width when the flag is given and the len characters of src from
   * index from are shorter, then those characters.
   */
  method AppendPadded(buffer: array<char>, position: nat, zero: bool, width: int, src: array<char>, from: nat, len: nat,
                      ghost s: seq<char>)
      returns (n: nat)
    requires from + len <= src.Length && buffer != src && src[from..from + len] == s
    requires position + |Pad(zero, width, s)| <= buffer.Length
    modifies buffer
    ensures n == |Pad(zero, width, s)|
    ensures buffer[..] == Splice(old(buffer[..]), position, Pad(zero, width, s))
  {
    var pad: nat := 0;
    if zero && len < width {
      pad := width - len;
    }
    assert Pad(zero, width, s) == Zeros(pad) + s;
    WriteZeros(buffer, position, pad);
    CopyChars(buffer, position + pad, src, from, len);
    SpliceAppend(old(buffer[..]), position, Zeros(pad), s);
    n := pad + len;
  }

  /** The %X loop of `vprintk`: turns lower-case hexadecimal letters upper-case; the converter writes none. */
  method UpperCase(hexBuffer: array<char>, len: nat, ghost v: u64)
    requires len <= hexBuffer.Length && hexBuffer[..len] == HexText(v)
    modifies hexBuffer
    ensures hexBuffer[..] == old(hexBuffer[..])
  {
    HexTextIsUpperCase(v);
    var j := 0;
    while j < len
      invariant j <= len && hexBuffer[..] == old(hexBuffer[..])
    {
      if 'a' <= hexBuffer[j] <= 'f' {
        // the upper-casing assignment: the converter's text has no lower-case letter to turn
        assert false;
      }
      j := j + 1;
    }
  }

  /** A width of `int` has at most ten decimal digits. */
  lemma {:induction false} WidthDigits(width: nat)
    requires width <= INT32_MAX
    ensures |Digits(width, 10)| <= 10
  {
    assert Pow(10, 10) > INT32_MAX by {
      assert Pow(10, 5) == 100000;
      assert Pow(10, 10) == 100000 * Pow(10, 5);
    }
    DigitsLength(width, 10, 10);
  }

  /** The '%' and, when given, the '0' flag of an echoed conversion. */
  method EchoFlagChars(buffer: array<char>, position: nat, zero: bool) returns (n: nat)
    requires position + 2 <= buffer.Length
    modifies buffer
    ensures n == |EchoFlag(zero)|
    ensures buffer[..] == Splice(old(buffer[..]), position, EchoFlag(zero))
  {
    Emit(buffer, position, '%');
    n := 1;
    if zero {
      Emit(buffer, position + 1, '0');
      SpliceAppend(old(buffer[..]), position, "%", "0");
      assert "%" + "0" == "%0";
      n := 2;
    }
  }

  /**
   * The width of an echoed conversion written back in decimal, when it is
   * positive: the `while (w > 0)` loop of the source is then the digit
   * extraction loop, and the digits are copied most significant first.
   */
  method WidthChars(buffer: array<char>, position: nat, width: nat) returns (n: nat)
    requires width <= INT32_MAX
    requires position + |EchoWidth(width)| <= buffer.Length
    modifies buffer
    ensures n == |EchoWidth(width)|
    ensures buffer[..] == Splice(old(buffer[..]), position, EchoWidth(width))
  {
    n := 0;
    if width > 0 {
      var widthBuffer := new char[10];
      WidthDigits(width);
      n := ExtractDigits(widthBuffer, width, 10);
      WriteReversed(buffer, position, widthBuffer, n);
    } else {
      assert buffer[..] == Splice(old(buffer[..]), position, []);
    }
  }

  /**
   * The default case of `vprintk`'s switch: '%', the '0' flag if given, the
   * width if positive, and the conversion character.
   */
  method EchoConversion(buffer: array<char>, position: nat, zero: bool, width: nat, c: char) returns (n: nat)
    requires width <= INT32_MAX
    requires position + |EchoText(zero, width, c)| <= buffer.Length
    modifies buffer
    ensures n == |EchoText(zero, width, c)|
    ensures buffer[..] == Splice(old(buffer[..]), position, EchoText(zero, width, c))
  {
    ghost var head := EchoHead(zero, width);
    var h := EchoHeadChars(buffer, position, zero, width);
    Emit(buffer, position + h, c);
    SpliceAppend(old(buffer[..]), position, head, [c]);
    n := h + 1;
  }

  /** The '%', the flag and the width of an echoed conversion. */
  method EchoHeadChars(buffer: array<char>, position: nat, zero: bool, width: nat) returns (n: nat)
    requires width <= INT32_MAX
    requires position + |EchoHead(zero, width)| < buffer.Length
    modifies buffer
    ensures n == |EchoHead(zero, width)|
    ensures buffer[..] == Splice(old(buffer[..]), position, EchoHead(zero, width))
  {
    var f := EchoFlagChars(buffer, position, zero);
    var w := WidthChars(buffer, position + f, width);
    SpliceAppend(old(buffer[..]), position, EchoFlag(zero), EchoWidth(width));
    n := f + w;
  }

  /**
   * The flag and width parsing of `vprintk` after the '%' at format[i]:
   * returns the flag, the width and the index of the conversion character.
   */
  method ParseConversion(format: seq<char>, i: nat) returns (zero: bool, width: nat, at: nat)
    requires InFormat(format, i) && i < CLen(format) && format[i] == '%'
    ensures Spec(zero, width, at) == ParseSpec(format, i)
  {
    ghost var sp := ParseSpec(format, i);
    ParseSpecShape(format, i);
    zero := false;
    at := i + 1;
    if format[at] == '0' {
      zero := true;
      at := at + 1;
    }
    ghost var start := at;
    width := 0;
    while '0' <= format[at] <= '9'
      invariant start <= at <= sp.at
      invariant width == WidthValue(format, start, at)
      decreases sp.at - at
    {
      width := width * 10 + (format[at] as int - '0' as int);
      at := at + 1;
    }
  }

  /**
   * The local `hex_buffer` or `dec_buffer` of a numeric conversion as the
   * source leaves it: the converter writes its text from index 0 and no
   * terminator, so the rest is whatever the stack held before.
   */
  function ConverterBufferAsWritten(stale: seq<char>, text: seq<char>): (b: seq<char>)
    requires |text| <= |stale|
    ensures |b| == |stale| && b[..|text|] == text && b[|text|..] == stale[|text|..]
  {
    Splice(stale, 0, text)
  }

  /**
   * The `strlen` of that buffer need not be the length of the text: with
   * "XYZW" and a NUL left on the stack, %x of 0 measures four characters and
   * copies "0HZW" where "0H" was meant.
   */
  lemma {:induction false} StaleConverterBuffer()
    ensures var b := ConverterBufferAsWritten("XYZW" + [NUL] + Zeros(20), HexText(0));
      |b| == 25 && NUL in b && CLen(b) == 4 && CString(b) == "0HZW" && |HexText(0)| == 2
  {
    assert HexText(0) == "0H";
    var b := ConverterBufferAsWritten("XYZW" + [NUL] + Zeros(20), HexText(0));
    assert b[..5] == "0HZW" + [NUL];
    CLenUnique(b, 4);
  }

  /** With no NUL left on the stack, the `strlen` of the buffer runs off its end. */
  lemma {:induction false} UnterminatedConverterBuffer()
    ensures NUL !in ConverterBufferAsWritten(Zeros(25), HexText(0))
  {
    assert HexText(0) == "0H";
    var c := ConverterBufferAsWritten(Zeros(25), HexText(0));
    forall k | 0 <= k < 25 ensures c[k] != NUL {
      if k >= 2 {
        assert c[k] == Zeros(25)[k];
      }
    }
  }

  /** `hex_to_string` into a local buffer, the %X loop, then the padding and copy loops. */
  method EmitHex(buffer: array<char>, position: nat, zero: bool, width: nat, v: u64, upper: bool) returns (n: nat)
    requires position + |Pad(zero, width, HexText(v))| <= buffer.Length
    modifies buffer
    ensures n == |Pad(zero, width, HexText(v))|
    ensures buffer[..] == Splice(old(buffer[..]), position, Pad(zero, width, HexText(v)))
  {
    var hexBuffer := new char[25];
    HexTextRoundTrip(v);
    var m := HexToString(hexBuffer, 0, v);
    assert hexBuffer[0..m] == HexText(v);
    if upper {
      UpperCase(hexBuffer, m, v);
    }
    n := AppendPadded(buffer, position, zero, width, hexBuffer, 0, m, HexText(v));
  }

  /** `udecimal_to_string` into a local buffer, then the padding and copy loops. */
  method EmitUnsigned(buffer: array<char>, position: nat, zero: bool, width: nat, v: u64) returns (n: nat)
    requires position + |Pad(zero, width, UdecimalText(v))| <= buffer.Length
    modifies buffer
    ensures n == |Pad(zero, width, UdecimalText(v))|
    ensures buffer[..] == Splice(old(buffer[..]), position, Pad(zero, width, UdecimalText(v)))
  {
    var decBuffer := new char[25];
    UdecimalTextProperties(v);
    var m := UdecimalToString(decBuffer, 0, v);
    assert decBuffer[0..m] == UdecimalText(v);
    n := AppendPadded(buffer, position, zero, width, decBuffer, 0, m, UdecimalText(v));
  }

  /** The '-' that %d of `vprintk` writes before the padding of a negative value. */
  method WriteSign(buffer: array<char>, position: nat, negative: bool) returns (n: nat)
    requires position + 1 <= buffer.Length
    modifies buffer
    ensures n == (if negative then 1 else 0)
    ensures buffer[..] == Splice(old(buffer[..]), position, if negative then "-" else "")
  {
    n := 0;
    if negative {
      Emit(buffer, position, '-');
      n := 1;
    } else {
      assert buffer[..] == Splice(old(buffer[..]), position, []);
    }
  }

  /** The text of %d split where `vprintk` splits it: the sign, if any, and the digits that get padded. */
  lemma {:induction false} SignedSplit(zero: bool, width: nat, v: i64) returns (sign: seq<char>, digits: seq<char>)
    requires v != INT64_MIN
    ensures sign == (if DecimalText(v)[0] == '-' then "-" else "")
    ensures DecimalText(v) == sign + digits && SignedText(zero, width, v) == sign + Pad(zero, width, digits)
  {
    DecimalTextRoundTrip(v);
    var t := DecimalText(v);
    sign := if t[0] == '-' then "-" else "";
    digits := t[|sign|..];
    assert t[..|sign|] == sign;
  }

  /**
   * The rest of %d of `vprintk`, once `decimal_to_string` has put the text
   * of v into decBuffer: a leading '-' is written first, and the padding
   * goes between it and the digits.
   */
  method SignedPadded(buffer: array<char>, position: nat, zero: bool, width: nat, decBuffer: array<char>, m: nat, ghost v: i64)
      returns (n: nat)
    requires v != INT64_MIN && buffer != decBuffer
    requires m <= decBuffer.Length && decBuffer[..m] == DecimalText(v)
    requires position + |SignedText(zero, width, v)| <= buffer.Length
    modifies buffer
    ensures n == |SignedText(zero, width, v)|
    ensures buffer[..] == Splice(old(buffer[..]), position, SignedText(zero, width, v))
  {
    ghost var sign, digits := SignedSplit(zero, width, v);
    var negative := decBuffer[0] == '-';
    var start := WriteSign(buffer, position, negative);
    ghost var mid := buffer[..];
    assert decBuffer[start..start + (m - start)] == digits;
    var k := AppendPadded(buffer, position + start, zero, width, decBuffer, start, m - start, digits);
    SpliceAppend(old(buffer[..]), position, sign, Pad(zero, width, digits));
    n := start + k;
  }

  /** %d of `vprintk`: `decimal_to_string` into a local buffer, then the sign, padding and digits. */
  method EmitSigned(buffer: array<char>, position: nat, zero: bool, width: nat, v: i64) returns (n: nat)
    requires v != INT64_MIN
    requires position + |SignedText(zero, width, v)| <= buffer.Length
    modifies buffer
    ensures n == |SignedText(zero, width, v)|
    ensures buffer[..] == Splice(old(buffer[..]), position, SignedText(zero, width, v))
  {
    var decBuffer := new char[25];
    DecimalTextRoundTrip(v);
    UdecimalTextProperties(if v < 0 then -v else v);
    var m := DecimalToString(decBuffer, 0, v);
    assert decBuffer[..m] == DecimalText(v);
    n := SignedPadded(buffer, position, zero, width, decBuffer, m, v);
  }

  /** The switch of `vprintk` on the conversion character c, after the flag and the width. */
  method ConversionStep(buffer: array<char>, position: nat, zero: bool, width: nat, c: char, args: seq<Arg>, a: nat,
                        ghost q: Piece)
      returns (used: nat, n: nat)
    requires width <= INT32_MAX && a <= |args|
    requires Conversion(zero, width, c, args, a) == Some(q)
    requires position + |q.text| <= buffer.Length
    modifies buffer
    ensures used == q.used && n == |q.text|
    ensures buffer[..] == Splice(old(buffer[..]), position, q.text)
  {
    if c == 'x' || c == 'X' {
      n := EmitHex(buffer, position, zero, width, args[a].bits, c == 'X');
      used := 1;
    } else if c == 'u' {
      n := EmitUnsigned(buffer, position, zero, width, args[a].bits);
      used := 1;
    } else if c == 'd' {
      n := EmitSigned(buffer, position, zero, width, AsSigned(args[a].bits));
      used := 1;
    } else if c == 's' {
      n := ReadString(buffer, position, args[a].mem);
      used := 1;
    } else if c == 'c' {
      Emit(buffer, position, CharOf(args[a].bits));
      used, n := 1, 1;
    } else {
      n := EchoConversion(buffer, position, zero, width, c);
      used := 0;
    }
  }

  /** A conversion of `vprintk` that has a text: its parsed flag and width, and what its switch contributes. */
  lemma {:induction false} ConversionOfPiece(format: seq<char>, i: nat, args: seq<Arg>, a: nat, p: Piece) returns (q: Piece)
    requires InFormat(format, i) && i < CLen(format) && a <= |args| && format[i] == '%'
    requires VprintkPiece(format, i, args, a) == Some(p)
    ensures var sp := ParseSpec(format, i);
      sp.width <= INT32_MAX && p.span == sp.at + 1 - i &&
      Conversion(sp.zero, sp.width, format[sp.at], args, a) == Some(q) && q.text == p.text && q.used == p.used
  {
    var sp := ParseSpec(format, i);
    q := Conversion(sp.zero, sp.width, format[sp.at], args, a).value;
  }

  /**
   * The body of the loop of `vprintk` at format[i], which is not the
   * terminator, with args[a] the next argument: writes the step's text at size.
   */
  method VprintkStep(buffer: array<char>, size: nat, format: seq<char>, i: nat, args: seq<Arg>, a: nat, ghost p: Piece)
      returns (span: nat, used: nat, n: nat)
    requires InFormat(format, i) && i < CLen(format) && a <= |args|
    requires VprintkPiece(format, i, args, a) == Some(p)
    requires size + |p.text| <= buffer.Length
    modifies buffer
    ensures span == p.span && used == p.used && n == |p.text|
    ensures buffer[..] == Splice(old(buffer[..]), size, p.text)
  {
    if format[i] != '%' {
      Emit(buffer, size, format[i]);
      span, used, n := 1, 0, 1;
      return;
    }
    ghost var q := ConversionOfPiece(format, i, args, a, p);
    var zero, width, at := ParseConversion(format, i);
    used, n := ConversionStep(buffer, size, zero, width, format[at], args, a, q);
    span := at + 1 - i;
  }

  /**
   * The invariant of `vprintk`'s loop: done, the text in the buffer so far,
   * followed by the text from format[i] and args[a] on, is the whole text.
   */
  ghost predicate VprintkProgress(done: seq<char>, format: seq<char>, i: nat, args: seq<Arg>, a: nat, total: seq<char>)
    requires InFormat(format, i) && a <= |args|
  {
    VprintkFrom(format, i, args, a).Some? && done + VprintkFrom(format, i, args, a).value == total
  }

  /** When the text from here is a piece followed by the rest, the rest follows what is done and the piece. */
  lemma {:induction false} ProgressStep(done: seq<char>, total: seq<char>, text: seq<char>, here: Option<seq<char>>, rest: Option<seq<char>>)
    requires here == Prepend(text, rest) && here.Some? && done + here.value == total
    ensures rest.Some? && |done| + |text| <= |total| && (done + text) + rest.value == total
  {
    assert done + (text + rest.value) == (done + text) + rest.value;
  }

  /** One step of `vprintk`'s loop: the step's text follows what is done, and the invariant holds where the step ends. */
  lemma {:induction false} VprintkAdvance(done: seq<char>, format: seq<char>, i: nat, args: seq<Arg>, a: nat, total: seq<char>) returns (p: Piece)
    requires InFormat(format, i) && i < CLen(format) && a <= |args|
    requires VprintkProgress(done, format, i, args, a, total)
    ensures VprintkPiece(format, i, args, a) == Some(p)
    ensures i < i + p.span <= CLen(format) && a + p.used <= |args| && InFormat(format, i + p.span)
    ensures |done| + |p.text| <= |total|
    ensures VprintkProgress(done + p.text, format, i + p.span, args, a + p.used, total)
  {
    p := VprintkPiece(format, i, args, a).value;
    ProgressStep(done, total, p.text, VprintkFrom(format, i, args, a), VprintkFrom(format, i + p.span, args, a + p.used));
  }

  /**
   * The bookkeeping of one round: after the step's text is written at size,
   * the buffer up to the new size is what was done and the step's text, and the
   * invariant holds where the step's method says the step ends.
   */
  lemma {:induction false} RoundBookkeeping(before: seq<char>, after: seq<char>, size: nat, done: seq<char>, format: seq<char>, i: nat,
                         args: seq<Arg>, a: nat, total: seq<char>, p: Piece, i': nat, a': nat, n: nat)
    requires size + |p.text| <= |before| && before[..size] == done && after == Splice(before, size, p.text)
    requires InFormat(format, i + p.span) && a + p.used <= |args|
    requires VprintkProgress(done + p.text, format, i + p.span, args, a + p.used, total)
    requires i' == i + p.span && a' == a + p.used && n == |p.text|
    ensures size + n <= |after| && after[..size + n] == done + p.text
    ensures InFormat(format, i') && a' <= |args| && VprintkProgress(done + p.text, format, i', args, a', total)
  {
    SplicePrefix(before, size, p.text);
  }

  /**
   * One round of the loop of `vprintk`: the text so far is in buffer[..size];
   * the round appends the next step's text and moves past the format
   * characters and arguments the step used.
   */
  method VprintkRound(buffer: array<char>, size: nat, format: seq<char>, i: nat, args: seq<Arg>, a: nat,
                      ghost done: seq<char>, ghost total: seq<char>)
      returns (size': nat, i': nat, a': nat, ghost done': seq<char>)
    requires InFormat(format, i) && i < CLen(format) && a <= |args|
    requires buffer.Length == OUTPUT_SIZE && |total| <= OUTPUT_SIZE
    requires size <= buffer.Length && done == buffer[..size] && VprintkProgress(done, format, i, args, a, total)
    modifies buffer
    ensures i < i' <= CLen(format) && a' <= |args| && size' <= buffer.Length
    ensures done' == buffer[..size'] && VprintkProgress(done', format, i', args, a', total)
  {
    ghost var before := buffer[..];
    ghost var p := VprintkAdvance(done, format, i, args, a, total);
    done' := done + p.text;
    var span, used, n := VprintkStep(buffer, size, format, i, args, a, p);
    i', a' := i + span, a + used;
    size' := size + n;
    RoundBookkeeping(before, buffer[..], size, done, format, i, args, a, total, p, i', a', n);
  }

  /**
   * The loop of `vprintk`: builds the text of the format in a local buffer
   * of OUTPUT_SIZE characters, one conversion at a time.
   */
  method VprintkBuild(format: seq<char>, args: seq<Arg>) returns (text: seq<char>)
    requires NUL in format
    requires VprintkText(format, args).Some? && |VprintkText(format, args).value| <= OUTPUT_SIZE
    ensures text == VprintkText(format, args).value
  {
    var buffer := new char[OUTPUT_SIZE];
    ghost var total := VprintkText(format, args).value;
    var size: nat := 0;
    var i: nat := 0;
    var a: nat := 0;
    ghost var done: seq<char> := [];
    while format[i] != NUL
      invariant i <= CLen(format) && a <= |args| && size <= buffer.Length == OUTPUT_SIZE
      invariant done == buffer[..size] && VprintkProgress(done, format, i, args, a, total)
      decreases CLen(format) - i
    {
      size, i, a, done := VprintkRound(buffer, size, format, i, args, a, done, total);
    }
    VprintkEnd(format, args, a);
    assert done + [] == total;
    text := buffer[..size];
  }

  /**
   * `vprintk(format, args)`: the text handed to the screen is the text of
   * the walker, in white, and the count returned is its length.
   */
  method Vprintk(sb: ScreenBuffer, format: seq<char>, args: seq<Arg>) returns (count: int)
    requires sb.Valid() && NUL in format
    requires VprintkText(format, args).Some? && |VprintkText(format, args).value| <= OUTPUT_SIZE
    modifies sb, sb.cells
    ensures sb.Valid() && sb.cells == old(sb.cells)
    ensures count == |VprintkText(format, args).value|
    ensures sb.Snapshot() == WriteAll(old(sb.Snapshot()), VprintkText(format, args).value, WHITE)
  {
    var text := VprintkBuild(format, args);
    sb.WriteScreen(text, WHITE);
    count := |text|;
  }
}
