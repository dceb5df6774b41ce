/**
 * What the two format interpreters of the print library produce, as
 * functions of the format string and the argument list.
 *
 * Both walk a NUL-terminated format. `printk` knows the conversions %x, %u,
 * %d, %s, %c and %ll; `vprintk` knows an optional '0' flag and a decimal
 * width before %x, %X, %u, %d, %s and %c. Each walker is a sequence of
 * pieces: the text one plain character or one conversion contributes, how
 * many format characters it spans and how many arguments it takes.
 *
 * A call whose behaviour C leaves undefined has no text (None): a missing
 * argument or one of the wrong kind, %d of the most negative 64-bit value
 * (its negation overflows), %s of memory with no terminator, and in
 * `vprintk` a width that overflows `int` or a conversion cut off by the end
 * of the format.
 */
module Format {
  import opened Machine
  import opened Numerals
  import opened Lib

  datatype Option<T> = None | Some(value: T)

  /**
   * One variadic argument: an integer word (every integer conversion reads a
   * 64-bit slot; the word holds its bit pattern) or a `char *` pointing into
   * memory, given by the characters from the pointer onwards.
   */
  datatype Arg = Int(bits: u64) | Str(mem: seq<char>)

  /** What one step of a walker contributes, spans of the format and takes of the arguments. */
  datatype Piece = Piece(text: seq<char>, span: nat, used: nat)

  /** The character `(char)` makes of an integer argument: its low byte. */
  function CharOf(bits: u64): (c: char)
    ensures c as int < 256 && c as int == bits % 256
  {
    (bits % 256) as char
  }

  /** The next argument, args[a], is an integer word. */
  predicate IntArg(args: seq<Arg>, a: nat)
  {
    a < |args| && args[a].Int?
  }

  /** The next argument, args[a], points to a terminated string. */
  predicate StrArg(args: seq<Arg>, a: nat)
  {
    a < |args| && args[a].Str? && NUL in args[a].mem
  }

  /** t before the text of o, when there is one. */
  function Prepend(t: seq<char>, o: Option<seq<char>>): (r: Option<seq<char>>)
    ensures r.Some? <==> o.Some?
    ensures r.Some? ==> r.value == t + o.value
  {
    match o
    case None => None
    case Some(s) => Some(t + s)
  }

  /** Prepending nothing changes nothing; prepending twice is prepending the concatenation. */
  lemma {:induction false} PrependAppend(a: seq<char>, b: seq<char>, o: Option<seq<char>>)
    ensures Prepend([], o) == o
    ensures Prepend(a, Prepend(b, o)) == Prepend(a + b, o)
  {
    match o
    case None =>
    case Some(t) =>
      assert [] + t == t;
      assert a + (b + t) == (a + b) + t;
  }

  /**
   * Both walkers read the format by index, as the C loops do: fmt[i] is the
   * character at hand and args[a] the next argument. A position is in the
   * format while it is at most the index of the terminator.
   */
  predicate InFormat(fmt: seq<char>, i: nat)
  {
    NUL in fmt && i <= CLen(fmt)
  }

  // ---------------------------------------------------------------- printk

  /**
   * One iteration of the loop of `printk` at fmt[i], which is not the
   * terminator. A '%' followed by a character it does not know writes '%' and
   * reads that character again as plain text; "%l" not followed by a second
   * 'l' writes "%l" and does the same with the character after the 'l'. After
   * "%ll" the loop moves on to the character after the second 'l', so "%llu"
   * is the 64-bit hexadecimal text followed by a plain 'u'.
   */
  function PrintkPiece(fmt: seq<char>, i: nat, args: seq<Arg>, a: nat): (r: Option<Piece>)
    requires InFormat(fmt, i) && i < CLen(fmt) && a <= |args|
    ensures r.Some? ==> 1 <= r.value.span && i + r.value.span <= CLen(fmt) && a + r.value.used <= |args|
  {
    if fmt[i] != '%' then Some(Piece([fmt[i]], 1, 0))
    else
      var c := fmt[i + 1];
      if c == 'x' || c == 'u' || c == 'd' || c == 'c' then
        if !IntArg(args, a) then None
        else
          var v := args[a].bits;
          if c == 'x' then Some(Piece(HexText(v), 2, 1))
          else if c == 'u' then Some(Piece(UdecimalText(v), 2, 1))
          else if c == 'd' then (if AsSigned(v) == INT64_MIN then None else Some(Piece(DecimalText(AsSigned(v)), 2, 1)))
          else Some(Piece([CharOf(v)], 2, 1))
      else if c == 's' then
        if !StrArg(args, a) then None else Some(Piece(CString(args[a].mem), 2, 1))
      else if c == 'l' then
        if fmt[i + 2] == 'l' then
          if !IntArg(args, a) then None else Some(Piece(Hex64Text(args[a].bits), 3, 1))
        else
          Some(Piece("%l", 2, 0))
      else
        Some(Piece("%", 1, 0))
  }

  /** The text `printk` builds from fmt[i] on, with args[a] the next argument. */
  function PrintkFrom(fmt: seq<char>, i: nat, args: seq<Arg>, a: nat): Option<seq<char>>
    requires InFormat(fmt, i) && a <= |args|
    decreases CLen(fmt) - i
  {
    if i == CLen(fmt) then Some([])
    else
      match PrintkPiece(fmt, i, args, a)
      case None => None
      case Some(p) => Prepend(p.text, PrintkFrom(fmt, i + p.span, args, a + p.used))
  }

  /** The text `printk` hands to the screen for fmt and args. */
  function PrintkText(fmt: seq<char>, args: seq<Arg>): Option<seq<char>>
    requires NUL in fmt
  {
    PrintkFrom(fmt, 0, args, 0)
  }

  // --------------------------------------------------------------- vprintk

  predicate IsDecimalDigit(c: char)
  {
    '0' <= c <= '9'
  }

  /** How many decimal digits the format has from index j on. */
  function DigitRun(fmt: seq<char>, j: nat): (n: nat)
    requires InFormat(fmt, j)
    ensures j + n <= CLen(fmt)
    decreases CLen(fmt) - j
  {
    if IsDecimalDigit(fmt[j]) then 1 + DigitRun(fmt, j + 1) else 0
  }

  /** The run is the longest one: digits up to its end, and no digit at its end. */
  lemma {:induction false} DigitRunIsMaximal(fmt: seq<char>, j: nat)
    requires InFormat(fmt, j)
    ensures !IsDecimalDigit(fmt[j + DigitRun(fmt, j)])
    ensures forall k :: j <= k < j + DigitRun(fmt, j) ==> IsDecimalDigit(fmt[k])
    decreases CLen(fmt) - j
  {
    if IsDecimalDigit(fmt[j]) {
      DigitRunIsMaximal(fmt, j + 1);
    }
  }

  /**
   * The width accumulated from fmt[start..end] by `vprintk`'s loop: ten
   * times the value so far plus the next digit, for each digit in turn.
   */
  function WidthValue(fmt: seq<char>, start: nat, end: nat): nat
    requires start <= end <= |fmt|
    requires forall k :: start <= k < end ==> IsDecimalDigit(fmt[k])
    decreases end
  {
    if end == start then 0
    else
      assert IsDecimalDigit(fmt[end - 1]);
      WidthValue(fmt, start, end - 1) * 10 + (fmt[end - 1] as int - '0' as int)
  }

  /** The accumulated width is the value of the run of digits read as a decimal numeral. */
  lemma {:induction false} WidthIsNumeral(fmt: seq<char>, start: nat, end: nat)
    requires start <= end <= |fmt|
    requires forall k :: start <= k < end ==> IsDecimalDigit(fmt[k])
    ensures AllDigits(fmt[start..end], 10) && WidthValue(fmt, start, end) == Value(fmt[start..end], 10)
    decreases end
  {
    if end == start {
      assert fmt[start..end] == [];
    } else {
      WidthIsNumeral(fmt, start, end - 1);
      assert fmt[start..end] == fmt[start..end - 1] + [fmt[end - 1]];
      ValueSnoc(fmt[start..end - 1], fmt[end - 1], 10);
    }
  }

  /** The part of a conversion before its conversion character: the '0' flag, the width, and the index of the character. */
  datatype Spec = Spec(zero: bool, width: nat, at: nat)

  /** Largest value of a C `int`. */
  const INT32_MAX: nat := 0x7FFF_FFFF

  /**
   * The flag and width parsing of `vprintk` after the '%' at fmt[i]: an
   * optional '0', then the longest run of decimal digits. The width is
   * accumulated digit by digit; each partial value is at most the final one,
   * so the accumulation overflows `int` exactly when the final value exceeds
   * INT32_MAX.
   */
  function ParseSpec(fmt: seq<char>, i: nat): (sp: Spec)
    requires InFormat(fmt, i) && i < CLen(fmt) && fmt[i] == '%'
    ensures i < sp.at <= CLen(fmt)
  {
    var start := if fmt[i + 1] == '0' then i + 2 else i + 1;
    DigitRunIsMaximal(fmt, start);
    var n := DigitRun(fmt, start);
    Spec(fmt[i + 1] == '0', WidthValue(fmt, start, start + n), start + n)
  }

  /**
   * What the parse finds: the flag exactly when '0' follows the '%', then a
   * run of digits ending at the conversion character, which is no digit,
   * and the width accumulated from that run.
   */
  lemma {:induction false} ParseSpecShape(fmt: seq<char>, i: nat)
    requires InFormat(fmt, i) && i < CLen(fmt) && fmt[i] == '%'
    ensures var sp := ParseSpec(fmt, i); var start := if sp.zero then i + 2 else i + 1;
      (sp.zero <==> fmt[i + 1] == '0') && start <= sp.at && !IsDecimalDigit(fmt[sp.at]) &&
      (forall k :: start <= k < sp.at ==> IsDecimalDigit(fmt[k])) &&
      sp.width == WidthValue(fmt, start, sp.at)
  {
    DigitRunIsMaximal(fmt, if fmt[i + 1] == '0' then i + 2 else i + 1);
  }

  /**
   * Each partial width of the accumulation is at most the final one, so the
   * accumulation overflows `int` only when the final width does.
   */
  lemma {:induction false} WidthPrefixBound(fmt: seq<char>, start: nat, k: nat, end: nat)
    requires start <= k <= end <= |fmt|
    requires forall q :: start <= q < end ==> IsDecimalDigit(fmt[q])
    ensures WidthValue(fmt, start, k) <= WidthValue(fmt, start, end)
    decreases end - k
  {
    if k < end {
      WidthPrefixBound(fmt, start, k, end - 1);
    }
  }

  /** s padded on the left with zeros to width characters, when the '0' flag is given and s is shorter. */
  function Pad(zero: bool, width: int, s: seq<char>): seq<char>
  {
    if zero && |s| < width then Zeros(width - |s|) + s else s
  }

  /** %d of `vprintk`: the sign is written first and only the digits after it are padded. */
  function SignedText(zero: bool, width: int, v: i64): seq<char>
    requires v != INT64_MIN
  {
    var t := DecimalText(v);
    var start := if t[0] == '-' then 1 else 0;
    t[..start] + Pad(zero, width, t[start..])
  }

  /** The '%' and the '0' flag of a conversion, as `vprintk` echoes them. */
  function EchoFlag(zero: bool): seq<char>
  {
    if zero then "%0" else "%"
  }

  /** The width of an echoed conversion: written back in decimal when positive, left out when zero. */
  function EchoWidth(width: nat): seq<char>
  {
    if width > 0 then Digits(width, 10) else []
  }

  /** The echoed conversion up to its conversion character. */
  function EchoHead(zero: bool, width: nat): seq<char>
  {
    EchoFlag(zero) + EchoWidth(width)
  }

  /** What `vprintk` writes for a conversion character it does not know: the conversion as far as it was parsed, and the character. */
  function EchoText(zero: bool, width: nat, c: char): seq<char>
  {
    EchoHead(zero, width) + [c]
  }

  /**
   * The switch of `vprintk` on the conversion character c, after the flag
   * and width: the text, the one character it spans and the arguments taken.
   */
  function Conversion(zero: bool, width: nat, c: char, args: seq<Arg>, a: nat): (r: Option<Piece>)
    requires a <= |args|
    ensures r.Some? ==> r.value.span == 1 && a + r.value.used <= |args|
  {
    if c == 'x' || c == 'X' || c == 'u' || c == 'd' || c == 'c' then
      if !IntArg(args, a) then None
      else
        var v := args[a].bits;
        if c == 'x' || c == 'X' then Some(Piece(Pad(zero, width, HexText(v)), 1, 1))
        else if c == 'u' then Some(Piece(Pad(zero, width, UdecimalText(v)), 1, 1))
        else if c == 'd' then
          (if AsSigned(v) == INT64_MIN then None else Some(Piece(SignedText(zero, width, AsSigned(v)), 1, 1)))
        else Some(Piece([CharOf(v)], 1, 1))
    else if c == 's' then
      if !StrArg(args, a) then None else Some(Piece(CString(args[a].mem), 1, 1))
    else
      Some(Piece(EchoText(zero, width, c), 1, 0))
  }

  /**
   * One iteration of the loop of `vprintk` at fmt[i], which is not the
   * terminator. A conversion spans the '%', the flag, the width and the
   * conversion character.
   */
  function VprintkPiece(fmt: seq<char>, i: nat, args: seq<Arg>, a: nat): (r: Option<Piece>)
    requires InFormat(fmt, i) && i < CLen(fmt) && a <= |args|
    ensures r.Some? ==> 1 <= r.value.span && i + r.value.span <= CLen(fmt) && a + r.value.used <= |args|
  {
    if fmt[i] != '%' then Some(Piece([fmt[i]], 1, 0))
    else
      var sp := ParseSpec(fmt, i);
      if sp.width > INT32_MAX || fmt[sp.at] == NUL then None
      else
        assert sp.at < CLen(fmt);
        var c := Conversion(sp.zero, sp.width, fmt[sp.at], args, a);
        if c.None? then None else Some(Piece(c.value.text, sp.at + 1 - i, c.value.used))
  }

  /** The text `vprintk` builds from fmt[i] on, with args[a] the next argument. */
  function VprintkFrom(fmt: seq<char>, i: nat, args: seq<Arg>, a: nat): Option<seq<char>>
    requires InFormat(fmt, i) && a <= |args|
    decreases CLen(fmt) - i
  {
    if i == CLen(fmt) then Some([])
    else
      match VprintkPiece(fmt, i, args, a)
      case None => None
      case Some(p) => Prepend(p.text, VprintkFrom(fmt, i + p.span, args, a + p.used))
  }

  /** The text `vprintk` hands to the screen for fmt and args. */
  function VprintkText(fmt: seq<char>, args: seq<Arg>): Option<seq<char>>
    requires NUL in fmt
  {
    VprintkFrom(fmt, 0, args, 0)
  }

  // ------------------------------------------------------------- properties

  /** A character other than '%' before the terminator is copied by `printk` as it is. */
  lemma {:induction false} PrintkPlain(fmt: seq<char>, i: nat, args: seq<Arg>, a: nat)
    requires InFormat(fmt, i) && i < CLen(fmt) && fmt[i] != '%' && a <= |args|
    ensures PrintkFrom(fmt, i, args, a) == Prepend([fmt[i]], PrintkFrom(fmt, i + 1, args, a))
  {
  }

  /** A character other than '%' before the terminator is copied by `vprintk` as it is. */
  lemma {:induction false} VprintkPlain(fmt: seq<char>, i: nat, args: seq<Arg>, a: nat)
    requires InFormat(fmt, i) && i < CLen(fmt) && fmt[i] != '%' && a <= |args|
    ensures VprintkFrom(fmt, i, args, a) == Prepend([fmt[i]], VprintkFrom(fmt, i + 1, args, a))
  {
  }

  /** One character other than '%' in front of a copied run is copied with it by `printk`. */
  lemma {:induction false} PrintkPlainStep(fmt: seq<char>, i: nat, j: nat, args: seq<Arg>, a: nat)
    requires InFormat(fmt, j) && i < j && fmt[i] != '%' && a <= |args|
    requires PrintkFrom(fmt, i + 1, args, a) == Prepend(fmt[i + 1..j], PrintkFrom(fmt, j, args, a))
    ensures PrintkFrom(fmt, i, args, a) == Prepend(fmt[i..j], PrintkFrom(fmt, j, args, a))
  {
    PrintkPlain(fmt, i, args, a);
    SliceFront(fmt, i, i + 1, j);
    assert fmt[i..i + 1] == [fmt[i]];
    PrependAppend([fmt[i]], fmt[i + 1..j], PrintkFrom(fmt, j, args, a));
  }

  /** Characters other than '%' before the terminator are copied by `printk` as they are. */
  lemma {:induction false} PrintkLiteralRun(fmt: seq<char>, i: nat, j: nat, args: seq<Arg>, a: nat)
    requires InFormat(fmt, j) && i <= j && a <= |args|
    requires forall k :: i <= k < j ==> fmt[k] != '%'
    ensures PrintkFrom(fmt, i, args, a) == Prepend(fmt[i..j], PrintkFrom(fmt, j, args, a))
    decreases j - i
  {
    if i == j {
      assert fmt[i..j] == [];
      PrependAppend([], [], PrintkFrom(fmt, j, args, a));
    } else {
      PrintkLiteralRun(fmt, i + 1, j, args, a);
      PrintkPlainStep(fmt, i, j, args, a);
    }
  }

  /** Characters other than '%' before the terminator are copied by `vprintk` as they are. */
  lemma {:induction false} VprintkLiteralRun(fmt: seq<char>, i: nat, j: nat, args: seq<Arg>, a: nat)
    requires InFormat(fmt, j) && i <= j && a <= |args|
    requires forall k :: i <= k < j ==> fmt[k] != '%'
    ensures VprintkFrom(fmt, i, args, a) == Prepend(fmt[i..j], VprintkFrom(fmt, j, args, a))
    decreases j - i
  {
    if i == j {
      assert fmt[i..j] == [];
      PrependAppend([], [], VprintkFrom(fmt, j, args, a));
    } else {
      VprintkLiteralRun(fmt, i + 1, j, args, a);
      VprintkEchoPlainStep(fmt, i, j, args, a);
    }
  }

  /** A slice is its front up to k, then the rest. */
  lemma {:induction false} SliceFront(s: seq<char>, i: nat, k: nat, j: nat)
    requires i <= k <= j <= |s|
    ensures s[i..j] == s[i..k] + s[k..j]
  {
  }

  /** Each '%' in fmt[i..j] is followed, still inside the run, by an 'l'. */
  ghost predicate PercentsBeforeL(fmt: seq<char>, i: nat, j: nat)
    requires i <= j <= |fmt|
  {
    forall k :: i <= k < j && fmt[k] == '%' ==> k + 1 < j && fmt[k + 1] == 'l'
  }

  /** One character other than '%' in front of an echoed run is echoed with it. */
  lemma {:induction false} VprintkEchoPlainStep(fmt: seq<char>, i: nat, j: nat, args: seq<Arg>, a: nat)
    requires InFormat(fmt, j) && i < j && fmt[i] != '%' && a <= |args|
    requires VprintkFrom(fmt, i + 1, args, a) == Prepend(fmt[i + 1..j], VprintkFrom(fmt, j, args, a))
    ensures VprintkFrom(fmt, i, args, a) == Prepend(fmt[i..j], VprintkFrom(fmt, j, args, a))
  {
    VprintkPlain(fmt, i, args, a);
    SliceFront(fmt, i, i + 1, j);
    assert fmt[i..i + 1] == [fmt[i]];
    PrependAppend([fmt[i]], fmt[i + 1..j], VprintkFrom(fmt, j, args, a));
  }

  /** A "%l" in front of an echoed run is echoed with it. */
  lemma {:induction false} VprintkEchoLStep(fmt: seq<char>, i: nat, j: nat, args: seq<Arg>, a: nat)
    requires InFormat(fmt, j) && i + 2 <= j && fmt[i] == '%' && fmt[i + 1] == 'l' && a <= |args|
    requires VprintkFrom(fmt, i + 2, args, a) == Prepend(fmt[i + 2..j], VprintkFrom(fmt, j, args, a))
    ensures VprintkFrom(fmt, i, args, a) == Prepend(fmt[i..j], VprintkFrom(fmt, j, args, a))
  {
    VprintkEchoesL(fmt, i, args, a);
    SliceFront(fmt, i, i + 2, j);
    assert fmt[i..i + 2] == "%l";
    PrependAppend("%l", fmt[i + 2..j], VprintkFrom(fmt, j, args, a));
  }

  /**
   * A run of the format in which every '%' starts a "%l" is echoed by
   * `vprintk` as it stands: "%l" has no conversion of its own.
   */
  lemma {:induction false} VprintkEchoRun(fmt: seq<char>, i: nat, j: nat, args: seq<Arg>, a: nat)
    requires InFormat(fmt, j) && i <= j && a <= |args| && PercentsBeforeL(fmt, i, j)
    ensures VprintkFrom(fmt, i, args, a) == Prepend(fmt[i..j], VprintkFrom(fmt, j, args, a))
    decreases j - i
  {
    if i == j {
      assert fmt[i..j] == [];
      PrependAppend([], [], VprintkFrom(fmt, j, args, a));
    } else if fmt[i] != '%' {
      VprintkEchoRun(fmt, i + 1, j, args, a);
      VprintkEchoPlainStep(fmt, i, j, args, a);
    } else {
      VprintkEchoRun(fmt, i + 2, j, args, a);
      VprintkEchoLStep(fmt, i, j, args, a);
    }
  }

  /** Every '%' of s starts a "%l": `vprintk` converts nothing in s. */
  ghost predicate EchoesAsIs(s: seq<char>)
  {
    forall k :: 0 <= k < |s| && s[k] == '%' ==> k + 1 < |s| && s[k + 1] == 'l'
  }

  /** Text without '%' converts nothing. */
  lemma {:induction false} PlainEchoesAsIs(s: seq<char>)
    requires '%' !in s
    ensures EchoesAsIs(s)
  {
    forall k | 0 <= k < |s| ensures s[k] != '%' {
      assert s[k] in s;
    }
  }

  /** Two pieces that convert nothing convert nothing once joined. */
  lemma {:induction false} EchoesAsIsConcat(s: seq<char>, t: seq<char>)
    requires EchoesAsIs(s) && EchoesAsIs(t) && (s != [] ==> s[|s| - 1] != '%')
    ensures EchoesAsIs(s + t)
  {
    var u := s + t;
    forall k | 0 <= k < |u| && u[k] == '%' ensures k + 1 < |u| && u[k + 1] == 'l' {
      if k < |s| {
        assert s[k] == '%';
      } else {
        assert t[k - |s|] == '%';
      }
    }
  }

  /** A format whose every '%' starts a "%l" prints as its string, whatever the arguments. */
  lemma {:induction false} VprintkEchoes(fmt: seq<char>, args: seq<Arg>)
    requires NUL in fmt && EchoesAsIs(CString(fmt))
    ensures VprintkText(fmt, args) == Some(CString(fmt))
  {
    var c := CString(fmt);
    forall k | 0 <= k < CLen(fmt) && fmt[k] == '%' ensures k + 1 < CLen(fmt) && fmt[k + 1] == 'l' {
      assert c[k] == fmt[k] && c[k] == '%';
    }
    VprintkEchoRun(fmt, 0, CLen(fmt), args, 0);
    assert CString(fmt) + [] == CString(fmt);
  }

  /** A piece of the format without '%' or terminator is copied by `vprintk` as it is. */
  lemma {:induction false} VprintkSegment(fmt: seq<char>, i: nat, t: seq<char>, args: seq<Arg>, a: nat)
    requires InFormat(fmt, i) && a <= |args| && i + |t| <= |fmt| && fmt[i..i + |t|] == t
    requires '%' !in t && NUL !in t
    ensures InFormat(fmt, i + |t|)
    ensures VprintkFrom(fmt, i, args, a) == Prepend(t, VprintkFrom(fmt, i + |t|, args, a))
  {
    NulFreeRun(fmt, i, t);
    forall k | i <= k < i + |t| ensures fmt[k] != '%' {
      assert fmt[k] == t[k - i];
    }
    VprintkLiteralRun(fmt, i, i + |t|, args, a);
  }

  /** A format without '%' prints as its string, whatever the arguments. */
  lemma {:induction false} PrintkLiteral(fmt: seq<char>, args: seq<Arg>)
    requires NUL in fmt && '%' !in CString(fmt)
    ensures PrintkText(fmt, args) == Some(CString(fmt))
  {
    PrintkLiteralRun(fmt, 0, CLen(fmt), args, 0);
    assert CString(fmt) + [] == CString(fmt);
  }

  /** A format without '%' prints as its string, whatever the arguments. */
  lemma {:induction false} VprintkLiteral(fmt: seq<char>, args: seq<Arg>)
    requires NUL in fmt && '%' !in CString(fmt)
    ensures VprintkText(fmt, args) == Some(CString(fmt))
  {
    VprintkLiteralRun(fmt, 0, CLen(fmt), args, 0);
    assert CString(fmt) + [] == CString(fmt);
  }

  /**
   * After a '%', a character `printk` does not know writes the '%' alone,
   * takes no argument, and is itself read again as plain text.
   */
  lemma {:induction false} PrintkUnknown(fmt: seq<char>, i: nat, args: seq<Arg>, a: nat)
    requires InFormat(fmt, i) && i < CLen(fmt) && fmt[i] == '%' && fmt[i + 1] !in "xudcsl" && a <= |args|
    ensures PrintkFrom(fmt, i, args, a) == Prepend("%", PrintkFrom(fmt, i + 1, args, a))
  {
  }

  /**
   * "%l" followed by anything but a second 'l' writes "%l", takes no
   * argument, and the character after the 'l' is read again as plain text.
   */
  lemma {:induction false} PrintkSingleL(fmt: seq<char>, i: nat, args: seq<Arg>, a: nat)
    requires InFormat(fmt, i) && i < CLen(fmt) && fmt[i] == '%' && fmt[i + 1] == 'l' && a <= |args|
    requires i + 2 < |fmt| && fmt[i + 2] != 'l'
    ensures i + 2 <= CLen(fmt)
    ensures PrintkFrom(fmt, i, args, a) == Prepend("%l", PrintkFrom(fmt, i + 2, args, a))
  {
  }

  /**
   * `printk`'s "%llu" takes one argument and prints its sixteen-digit
   * hexadecimal text with the 'H' suffix, then a plain 'u'.
   */
  lemma {:induction false} PrintkLlu(fmt: seq<char>, i: nat, args: seq<Arg>, a: nat)
    requires InFormat(fmt, i) && i + 4 <= |fmt| && IntArg(args, a)
    requires fmt[i] == '%' && fmt[i + 1] == 'l' && fmt[i + 2] == 'l' && fmt[i + 3] == 'u'
    ensures i + 4 <= CLen(fmt)
    ensures PrintkFrom(fmt, i, args, a) == Prepend(Hex64Text(args[a].bits) + "u", PrintkFrom(fmt, i + 4, args, a + 1))
  {
    assert PrintkPiece(fmt, i, args, a) == Some(Piece(Hex64Text(args[a].bits), 3, 1));
    PrintkLiteralRun(fmt, i + 3, i + 4, args, a + 1);
    assert fmt[i + 3..i + 4] == "u";
    PrependAppend(Hex64Text(args[a].bits), "u", PrintkFrom(fmt, i + 4, args, a + 1));
  }

  /** `printk`'s "%x" takes one integer and prints its hexadecimal text with the 'H' suffix. */
  lemma {:induction false} PrintkHex(fmt: seq<char>, i: nat, args: seq<Arg>, a: nat)
    requires InFormat(fmt, i) && i < CLen(fmt) && fmt[i] == '%' && fmt[i + 1] == 'x' && IntArg(args, a)
    ensures i + 2 <= CLen(fmt)
    ensures PrintkFrom(fmt, i, args, a) == Prepend(HexText(args[a].bits), PrintkFrom(fmt, i + 2, args, a + 1))
  {
    assert PrintkPiece(fmt, i, args, a) == Some(Piece(HexText(args[a].bits), 2, 1));
  }

  /** `printk`'s "%u" takes one integer and prints its unsigned decimal numeral. */
  lemma {:induction false} PrintkUnsigned(fmt: seq<char>, i: nat, args: seq<Arg>, a: nat)
    requires InFormat(fmt, i) && i < CLen(fmt) && fmt[i] == '%' && fmt[i + 1] == 'u' && IntArg(args, a)
    ensures i + 2 <= CLen(fmt)
    ensures PrintkFrom(fmt, i, args, a) == Prepend(UdecimalText(args[a].bits), PrintkFrom(fmt, i + 2, args, a + 1))
  {
    assert PrintkPiece(fmt, i, args, a) == Some(Piece(UdecimalText(args[a].bits), 2, 1));
  }

  /**
   * `printk`'s "%d" takes one integer and prints its signed decimal numeral;
   * the one value whose negation overflows leaves the text undefined.
   */
  lemma {:induction false} PrintkSigned(fmt: seq<char>, i: nat, args: seq<Arg>, a: nat)
    requires InFormat(fmt, i) && i < CLen(fmt) && fmt[i] == '%' && fmt[i + 1] == 'd' && IntArg(args, a)
    ensures i + 2 <= CLen(fmt)
    ensures AsSigned(args[a].bits) == INT64_MIN ==> PrintkFrom(fmt, i, args, a).None?
    ensures AsSigned(args[a].bits) != INT64_MIN ==>
      PrintkFrom(fmt, i, args, a) == Prepend(DecimalText(AsSigned(args[a].bits)), PrintkFrom(fmt, i + 2, args, a + 1))
  {
    var v := AsSigned(args[a].bits);
    if v == INT64_MIN {
      assert PrintkPiece(fmt, i, args, a) == None;
    } else {
      assert PrintkPiece(fmt, i, args, a) == Some(Piece(DecimalText(v), 2, 1));
    }
  }

  /** `printk`'s "%c" takes one integer and prints the character of its low byte. */
  lemma {:induction false} PrintkChar(fmt: seq<char>, i: nat, args: seq<Arg>, a: nat)
    requires InFormat(fmt, i) && i < CLen(fmt) && fmt[i] == '%' && fmt[i + 1] == 'c' && IntArg(args, a)
    ensures i + 2 <= CLen(fmt)
    ensures PrintkFrom(fmt, i, args, a) == Prepend([CharOf(args[a].bits)], PrintkFrom(fmt, i + 2, args, a + 1))
  {
    assert PrintkPiece(fmt, i, args, a) == Some(Piece([CharOf(args[a].bits)], 2, 1));
  }

  /** `printk`'s "%s" takes one string and prints it up to its terminator. */
  lemma {:induction false} PrintkString(fmt: seq<char>, i: nat, args: seq<Arg>, a: nat)
    requires InFormat(fmt, i) && i < CLen(fmt) && fmt[i] == '%' && fmt[i + 1] == 's' && StrArg(args, a)
    ensures i + 2 <= CLen(fmt)
    ensures PrintkFrom(fmt, i, args, a) == Prepend(CString(args[a].mem), PrintkFrom(fmt, i + 2, args, a + 1))
  {
    assert PrintkPiece(fmt, i, args, a) == Some(Piece(CString(args[a].mem), 2, 1));
  }

  /**
   * A conversion of `printk` whose argument is missing or of the wrong kind
   * reads an argument that was not passed: the text is left undefined.
   */
  lemma {:induction false} PrintkMissingArgument(fmt: seq<char>, i: nat, args: seq<Arg>, a: nat)
    requires InFormat(fmt, i) && i < CLen(fmt) && fmt[i] == '%' && a <= |args|
    requires (fmt[i + 1] in "xudc" && !IntArg(args, a)) || (fmt[i + 1] == 's' && !StrArg(args, a))
    ensures PrintkFrom(fmt, i, args, a).None?
  {
    assert PrintkPiece(fmt, i, args, a) == None;
  }

  /**
   * `vprintk` has no 'l' conversion: "%l" is echoed, takes no argument, and
   * the character after the 'l' is read as usual.
   */
  lemma {:induction false} VprintkEchoesL(fmt: seq<char>, i: nat, args: seq<Arg>, a: nat)
    requires InFormat(fmt, i) && i + 2 <= |fmt| && fmt[i] == '%' && fmt[i + 1] == 'l' && a <= |args|
    ensures i + 2 <= CLen(fmt)
    ensures VprintkPiece(fmt, i, args, a) == Some(Piece("%l", 2, 0))
    ensures VprintkFrom(fmt, i, args, a) == Prepend("%l", VprintkFrom(fmt, i + 2, args, a))
  {
    assert ParseSpec(fmt, i) == Spec(false, 0, i + 1);
    assert EchoFlag(false) + EchoWidth(0) + ['l'] == "%l";
    assert Conversion(false, 0, 'l', args, a) == Some(Piece("%l", 1, 0));
  }

  /** `vprintk` prints "%llu" literally and takes no argument for it. */
  lemma {:induction false} VprintkLlu(fmt: seq<char>, i: nat, args: seq<Arg>, a: nat)
    requires InFormat(fmt, i) && i + 4 <= |fmt| && a <= |args|
    requires fmt[i] == '%' && fmt[i + 1] == 'l' && fmt[i + 2] == 'l' && fmt[i + 3] == 'u'
    ensures i + 4 <= CLen(fmt)
    ensures VprintkFrom(fmt, i, args, a) == Prepend("%llu", VprintkFrom(fmt, i + 4, args, a))
  {
    VprintkEchoesL(fmt, i, args, a);
    VprintkPlain(fmt, i + 2, args, a);
    VprintkPlain(fmt, i + 3, args, a);
    var rest := VprintkFrom(fmt, i + 4, args, a);
    PrependAppend("%l", "l", Prepend("u", rest));
    PrependAppend("%ll", "u", rest);
    assert "%l" + "l" == "%ll" && "%ll" + "u" == "%llu";
  }

  /** `vprintk`'s "%u" with no flag and no width takes one integer and prints its decimal numeral. */
  lemma {:induction false} VprintkUnsigned(fmt: seq<char>, i: nat, args: seq<Arg>, a: nat)
    requires InFormat(fmt, i) && i + 2 <= |fmt| && fmt[i] == '%' && fmt[i + 1] == 'u' && IntArg(args, a)
    ensures i + 2 <= CLen(fmt)
    ensures VprintkFrom(fmt, i, args, a) == Prepend(UdecimalText(args[a].bits), VprintkFrom(fmt, i + 2, args, a + 1))
  {
    var v := args[a].bits;
    assert ParseSpec(fmt, i) == Spec(false, 0, i + 1);
    assert Pad(false, 0, UdecimalText(v)) == UdecimalText(v);
    assert Conversion(false, 0, 'u', args, a) == Some(Piece(UdecimalText(v), 1, 1));
    assert VprintkPiece(fmt, i, args, a) == Some(Piece(UdecimalText(v), 2, 1));
  }

  /** `vprintk`'s "%s" with no flag and no width takes one string and prints it up to its terminator. */
  lemma {:induction false} VprintkString(fmt: seq<char>, i: nat, args: seq<Arg>, a: nat)
    requires InFormat(fmt, i) && i + 2 <= |fmt| && fmt[i] == '%' && fmt[i + 1] == 's' && StrArg(args, a)
    ensures i + 2 <= CLen(fmt)
    ensures VprintkFrom(fmt, i, args, a) == Prepend(CString(args[a].mem), VprintkFrom(fmt, i + 2, args, a + 1))
  {
    assert ParseSpec(fmt, i) == Spec(false, 0, i + 1);
    assert Conversion(false, 0, 's', args, a) == Some(Piece(CString(args[a].mem), 1, 1));
    assert VprintkPiece(fmt, i, args, a) == Some(Piece(CString(args[a].mem), 2, 1));
  }

  /**
   * A conversion of `vprintk` whose width fits and that does not run into
   * the terminator prints what the switch makes of its character, and the
   * walk goes on after that character.
   */
  lemma {:induction false} VprintkConversionStep(fmt: seq<char>, i: nat, args: seq<Arg>, a: nat, p: Piece)
    requires InFormat(fmt, i) && i < CLen(fmt) && fmt[i] == '%' && a <= |args|
    requires ParseSpec(fmt, i).width <= INT32_MAX && fmt[ParseSpec(fmt, i).at] != NUL
    requires Conversion(ParseSpec(fmt, i).zero, ParseSpec(fmt, i).width, fmt[ParseSpec(fmt, i).at], args, a) == Some(p)
    ensures ParseSpec(fmt, i).at < CLen(fmt) && a + p.used <= |args|
    ensures VprintkFrom(fmt, i, args, a) == Prepend(p.text, VprintkFrom(fmt, ParseSpec(fmt, i).at + 1, args, a + p.used))
  {
    var sp := ParseSpec(fmt, i);
    assert VprintkPiece(fmt, i, args, a) == Some(Piece(p.text, sp.at + 1 - i, p.used));
  }

  /**
   * `vprintk`'s "%x" and "%X" print the same text, whatever the flag and
   * width: the upper-case hexadecimal text with its 'H', zero-padded to the
   * width when the '0' flag is given, and both take one argument.
   */
  lemma {:induction false} VprintkHex(fmt: seq<char>, i: nat, args: seq<Arg>, a: nat)
    requires InFormat(fmt, i) && i < CLen(fmt) && fmt[i] == '%' && IntArg(args, a)
    requires ParseSpec(fmt, i).width <= INT32_MAX
    requires fmt[ParseSpec(fmt, i).at] == 'x' || fmt[ParseSpec(fmt, i).at] == 'X'
    ensures var sp := ParseSpec(fmt, i);
      sp.at < CLen(fmt) &&
      VprintkFrom(fmt, i, args, a)
        == Prepend(Pad(sp.zero, sp.width, HexText(args[a].bits)), VprintkFrom(fmt, sp.at + 1, args, a + 1))
  {
    var sp := ParseSpec(fmt, i);
    var t := Pad(sp.zero, sp.width, HexText(args[a].bits));
    assert Conversion(sp.zero, sp.width, fmt[sp.at], args, a) == Some(Piece(t, 1, 1));
    VprintkConversionStep(fmt, i, args, a, Piece(t, 1, 1));
  }

  /**
   * `vprintk`'s "%u", whatever the flag and width: the decimal numeral,
   * zero-padded to the width when the '0' flag is given; one argument is taken.
   */
  lemma {:induction false} VprintkPaddedUnsigned(fmt: seq<char>, i: nat, args: seq<Arg>, a: nat)
    requires InFormat(fmt, i) && i < CLen(fmt) && fmt[i] == '%' && IntArg(args, a)
    requires ParseSpec(fmt, i).width <= INT32_MAX && fmt[ParseSpec(fmt, i).at] == 'u'
    ensures var sp := ParseSpec(fmt, i);
      sp.at < CLen(fmt) &&
      VprintkFrom(fmt, i, args, a)
        == Prepend(Pad(sp.zero, sp.width, UdecimalText(args[a].bits)), VprintkFrom(fmt, sp.at + 1, args, a + 1))
  {
    var sp := ParseSpec(fmt, i);
    var t := Pad(sp.zero, sp.width, UdecimalText(args[a].bits));
    assert Conversion(sp.zero, sp.width, fmt[sp.at], args, a) == Some(Piece(t, 1, 1));
    VprintkConversionStep(fmt, i, args, a, Piece(t, 1, 1));
  }

  /**
   * `vprintk`'s "%d", whatever the flag and width: the sign, then the digits
   * zero-padded to the width when the '0' flag is given; one argument is
   * taken. The one value whose negation overflows leaves the text undefined.
   */
  lemma {:induction false} VprintkSigned(fmt: seq<char>, i: nat, args: seq<Arg>, a: nat)
    requires InFormat(fmt, i) && i < CLen(fmt) && fmt[i] == '%' && IntArg(args, a)
    requires ParseSpec(fmt, i).width <= INT32_MAX && fmt[ParseSpec(fmt, i).at] == 'd'
    ensures var sp := ParseSpec(fmt, i);
      sp.at < CLen(fmt) &&
      (AsSigned(args[a].bits) == INT64_MIN ==> VprintkFrom(fmt, i, args, a).None?) &&
      (AsSigned(args[a].bits) != INT64_MIN ==>
        VprintkFrom(fmt, i, args, a)
          == Prepend(SignedText(sp.zero, sp.width, AsSigned(args[a].bits)), VprintkFrom(fmt, sp.at + 1, args, a + 1)))
  {
    var sp := ParseSpec(fmt, i);
    var v := AsSigned(args[a].bits);
    if v == INT64_MIN {
      assert Conversion(sp.zero, sp.width, fmt[sp.at], args, a) == None;
      assert VprintkPiece(fmt, i, args, a) == None;
    } else {
      var t := SignedText(sp.zero, sp.width, v);
      assert Conversion(sp.zero, sp.width, fmt[sp.at], args, a) == Some(Piece(t, 1, 1));
      VprintkConversionStep(fmt, i, args, a, Piece(t, 1, 1));
    }
  }

  /** `vprintk`'s "%c" ignores the flag and width: it takes one integer and prints the character of its low byte. */
  lemma {:induction false} VprintkChar(fmt: seq<char>, i: nat, args: seq<Arg>, a: nat)
    requires InFormat(fmt, i) && i < CLen(fmt) && fmt[i] == '%' && IntArg(args, a)
    requires ParseSpec(fmt, i).width <= INT32_MAX && fmt[ParseSpec(fmt, i).at] == 'c'
    ensures var sp := ParseSpec(fmt, i);
      sp.at < CLen(fmt) &&
      VprintkFrom(fmt, i, args, a) == Prepend([CharOf(args[a].bits)], VprintkFrom(fmt, sp.at + 1, args, a + 1))
  {
    var sp := ParseSpec(fmt, i);
    var t := [CharOf(args[a].bits)];
    assert Conversion(sp.zero, sp.width, fmt[sp.at], args, a) == Some(Piece(t, 1, 1));
    VprintkConversionStep(fmt, i, args, a, Piece(t, 1, 1));
  }

  /** `vprintk`'s "%s" ignores the flag and width: it takes one string and prints it up to its terminator. */
  lemma {:induction false} VprintkUnpaddedString(fmt: seq<char>, i: nat, args: seq<Arg>, a: nat)
    requires InFormat(fmt, i) && i < CLen(fmt) && fmt[i] == '%' && StrArg(args, a)
    requires ParseSpec(fmt, i).width <= INT32_MAX && fmt[ParseSpec(fmt, i).at] == 's'
    ensures var sp := ParseSpec(fmt, i);
      sp.at < CLen(fmt) &&
      VprintkFrom(fmt, i, args, a) == Prepend(CString(args[a].mem), VprintkFrom(fmt, sp.at + 1, args, a + 1))
  {
    var sp := ParseSpec(fmt, i);
    var t := CString(args[a].mem);
    assert Conversion(sp.zero, sp.width, fmt[sp.at], args, a) == Some(Piece(t, 1, 1));
    VprintkConversionStep(fmt, i, args, a, Piece(t, 1, 1));
  }

  /**
   * `vprintk` leaves the text undefined when a conversion's argument is
   * missing or of the wrong kind, when the width overflows `int`, and when
   * the format ends inside a conversion.
   */
  lemma {:induction false} VprintkUndefined(fmt: seq<char>, i: nat, args: seq<Arg>, a: nat)
    requires InFormat(fmt, i) && i < CLen(fmt) && fmt[i] == '%' && a <= |args|
    requires var sp := ParseSpec(fmt, i); var c := fmt[sp.at];
      sp.width > INT32_MAX || c == NUL ||
      (c in "xXudc" && !IntArg(args, a)) || (c == 's' && !StrArg(args, a))
    ensures VprintkFrom(fmt, i, args, a).None?
  {
    var sp := ParseSpec(fmt, i);
    if sp.width <= INT32_MAX && fmt[sp.at] != NUL {
      assert Conversion(sp.zero, sp.width, fmt[sp.at], args, a) == None;
    }
    assert VprintkPiece(fmt, i, args, a) == None;
  }

  /** The echo of a conversion: the '%', the '0' flag if it was given, the width if it is positive, and the character. */
  lemma {:induction false} EchoTextShape(zero: bool, width: nat, c: char)
    ensures EchoText(zero, width, c)
      == "%" + (if zero then "0" else "") + (if width > 0 then Digits(width, 10) else "") + [c]
  {
    if zero {
      assert "%0" == "%" + "0";
    } else {
      assert "%" == "%" + "";
    }
  }

  /**
   * A conversion character `vprintk` does not know is echoed after the '%',
   * the flag and the width as they were parsed, and no argument is taken.
   */
  lemma {:induction false} VprintkUnknown(fmt: seq<char>, i: nat, args: seq<Arg>, a: nat)
    requires InFormat(fmt, i) && i < CLen(fmt) && fmt[i] == '%' && a <= |args|
    requires ParseSpec(fmt, i).width <= INT32_MAX
    requires fmt[ParseSpec(fmt, i).at] !in "xXudcs" && fmt[ParseSpec(fmt, i).at] != NUL
    ensures var sp := ParseSpec(fmt, i);
      sp.at < CLen(fmt) &&
      VprintkFrom(fmt, i, args, a)
        == Prepend(EchoText(sp.zero, sp.width, fmt[sp.at]), VprintkFrom(fmt, sp.at + 1, args, a))
  {
    var sp := ParseSpec(fmt, i);
    var c := fmt[sp.at];
    var e := EchoText(sp.zero, sp.width, c);
    assert c != 'x' && c != 'X' && c != 'u' && c != 'd' && c != 'c' && c != 's';
    assert Conversion(sp.zero, sp.width, c, args, a) == Some(Piece(e, 1, 0));
    VprintkConversionStep(fmt, i, args, a, Piece(e, 1, 0));
  }

  // A format is walked from its terminator backwards: each step below turns
  // the text printed from one position on into the text printed from an
  // earlier one.

  /** At the terminator nothing is left to print. */
  lemma {:induction false} VprintkEnd(fmt: seq<char>, args: seq<Arg>, a: nat)
    requires NUL in fmt && a <= |args|
    ensures VprintkFrom(fmt, CLen(fmt), args, a) == Some([])
  {
  }

  /** Plain text, then what follows it. */
  lemma {:induction false} VprintkSegmentThen(fmt: seq<char>, i: nat, t: seq<char>, args: seq<Arg>, a: nat, rest: seq<char>)
    requires NUL in fmt && i + |t| <= CLen(fmt) && a <= |args| && fmt[i..i + |t|] == t
    requires '%' !in t && NUL !in t
    requires VprintkFrom(fmt, i + |t|, args, a) == Some(rest)
    ensures VprintkFrom(fmt, i, args, a) == Some(t + rest)
  {
    VprintkSegment(fmt, i, t, args, a);
  }

  /** A "%u", then what follows it. */
  lemma {:induction false} VprintkUnsignedThen(fmt: seq<char>, i: nat, args: seq<Arg>, a: nat, rest: seq<char>)
    requires NUL in fmt && i + 2 <= CLen(fmt) && fmt[i] == '%' && fmt[i + 1] == 'u' && IntArg(args, a)
    requires VprintkFrom(fmt, i + 2, args, a + 1) == Some(rest)
    ensures VprintkFrom(fmt, i, args, a) == Some(UdecimalText(args[a].bits) + rest)
  {
    VprintkUnsigned(fmt, i, args, a);
  }

  /** A "%s", then what follows it. */
  lemma {:induction false} VprintkStringThen(fmt: seq<char>, i: nat, args: seq<Arg>, a: nat, rest: seq<char>)
    requires NUL in fmt && i + 2 <= CLen(fmt) && fmt[i] == '%' && fmt[i + 1] == 's' && StrArg(args, a)
    requires VprintkFrom(fmt, i + 2, args, a + 1) == Some(rest)
    ensures VprintkFrom(fmt, i, args, a) == Some(CString(args[a].mem) + rest)
  {
    VprintkString(fmt, i, args, a);
  }

  /**
   * Padding only ever adds zeros on the left, up to the width when the flag
   * is given, and never shortens the text.
   */
  lemma {:induction false} PadShape(zero: bool, width: int, s: seq<char>)
    ensures var t := Pad(zero, width, s);
      |t| == (if zero && |s| < width then width else |s|) &&
      t[|t| - |s|..] == s && t[..|t| - |s|] == Zeros(|t| - |s|)
  {
  }

  /** A zero-padded decimal numeral still reads as its value. */
  lemma {:induction false} PaddedDecimalValue(zero: bool, width: int, v: u64)
    ensures AllDigits(Pad(zero, width, UdecimalText(v)), 10)
    ensures Value(Pad(zero, width, UdecimalText(v)), 10) == v
  {
    DigitsRoundTrip(v, 10);
    if zero && |UdecimalText(v)| < width {
      ValueLeadingZeros(width - |UdecimalText(v)|, UdecimalText(v), 10);
    }
  }

  /**
   * %d of `vprintk`: a minus sign exactly for negative values, written before
   * the zero padding, which pads the digits of the magnitude.
   */
  lemma {:induction false} SignedTextShape(zero: bool, width: int, v: i64)
    requires v != INT64_MIN
    ensures SignedText(zero, width, v)
      == (if v < 0 then "-" else "") + Pad(zero, width, UdecimalText(if v < 0 then -v else v))
  {
    DecimalTextRoundTrip(v);
    var t := DecimalText(v);
    if v < 0 {
      assert t[..1] == "-" && t[1..] == UdecimalText(-v);
    } else {
      assert t[..0] == [] && t[0..] == t;
    }
  }

  /** The hexadecimal text has no lower-case letter for the %X loop of `vprintk` to change. */
  lemma {:induction false} HexTextIsUpperCase(v: u64)
    ensures forall i :: 0 <= i < |HexText(v)| ==> !('a' <= HexText(v)[i] <= 'f')
  {
    var d := Digits(v, 16);
    assert forall i :: 0 <= i < |d| ==> 0 <= DigitValue(d[i]) < 16;
  }
}
