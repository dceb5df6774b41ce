/**
 * The kernel's debugging support: `log_message` (a level prefix through
 * `printk`, then the message through `vprintk`), the memory and register
 * dumps, the assertion failure path `error_check` and the `ASSERT` macro.
 *
 * The dumps and the failure path are straight sequences of `log_message`
 * calls; they are modelled as the list of calls they make (LogCall), and
 * Emit puts such a list on the screen, so the screen shows the Transcript
 * of the list. The register values and the memory read by the dumps are
 * parameters.
 */
module Debug {
  import opened Machine
  import opened Numerals
  import opened Lib
  import opened Print
  import opened Format
  import opened Screen
  import opened Output

  // --------------------------------------------------------------- log levels

  /** The values of `log_level_t`, in declaration order. */
  const LOG_INFO: int := 0
  const LOG_WARN: int := 1
  const LOG_ERROR: int := 2
  const LOG_PANIC: int := 3

  predicate KnownLevel(level: int)
  {
    LOG_INFO <= level <= LOG_PANIC
  }

  /**
   * The prefix the switch of `log_message` prints for a level; a value outside
   * the enumeration gets the default branch. No prefix holds a '%' or a NUL,
   * so `printk` copies it as it is.
   */
  function LevelPrefix(level: int): (p: seq<char>)
    ensures p == "[UNKNOWN] " <==> !KnownLevel(level)
    ensures '%' !in p && NUL !in p && |p| <= 10
  {
    if level == LOG_INFO then "[INFO] "
    else if level == LOG_WARN then "[WARN] "
    else if level == LOG_ERROR then "[ERROR] "
    else if level == LOG_PANIC then "[PANIC] "
    else "[UNKNOWN] "
  }

  /** Which level a prefix announces, if any. */
  function PrefixLevel(p: seq<char>): Option<int>
  {
    if p == "[INFO] " then Some(LOG_INFO)
    else if p == "[WARN] " then Some(LOG_WARN)
    else if p == "[ERROR] " then Some(LOG_ERROR)
    else if p == "[PANIC] " then Some(LOG_PANIC)
    else None
  }

  /** Each level has its own prefix: the prefix tells the level back, and an unknown value tells none. */
  lemma {:induction false} PrefixNamesLevel(level: int)
    ensures PrefixLevel(LevelPrefix(level)) == if KnownLevel(level) then Some(level) else None
  {
  }

  /** A terminated text holds itself as its C string. */
  lemma {:induction false} CStringOfTerminated(t: seq<char>)
    requires NUL !in t
    ensures NUL in t + [NUL] && CString(t + [NUL]) == t
  {
    assert (t + [NUL])[|t|] == NUL;
    CLenUnique(t + [NUL], |t|);
  }

  /** `printk` of a prefix prints the prefix, with no argument. */
  lemma {:induction false} PrefixPrintsItself(level: int)
    ensures NUL in LevelPrefix(level) + [NUL]
    ensures PrintkText(LevelPrefix(level) + [NUL], []) == Some(LevelPrefix(level))
  {
    var p := LevelPrefix(level);
    CStringOfTerminated(p);
    PrintkLiteral(p + [NUL], []);
  }

  // -------------------------------------------------------------- log_message

  /** One call `log_message(level, format, args...)`. */
  datatype LogCall = LogCall(level: int, format: seq<char>, args: seq<Arg>)

  /**
   * The call has a defined message (its format is terminated and its
   * arguments match it) that fits the 1024-character buffer of `vprintk`.
   */
  ghost predicate Fits(c: LogCall)
  {
    NUL in c.format && VprintkText(c.format, c.args).Some? && |VprintkText(c.format, c.args).value| <= OUTPUT_SIZE
  }

  /** What one call puts on the screen: the prefix, then the message. */
  function LogText(c: LogCall): (t: seq<char>)
    requires Fits(c)
    ensures var m := VprintkText(c.format, c.args).value; |t| == |LevelPrefix(c.level)| + |m| && t[|LevelPrefix(c.level)|..] == m
  {
    LevelPrefix(c.level) + VprintkText(c.format, c.args).value
  }

  /**
   * `log_message(level, format, args...)`: the prefix through `printk`, then
   * the message through `vprintk`; the screen shows exactly one prefix
   * before the message, in white.
   */
  method LogMessage(sb: ScreenBuffer, level: int, format: seq<char>, args: seq<Arg>)
    requires sb.Valid() && Fits(LogCall(level, format, args))
    modifies sb, sb.cells
    ensures sb.Valid() && sb.cells == old(sb.cells)
    ensures sb.Snapshot() == WriteAll(old(sb.Snapshot()), LevelPrefix(level) + VprintkText(format, args).value, WHITE)
  {
    ghost var start := sb.Snapshot();
    PrefixPrintsItself(level);
    var _ := Printk(sb, LevelPrefix(level) + [NUL], []);
    var _ := Vprintk(sb, format, args);
    WriteAllConcat(start, LevelPrefix(level), VprintkText(format, args).value, WHITE);
  }

  /** The text of a call that fits; the lists of calls this model puts on the screen hold no other kind. */
  ghost function CallText(c: LogCall): seq<char>
  {
    if Fits(c) then LogText(c) else []
  }

  /** The texts f gives the elements of xs, one after the other. */
  ghost function Joined<T>(xs: seq<T>, f: T -> seq<char>): seq<char>
  {
    if xs == [] then [] else Joined(xs[..|xs| - 1], f) + f(xs[|xs| - 1])
  }

  lemma {:induction false} JoinedSnoc<T>(xs: seq<T>, x: T, f: T -> seq<char>)
    ensures Joined(xs + [x], f) == Joined(xs, f) + f(x)
  {
    assert (xs + [x])[..|xs|] == xs;
  }

  lemma {:induction false} JoinedConcat<T>(xs: seq<T>, ys: seq<T>, f: T -> seq<char>)
    ensures Joined(xs + ys, f) == Joined(xs, f) + Joined(ys, f)
    decreases |ys|
  {
    if ys == [] {
      assert xs + ys == xs;
    } else {
      var ys' := ys[..|ys| - 1];
      assert (xs + ys)[..|xs + ys| - 1] == xs + ys';
      JoinedConcat(xs, ys', f);
    }
  }

  /** What a list of calls that fit puts on the screen: the texts of the calls, in order. */
  ghost function Transcript(calls: seq<LogCall>): seq<char>
  {
    Joined(calls, CallText)
  }

  /** Two lists of calls that fit one after the other. */
  lemma {:induction false} AllFitConcat(a: seq<LogCall>, b: seq<LogCall>)
    requires forall k :: 0 <= k < |a| ==> Fits(a[k])
    requires forall k :: 0 <= k < |b| ==> Fits(b[k])
    ensures forall k :: 0 <= k < |a + b| ==> Fits((a + b)[k])
  {
    forall k | 0 <= k < |a + b| ensures Fits((a + b)[k]) {
      if k < |a| { assert (a + b)[k] == a[k]; } else { assert (a + b)[k] == b[k - |a|]; }
    }
  }

  /** The transcript of two lists one after the other is the two transcripts one after the other. */
  lemma {:induction false} TranscriptConcat(a: seq<LogCall>, b: seq<LogCall>)
    ensures Transcript(a + b) == Transcript(a) + Transcript(b)
  {
    JoinedConcat(a, b, CallText);
  }

  /** The calls of a list made one after the other put its transcript on the screen. */
  method Emit(sb: ScreenBuffer, calls: seq<LogCall>)
    requires sb.Valid() && forall k :: 0 <= k < |calls| ==> Fits(calls[k])
    modifies sb, sb.cells
    ensures sb.Valid() && sb.cells == old(sb.cells)
    ensures sb.Snapshot() == WriteAll(old(sb.Snapshot()), Transcript(calls), WHITE)
  {
    ghost var start := sb.Snapshot();
    var i := 0;
    assert calls[..0] == [];
    while i < |calls|
      invariant 0 <= i <= |calls| && sb.Valid() && sb.cells == old(sb.cells)
      invariant sb.Snapshot() == WriteAll(start, Transcript(calls[..i]), WHITE)
    {
      var c := calls[i];
      LogMessage(sb, c.level, c.format, c.args);
      assert calls[..i + 1][..i] == calls[..i];
      WriteAllConcat(start, Transcript(calls[..i]), LogText(c), WHITE);
      i := i + 1;
    }
    assert calls[..i] == calls;
  }

  // ---------------------------------------------------------- format_byte_hex

  /** The three characters `format_byte_hex` writes for a byte: high nibble, low nibble, space. */
  function ByteHex(b: bv8): (s: seq<char>)
    ensures |s| == 3 && s[2] == ' ' && NUL !in s && '%' !in s
    ensures 0 <= DigitValue(s[0]) < 16 && 0 <= DigitValue(s[1]) < 16
  {
    var hi, lo := b as int / 16, b as int % 16;
    DigitMapIsTable(hi);
    DigitMapIsTable(lo);
    [DIGIT_MAP[hi], DIGIT_MAP[lo], ' ']
  }

  /** The byte two hexadecimal digits stand for. */
  function HexPairValue(hi: char, lo: char): int
  {
    DigitValue(hi) * 16 + DigitValue(lo)
  }

  /** The two digits are upper-case and read back as the byte, so different bytes get different texts. */
  lemma {:induction false} ByteHexRoundTrip(b: bv8)
    ensures HexPairValue(ByteHex(b)[0], ByteHex(b)[1]) == b as int
    ensures forall k :: 0 <= k < 2 ==> '0' <= ByteHex(b)[k] <= '9' || 'A' <= ByteHex(b)[k] <= 'F'
  {
    DigitMapIsTable(b as int / 16);
    DigitMapIsTable(b as int % 16);
  }

  /** On bit-vectors: the shift and the mask select the two nibbles. */
  lemma {:induction false} Nibbles(x: bv8)
    ensures ((x >> 4) & 0x0F) as int == x as int / 16
    ensures (x & 0x0F) as int == x as int % 16
  {
  }

  /** The high nibble, as `format_byte_hex` selects it: a shift right by four and a mask. */
  function HighNibble(b: bv8): (h: int)
    ensures h == b as int / 16
  {
    Nibbles(b);
    ((b >> 4) & 0x0F) as int
  }

  /** The low nibble, as `format_byte_hex` selects it: a mask. */
  function LowNibble(b: bv8): (l: int)
    ensures l == b as int % 16
  {
    Nibbles(b);
    (b & 0x0F) as int
  }

  /**
   * `format_byte_hex(byte, buffer, position)`: the nibbles are selected with
   * a shift and a mask and looked up in the digit table; it writes three
   * characters and returns the position after them.
   */
  method FormatByteHex(b: bv8, buffer: array<char>, position: int) returns (next: int)
    requires 0 <= position && position + 3 <= buffer.Length
    modifies buffer
    ensures next == position + 3
    ensures buffer[..] == Splice(old(buffer[..]), position, ByteHex(b))
  {
    var high := HighNibble(b);
    var low := LowNibble(b);
    var p := position;
    buffer[p] := DIGIT_MAP[high];
    p := p + 1;
    buffer[p] := DIGIT_MAP[low];
    p := p + 1;
    buffer[p] := ' ';
    p := p + 1;
    next := p;
    assert buffer[..] == Splice(old(buffer[..]), position, ByteHex(b));
  }

  // -------------------------------------------------------------- dump_memory

  const DUMP_HEADER: seq<char> := "Memory Dump at 0x%llu (Size: %llu bytes):\n"
  const BYTE_FORMAT: seq<char> := "%s"

  /** The calls `dump_memory` makes: the header, one per byte, and the line ends. */
  datatype DumpRecord = Header(address: u64, size: u64) | Group(b: bv8) | LineEnd

  /** The `log_message` call of a record; a byte is printed through "%s" from its terminated three characters. */
  function RecordCall(rec: DumpRecord): LogCall
  {
    match rec
    case Header(address, size) => LogCall(LOG_INFO, DUMP_HEADER + [NUL], [Int(address), Int(size)])
    case Group(b) => LogCall(LOG_INFO, BYTE_FORMAT + [NUL], [Str(ByteHex(b) + [NUL])])
    case LineEnd => LogCall(LOG_INFO, "\n" + [NUL], [])
  }

  function CallsOf(recs: seq<DumpRecord>): (calls: seq<LogCall>)
    ensures |calls| == |recs| && forall k :: 0 <= k < |recs| ==> calls[k] == RecordCall(recs[k])
  {
    seq(|recs|, k requires 0 <= k < |recs| => RecordCall(recs[k]))
  }

  /** The records for the first n bytes: one per byte, and a line end after every sixteenth. */
  function ByteRecords(mem: seq<bv8>, n: nat): seq<DumpRecord>
    requires n <= |mem|
  {
    if n == 0 then []
    else ByteRecords(mem, n - 1) + [Group(mem[n - 1])] + (if n % 16 == 0 then [LineEnd] else [])
  }

  /** All records of `dump_memory(address, size)` over the bytes mem from the address on. */
  function DumpMemoryRecords(address: u64, size: u64, mem: seq<bv8>): seq<DumpRecord>
    requires size as int <= |mem|
  {
    [Header(address, size)] + ByteRecords(mem, size) + [LineEnd]
  }

  /**
   * `dump_memory(address, size)`, with mem the bytes from the address on: the
   * header, then for each byte in address order its text in a fresh 4-byte
   * buffer printed through "%s", a line end after every sixteenth byte, and
   * one line end at the close.
   */
  method DumpMemory(address: u64, size: u64, mem: seq<bv8>) returns (calls: seq<LogCall>)
    requires size as int <= |mem|
    ensures calls == CallsOf(DumpMemoryRecords(address, size, mem))
  {
    calls := [RecordCall(Header(address, size))];
    var i: nat := 0;
    while i < size as int
      invariant i <= size as int
      invariant calls == CallsOf([Header(address, size)] + ByteRecords(mem, i))
    {
      ghost var done := [Header(address, size)] + ByteRecords(mem, i);
      var byteBuffer := new char[4];
      var pos := 0;
      pos := FormatByteHex(mem[i], byteBuffer, pos);
      byteBuffer[pos] := NUL;
      assert byteBuffer[..] == ByteHex(mem[i]) + [NUL];
      calls := calls + [LogCall(LOG_INFO, BYTE_FORMAT + [NUL], [Str(byteBuffer[..])])];
      CallsOfSnoc(done, Group(mem[i]));
      ghost var next := done + [Group(mem[i])];
      if (i + 1) % 16 == 0 {
        calls := calls + [LogCall(LOG_INFO, "\n" + [NUL], [])];
        CallsOfSnoc(next, LineEnd);
        next := next + [LineEnd];
      }
      ByteRecordsStep([Header(address, size)], mem, i);
      i := i + 1;
    }
    calls := calls + [LogCall(LOG_INFO, "\n" + [NUL], [])];
    CallsOfSnoc([Header(address, size)] + ByteRecords(mem, size), LineEnd);
  }

  /** One more record, one more call. */
  lemma {:induction false} CallsOfSnoc(recs: seq<DumpRecord>, rec: DumpRecord)
    ensures CallsOf(recs + [rec]) == CallsOf(recs) + [RecordCall(rec)]
  {
  }

  /** The records of one more byte: its group, and a line end after every sixteenth byte. */
  lemma {:induction false} ByteRecordsStep(head: seq<DumpRecord>, mem: seq<bv8>, i: nat)
    requires i < |mem|
    ensures (i + 1) % 16 == 0 ==> head + ByteRecords(mem, i + 1) == head + ByteRecords(mem, i) + [Group(mem[i])] + [LineEnd]
    ensures (i + 1) % 16 != 0 ==> head + ByteRecords(mem, i + 1) == head + ByteRecords(mem, i) + [Group(mem[i])]
  {
    var g := ByteRecords(mem, i) + [Group(mem[i])];
    if (i + 1) % 16 != 0 {
      assert g + [] == g;
    }
  }

  /** How many line ends a list of records holds. */
  function LineEnds(recs: seq<DumpRecord>): (n: nat)
    ensures n <= |recs|
  {
    if recs == [] then 0 else LineEnds(recs[..|recs| - 1]) + (if recs[|recs| - 1].LineEnd? then 1 else 0)
  }

  /** The bytes the groups of a list of records print, in order. */
  function PrintedBytes(recs: seq<DumpRecord>): seq<bv8>
  {
    if recs == [] then [] else PrintedBytes(recs[..|recs| - 1]) + (if recs[|recs| - 1].Group? then [recs[|recs| - 1].b] else [])
  }

  lemma {:induction false} RecordsConcat(a: seq<DumpRecord>, b: seq<DumpRecord>)
    ensures LineEnds(a + b) == LineEnds(a) + LineEnds(b)
    ensures PrintedBytes(a + b) == PrintedBytes(a) + PrintedBytes(b)
    decreases |b|
  {
    if b == [] {
      assert a + b == a;
    } else {
      var b' := b[..|b| - 1];
      assert (a + b)[..|a + b| - 1] == a + b';
      RecordsConcat(a, b');
    }
  }

  /** The records of n bytes print those bytes in order, with n / 16 line ends among them. */
  lemma {:induction false} ByteRecordsLayout(mem: seq<bv8>, n: nat)
    requires n <= |mem|
    ensures LineEnds(ByteRecords(mem, n)) == n / 16
    ensures PrintedBytes(ByteRecords(mem, n)) == mem[..n]
  {
    if n > 0 {
      ByteRecordsLayout(mem, n - 1);
      AppendGroup(ByteRecords(mem, n - 1), mem[..n - 1], mem[n - 1], (n - 1) / 16, n % 16 == 0);
      TakeOneMore(mem, n - 1);
      SixteenthStep(n);
    }
  }

  /** A group, and perhaps a line end, added to records that print bytes with ends line ends. */
  lemma {:induction false} AppendGroup(prev: seq<DumpRecord>, bytes: seq<bv8>, b: bv8, ends: nat, last: bool)
    requires LineEnds(prev) == ends && PrintedBytes(prev) == bytes
    ensures var recs := prev + [Group(b)] + (if last then [LineEnd] else []);
      LineEnds(recs) == ends + (if last then 1 else 0) && PrintedBytes(recs) == bytes + [b]
  {
    RecordsConcat(prev, [Group(b)]);
    SingleRecord(Group(b));
    if last {
      RecordsConcat(prev + [Group(b)], [LineEnd]);
      SingleRecord(LineEnd);
    } else {
      assert prev + [Group(b)] + [] == prev + [Group(b)];
    }
  }

  /** What one record counts. */
  lemma {:induction false} SingleRecord(r: DumpRecord)
    ensures LineEnds([r]) == (if r.LineEnd? then 1 else 0)
    ensures PrintedBytes([r]) == (if r.Group? then [r.b] else [])
  {
    assert [r][..0] == [];
  }

  /** Every sixteenth byte adds one to the count of full lines. */
  lemma {:induction false} SixteenthStep(n: nat)
    requires n > 0
    ensures n / 16 == (n - 1) / 16 + (if n % 16 == 0 then 1 else 0)
  {
  }

  /**
   * `dump_memory` prints exactly the size bytes, in address order, between
   * the header and the final line end, with size / 16 + 1 line ends in all.
   */
  lemma {:induction false} DumpMemoryLayout(address: u64, size: u64, mem: seq<bv8>)
    requires size as int <= |mem|
    ensures var recs := DumpMemoryRecords(address, size, mem);
      recs[0] == Header(address, size) && recs[|recs| - 1] == LineEnd &&
      PrintedBytes(recs) == mem[..size] && LineEnds(recs) == size as int / 16 + 1
  {
    var records := ByteRecords(mem, size);
    ByteRecordsLayout(mem, size);
    RecordsConcat([Header(address, size)], records);
    RecordsConcat([Header(address, size)] + records, [LineEnd]);
    assert [Header(address, size)][..0] == [] && [LineEnd][..0] == [];
  }

  /** What a record shows. */
  function RecordText(rec: DumpRecord): seq<char>
  {
    match rec
    case Header(_, _) => "[INFO] " + DUMP_HEADER
    case Group(b) => "[INFO] " + ByteHex(b)
    case LineEnd => "[INFO] \n"
  }

  /** Both '%' of the header start a "%llu", which `vprintk` has no conversion for. */
  lemma {:induction false} DumpHeaderEchoes()
    ensures NUL !in DUMP_HEADER && EchoesAsIs(DUMP_HEADER)
  {
    DumpHeaderSplit();
    PlainPiece(HEADER_START);
    PlainPiece(HEADER_MID);
    PlainPiece(HEADER_END);
    LluEchoes(HEADER_START, HEADER_MID, HEADER_END);
  }

  const HEADER_START: seq<char> := "Memory Dump at 0x"
  const HEADER_MID: seq<char> := " (Size: "
  const HEADER_END: seq<char> := " bytes):\n"

  lemma {:induction false} DumpHeaderSplit()
    ensures DUMP_HEADER == HEADER_START + "%llu" + HEADER_MID + "%llu" + HEADER_END
  {
  }

  /** The three plain pieces of the header hold no '%' and no terminator. */
  lemma {:induction false} PlainPiece(p: seq<char>)
    requires p == HEADER_START || p == HEADER_MID || p == HEADER_END
    ensures '%' !in p && NUL !in p
  {
    if p == HEADER_START {
      assert '%' !in HEADER_START;
      assert NUL !in HEADER_START;
    } else if p == HEADER_MID {
      assert '%' !in HEADER_MID;
      assert NUL !in HEADER_MID;
    } else {
      assert '%' !in HEADER_END;
      assert NUL !in HEADER_END;
    }
  }

  /** Plain pieces around two "%llu" echo as they stand. */
  lemma {:induction false} LluEchoes(p1: seq<char>, p2: seq<char>, p3: seq<char>)
    requires '%' !in p1 && '%' !in p2 && '%' !in p3 && NUL !in p1 && NUL !in p2 && NUL !in p3
    ensures NUL !in p1 + "%llu" + p2 + "%llu" + p3 && EchoesAsIs(p1 + "%llu" + p2 + "%llu" + p3)
  {
    assert NUL !in "%llu";
    PlainEchoesAsIs(p1);
    PlainEchoesAsIs(p2);
    PlainEchoesAsIs(p3);
    assert EchoesAsIs("%llu");
    EchoesAsIsConcat(p1, "%llu");
    EchoesAsIsConcat(p1 + "%llu", p2);
    EchoesAsIsConcat(p1 + "%llu" + p2, "%llu");
    EchoesAsIsConcat(p1 + "%llu" + p2 + "%llu", p3);
  }

  /** The header prints as it stands: `vprintk` takes no argument for its two "%llu". */
  lemma {:induction false} DumpHeaderText(address: u64, size: u64)
    ensures Fits(RecordCall(Header(address, size)))
    ensures LogText(RecordCall(Header(address, size))) == RecordText(Header(address, size))
  {
    DumpHeaderEchoes();
    CStringOfTerminated(DUMP_HEADER);
    VprintkEchoes(DUMP_HEADER + [NUL], [Int(address), Int(size)]);
  }

  /** A format that is one "%s" prints the string argument. */
  lemma {:induction false} StringOnlyText(s: seq<char>)
    requires NUL !in s
    ensures NUL in BYTE_FORMAT + [NUL] && VprintkText(BYTE_FORMAT + [NUL], [Str(s + [NUL])]) == Some(s)
  {
    var fmt := BYTE_FORMAT + [NUL];
    var args := [Str(s + [NUL])];
    CStringOfTerminated(s);
    VprintkString(fmt, 0, args, 0);
    assert fmt[2] == NUL;
    assert VprintkFrom(fmt, 2, args, 1) == Some([]);
    assert s + [] == s;
  }

  /** Every record's call fits and shows its text: the prefix comes before the header, each byte group and each line end. */
  lemma {:induction false} RecordCallText(rec: DumpRecord)
    ensures Fits(RecordCall(rec))
    ensures LogText(RecordCall(rec)) == RecordText(rec)
  {
    match rec
    case Header(address, size) => DumpHeaderText(address, size);
    case Group(b) => StringOnlyText(ByteHex(b));
    case LineEnd =>
      CStringOfTerminated("\n");
      VprintkLiteral("\n" + [NUL], []);
  }

  /** The texts of a list of records, one after the other. */
  function RecordsText(recs: seq<DumpRecord>): seq<char>
  {
    if recs == [] then [] else RecordsText(recs[..|recs| - 1]) + RecordText(recs[|recs| - 1])
  }

  /** The calls of records all fit, and their transcript is the records' texts. */
  lemma {:induction false} RecordsTranscript(recs: seq<DumpRecord>)
    ensures forall k :: 0 <= k < |recs| ==> Fits(CallsOf(recs)[k])
    ensures Transcript(CallsOf(recs)) == RecordsText(recs)
  {
    forall k | 0 <= k < |recs| ensures Fits(CallsOf(recs)[k]) {
      RecordCallText(recs[k]);
    }
    if recs != [] {
      var n := |recs| - 1;
      RecordsTranscript(recs[..n]);
      assert CallsOf(recs)[..n] == CallsOf(recs[..n]);
      RecordCallText(recs[n]);
    }
  }

  // ----------------------------------------------------------- dump_registers

  /** The sixteen general registers `dump_registers` captures. */
  datatype Registers = Registers(
    rax: u64, rbx: u64, rcx: u64, rdx: u64, rsi: u64, rdi: u64, rbp: u64, rsp: u64,
    r8: u64, r9: u64, r10: u64, r11: u64, r12: u64, r13: u64, r14: u64, r15: u64)

  /** The registers in the order they are printed. */
  function RegisterValues(r: Registers): (vs: seq<u64>)
    ensures |vs| == 16
  {
    [r.rax, r.rbx, r.rcx, r.rdx, r.rsi, r.rdi, r.rbp, r.rsp,
     r.r8, r.r9, r.r10, r.r11, r.r12, r.r13, r.r14, r.r15]
  }

  /** The labels of the register lines, padded to three characters. */
  const REGISTER_NAMES: seq<seq<char>> :=
    ["RAX", "RBX", "RCX", "RDX", "RSI", "RDI", "RBP", "RSP",
     "R8 ", "R9 ", "R10", "R11", "R12", "R13", "R14", "R15"]

  const REGISTER_HEADER: seq<char> := "Register Dump:\n"

  /** One register line: the label, then "0x" and a "%u" conversion of the value. */
  function RegisterLine(name: seq<char>, v: u64): LogCall
  {
    LogCall(LOG_INFO, name + ": 0x" + "%u" + "\n" + [NUL], [Int(v)])
  }

  /**
   * `dump_registers`: a header, then one informational line per register,
   * each with that register's value as its one argument. What the calls
   * show is the header, then for each register in the order RAX, RBX, RCX,
   * RDX, RSI, RDI, RBP, RSP, R8 to R15 its label, "0x" and its value in
   * decimal.
   */
  function DumpRegisters(r: Registers): (calls: seq<LogCall>)
    ensures |calls| == 17 && forall k :: 0 <= k < 17 ==> Fits(calls[k])
    ensures Transcript(calls) == RegisterDumpText(r, 16)
  {
    var calls := [LogCall(LOG_INFO, REGISTER_HEADER + [NUL], [])]
      + seq(16, k requires 0 <= k < 16 => RegisterLine(REGISTER_NAMES[k], RegisterValues(r)[k]));
    RegisterCallsText(r, calls);
    calls
  }

  /** Every label is three characters without '%' or terminator. */
  lemma {:induction false} RegisterNamesArePlain()
    ensures forall k :: 0 <= k < 16 ==> |REGISTER_NAMES[k]| == 3 && '%' !in REGISTER_NAMES[k] && NUL !in REGISTER_NAMES[k]
  {
  }

  /** Where the pieces of a terminated format built as p1, x, p2 (x a two-character conversion) lie. */
  lemma {:induction false} OneConversionLayout(p1: seq<char>, x: seq<char>, p2: seq<char>)
    requires |x| == 2
    ensures var f := p1 + x + p2 + [NUL]; var i := |p1|;
      f[0..i] == p1 && f[i] == x[0] && f[i + 1] == x[1] && f[i + 2..i + 2 + |p2|] == p2
  {
  }

  /** Where the pieces of a terminated format built as p1, x, p2, y, p3 (x and y two-character conversions) lie. */
  lemma {:induction false} TwoConversionLayout(p1: seq<char>, x: seq<char>, p2: seq<char>, y: seq<char>, p3: seq<char>)
    requires |x| == 2 && |y| == 2
    ensures var f := p1 + x + p2 + y + p3 + [NUL]; var i := |p1|; var j := i + 2 + |p2|;
      f[0..i] == p1 && f[i] == x[0] && f[i + 1] == x[1] && f[i + 2..j] == p2 &&
      f[j] == y[0] && f[j + 1] == y[1] && f[j + 2..j + 2 + |p3|] == p3
  {
    var f := p1 + x + p2 + y + p3 + [NUL];
    var i := |p1|;
    var j := i + 2 + |p2|;
    assert f[0..i] == p1;
    assert f[i + 2..j] == p2;
    assert f[j + 2..j + 2 + |p3|] == p3;
  }

  /**
   * The end of a walk of `vprintk` from position i over a format laid out as
   * t, "%u", u and the terminator, where the "%u" takes the last argument.
   */
  lemma {:induction false} UnsignedTailWalk(fmt: seq<char>, i: nat, t: seq<char>, u: seq<char>, args: seq<Arg>, a: nat, v: u64)
    requires '%' !in t && '%' !in u && NUL !in t && NUL !in u
    requires a + 1 == |args| && args[a] == Int(v)
    requires NUL in fmt && CLen(fmt) == i + |t| + 2 + |u|
    requires var j := i + |t|; fmt[i..j] == t && fmt[j] == '%' && fmt[j + 1] == 'u' && fmt[j + 2..CLen(fmt)] == u
    ensures VprintkFrom(fmt, i, args, a) == Some(t + (UdecimalText(v) + u))
  {
    var j := i + |t|;
    VprintkEnd(fmt, args, a + 1);
    VprintkSegmentThen(fmt, j + 2, u, args, a + 1, []);
    assert u + [] == u;
    VprintkUnsignedThen(fmt, j, args, a, u);
    VprintkSegmentThen(fmt, i, t, args, a, UdecimalText(v) + u);
  }

  /** The walk of `vprintk` over a format laid out as p1, "%u", p2 and the terminator. */
  lemma {:induction false} OneUnsignedWalk(fmt: seq<char>, p1: seq<char>, p2: seq<char>, v: u64)
    requires '%' !in p1 && '%' !in p2 && NUL !in p1 && NUL !in p2
    requires NUL in fmt && CLen(fmt) == |p1| + 2 + |p2|
    requires fmt[0..|p1|] == p1 && fmt[|p1|] == '%' && fmt[|p1| + 1] == 'u' && fmt[|p1| + 2..CLen(fmt)] == p2
    ensures VprintkText(fmt, [Int(v)]) == Some(p1 + UdecimalText(v) + p2)
  {
    UnsignedTailWalk(fmt, 0, p1, p2, [Int(v)], 0, v);
    assert p1 + (UdecimalText(v) + p2) == p1 + UdecimalText(v) + p2;
  }

  /** A format with one "%u" and no other '%' prints the decimal numeral of its one argument there. */
  lemma {:induction false} OneUnsignedText(p1: seq<char>, p2: seq<char>, v: u64)
    requires '%' !in p1 && '%' !in p2 && NUL !in p1 && NUL !in p2
    ensures var fmt := p1 + "%u" + p2 + [NUL];
      NUL in fmt && VprintkText(fmt, [Int(v)]) == Some(p1 + UdecimalText(v) + p2)
  {
    OneConversionLayout(p1, "%u", p2);
    CStringOfTerminated(p1 + "%u" + p2);
    OneUnsignedWalk(p1 + "%u" + p2 + [NUL], p1, p2, v);
  }

  /** The message of a register line: the label, ": 0x", the value in decimal and a line break. */
  function RegisterText(name: seq<char>, v: u64): seq<char>
  {
    name + ": 0x" + UdecimalText(v) + "\n"
  }

  /**
   * A register line shows its label and "0x" followed by the DECIMAL numeral
   * of the value, since "%u" is the unsigned decimal conversion.
   */
  lemma {:induction false} RegisterLineText(name: seq<char>, v: u64)
    requires |name| == 3 && '%' !in name && NUL !in name
    ensures Fits(RegisterLine(name, v))
    ensures LogText(RegisterLine(name, v)) == "[INFO] " + RegisterText(name, v)
  {
    OneUnsignedText(name + ": 0x", "\n", v);
    UdecimalTextProperties(v);
  }

  lemma {:induction false} RegisterLineCallText(name: seq<char>, v: u64)
    requires |name| == 3 && '%' !in name && NUL !in name
    ensures Fits(RegisterLine(name, v))
    ensures CallText(RegisterLine(name, v)) == "[INFO] " + RegisterText(name, v)
  {
    RegisterLineText(name, v);
  }

  /** The header line of the register dump prints as it stands. */
  lemma {:induction false} RegisterHeaderText()
    ensures Fits(LogCall(LOG_INFO, REGISTER_HEADER + [NUL], []))
    ensures LogText(LogCall(LOG_INFO, REGISTER_HEADER + [NUL], [])) == "[INFO] " + REGISTER_HEADER
  {
    CStringOfTerminated(REGISTER_HEADER);
    VprintkLiteral(REGISTER_HEADER + [NUL], []);
  }

  /** The screen text of the register dump's header and its first n lines. */
  function RegisterDumpText(r: Registers, n: nat): seq<char>
    requires n <= 16
  {
    if n == 0 then "[INFO] " + REGISTER_HEADER
    else RegisterDumpText(r, n - 1) + ("[INFO] " + RegisterText(REGISTER_NAMES[n - 1], RegisterValues(r)[n - 1]))
  }

  /** The transcript of a list is the transcript of all but its last call, then the text of that call. */
  lemma {:induction false} TranscriptSnoc(calls: seq<LogCall>, c: LogCall)
    requires forall k :: 0 <= k < |calls| ==> Fits(calls[k])
    requires Fits(c)
    ensures forall k :: 0 <= k < |calls + [c]| ==> Fits((calls + [c])[k])
    ensures Transcript(calls + [c]) == Transcript(calls) + LogText(c)
  {
    JoinedSnoc(calls, c, CallText);
  }

  /** Taking every element leaves the sequence as it is. */
  lemma {:induction false} TakeAll<T>(s: seq<T>)
    ensures s[..|s|] == s
  {
  }

  /** The first n + 1 elements are the first n and then element n. */
  lemma {:induction false} TakeOneMore<T>(s: seq<T>, n: nat)
    requires n < |s|
    ensures s[..n + 1] == s[..n] + [s[n]]
  {
  }

  /** The first n + 1 calls of a list that shows the register dump's lines one by one show its header and first n lines. */
  lemma {:induction false} RegisterDumpPrefix(r: Registers, calls: seq<LogCall>, n: nat)
    requires |calls| == 17
    requires CallText(calls[0]) == "[INFO] " + REGISTER_HEADER
    requires forall k :: 1 <= k < 17 ==> CallText(calls[k]) == "[INFO] " + RegisterText(REGISTER_NAMES[k - 1], RegisterValues(r)[k - 1])
    requires n <= 16
    ensures Transcript(calls[..n + 1]) == RegisterDumpText(r, n)
  {
    if n == 0 {
      TakeOneMore(calls, 0);
      assert calls[..0] == [];
      JoinedSnoc([], calls[0], CallText);
      assert [] + CallText(calls[0]) == CallText(calls[0]);
    } else {
      RegisterDumpPrefix(r, calls, n - 1);
      TakeOneMore(calls, n);
      JoinedSnoc(calls[..n], calls[n], CallText);
    }
  }

  /** Calls laid out as the register dump's: the header, then one line per register in order. */
  lemma {:induction false} RegisterCallsText(r: Registers, calls: seq<LogCall>)
    requires |calls| == 17 && calls[0] == LogCall(LOG_INFO, REGISTER_HEADER + [NUL], [])
    requires forall k :: 1 <= k < 17 ==> calls[k] == RegisterLine(REGISTER_NAMES[k - 1], RegisterValues(r)[k - 1])
    ensures forall k :: 0 <= k < 17 ==> Fits(calls[k])
    ensures Transcript(calls) == RegisterDumpText(r, 16)
  {
    RegisterNamesArePlain();
    RegisterCallsFit(r, calls);
    RegisterHeaderText();
    assert CallText(calls[0]) == "[INFO] " + REGISTER_HEADER;
    forall k | 1 <= k < 17
      ensures CallText(calls[k]) == "[INFO] " + RegisterText(REGISTER_NAMES[k - 1], RegisterValues(r)[k - 1])
    {
      RegisterLineCallText(REGISTER_NAMES[k - 1], RegisterValues(r)[k - 1]);
    }
    RegisterDumpPrefix(r, calls, 16);
    TakeAll(calls);
  }

  lemma {:induction false} RegisterCallsFit(r: Registers, calls: seq<LogCall>)
    requires |calls| == 17 && calls[0] == LogCall(LOG_INFO, REGISTER_HEADER + [NUL], [])
    requires forall k :: 1 <= k < 17 ==> calls[k] == RegisterLine(REGISTER_NAMES[k - 1], RegisterValues(r)[k - 1])
    requires forall k :: 0 <= k < 16 ==> |REGISTER_NAMES[k]| == 3 && '%' !in REGISTER_NAMES[k] && NUL !in REGISTER_NAMES[k]
    ensures forall k :: 0 <= k < 17 ==> Fits(calls[k])
  {
    forall k | 0 <= k < 17
      ensures Fits(calls[k])
    {
      if k == 0 {
        RegisterHeaderText();
      } else {
        RegisterLineText(REGISTER_NAMES[k - 1], RegisterValues(r)[k - 1]);
      }
    }
  }

  // ------------------------------------------------------ error_check, ASSERT

  const BANNER_RULE: seq<char> := "------------------------------------------\n"
  const BANNER_TITLE: seq<char> := "                 PANIC\n"
  const FAILURE_FORMAT: seq<char> := "Assertion Failed: %s:%u\n"

  /** The banner lines hold no '%' and no terminator. */
  lemma {:induction false} BannerIsPlain()
    ensures '%' !in BANNER_RULE && NUL !in BANNER_RULE
    ensures '%' !in BANNER_TITLE && NUL !in BANNER_TITLE
    ensures |BANNER_RULE| == 43 && |BANNER_TITLE| == 23
  {
    RuleHasNoPercent();
    RuleHasNoNul();
    TitleIsPlain();
  }

  lemma {:induction false} RuleHasNoPercent()
    ensures '%' !in BANNER_RULE
  {
  }

  lemma {:induction false} RuleHasNoNul()
    ensures NUL !in BANNER_RULE
  {
  }

  lemma {:induction false} TitleIsPlain()
    ensures '%' !in BANNER_TITLE && NUL !in BANNER_TITLE
  {
    assert '%' !in BANNER_TITLE;
    assert NUL !in BANNER_TITLE;
  }

  /**
   * The three banner calls, at panic level and without arguments: they show
   * the rule, the line naming the panic, and the rule again.
   */
  function BannerCalls(): (calls: seq<LogCall>)
    ensures |calls| == 3 && forall k :: 0 <= k < 3 ==> Fits(calls[k])
    ensures Transcript(calls) == BannerText()
  {
    var calls :=
      [LogCall(LOG_PANIC, BANNER_RULE + [NUL], []),
       LogCall(LOG_PANIC, BANNER_TITLE + [NUL], []),
       LogCall(LOG_PANIC, BANNER_RULE + [NUL], [])];
    BannerIsPlain();
    LiteralCallText(LOG_PANIC, BANNER_RULE);
    LiteralCallText(LOG_PANIC, BANNER_TITLE);
    TranscriptOfThree(calls[0], calls[1], calls[2]);
    calls
  }

  /** The failure call `error_check` makes for a site. */
  function FailureCall(file: seq<char>, line: u64): LogCall
  {
    LogCall(LOG_PANIC, FAILURE_FORMAT + [NUL], [Str(file), Int(line)])
  }

  /**
   * The calls of `error_check(file, line)`: three banner lines at panic
   * level, the middle one naming the panic, the failure line with the file
   * and the line number, then the register dump; no memory dump.
   */
  function ErrorCheckCalls(file: seq<char>, line: u64, r: Registers): (calls: seq<LogCall>)
    ensures |calls| == 21 && calls[..3] == BannerCalls() && calls[4..] == DumpRegisters(r)
    ensures calls[3] == FailureCall(file, line) && calls[3].level == LOG_PANIC
  {
    BannerCalls() + [FailureCall(file, line)] + DumpRegisters(r)
  }

  /**
   * How control leaves a call: it goes on, or the report is made, interrupts
   * are disabled and the processor spins for good.
   */
  datatype Outcome = Continued | Halted(report: seq<LogCall>, interruptsEnabled: bool)

  /**
   * `error_check(file, line)`: it never returns; it reports, disables
   * interrupts and halts. The report shows the banner, the failure line and
   * the register dump, in that order, whenever the file name leaves the
   * failure line within the `vprintk` buffer.
   */
  function ErrorCheck(file: seq<char>, line: u64, r: Registers): (o: Outcome)
    ensures o.Halted? && !o.interruptsEnabled && o.report == ErrorCheckCalls(file, line, r)
    ensures NUL in file && CLen(file) <= OUTPUT_SIZE - 40 ==>
      (forall k :: 0 <= k < |o.report| ==> Fits(o.report[k])) &&
      Transcript(o.report) == BannerText() + ("[PANIC] " + FailureText(file, line)) + RegisterDumpText(r, 16)
  {
    var calls := ErrorCheckCalls(file, line, r);
    if NUL in file && CLen(file) <= OUTPUT_SIZE - 40 then
      ErrorCheckText(file, line, r);
      Halted(calls, false)
    else
      Halted(calls, false)
  }

  /**
   * `ASSERT(expr)` at a site with the given file and line: no effect when the
   * condition holds, `error_check` with the site otherwise. The condition is
   * a value, evaluated once by the caller.
   */
  function Assert(expr: bool, file: seq<char>, line: u64, r: Registers): (o: Outcome)
    ensures o.Continued? <==> expr
    ensures !expr ==> o == ErrorCheck(file, line, r)
  {
    if !expr then ErrorCheck(file, line, r) else Continued
  }

  lemma {:induction false} Reassociate5(a: seq<char>, b: seq<char>, c: seq<char>, d: seq<char>, e: seq<char>)
    ensures a + (b + (c + (d + e))) == a + b + c + d + e
  {
  }

  /** The walk of `vprintk` over a format laid out as p1, "%s", p2, "%u", p3 and the terminator. */
  lemma {:induction false} StringUnsignedWalk(fmt: seq<char>, p1: seq<char>, p2: seq<char>, p3: seq<char>, s: seq<char>, v: u64)
    requires '%' !in p1 && '%' !in p2 && '%' !in p3 && NUL !in p1 && NUL !in p2 && NUL !in p3 && NUL in s
    requires NUL in fmt && CLen(fmt) == |p1| + |p2| + |p3| + 4
    requires var i1 := |p1|; var i3 := i1 + 2 + |p2|;
      fmt[0..i1] == p1 && fmt[i1 + 2..i3] == p2 && fmt[i3 + 2..CLen(fmt)] == p3 &&
      fmt[i1] == '%' && fmt[i1 + 1] == 's' && fmt[i3] == '%' && fmt[i3 + 1] == 'u'
    ensures VprintkText(fmt, [Str(s), Int(v)]) == Some(p1 + CString(s) + p2 + UdecimalText(v) + p3)
  {
    var args, c, d := [Str(s), Int(v)], CString(s), UdecimalText(v);
    var i1 := |p1|;
    UnsignedTailWalk(fmt, i1 + 2, p2, p3, args, 1, v);
    VprintkStringThen(fmt, i1, args, 0, p2 + (d + p3));
    VprintkSegmentThen(fmt, 0, p1, args, 0, c + (p2 + (d + p3)));
    Reassociate5(p1, c, p2, d, p3);
  }

  /**
   * A format with one "%s" and then one "%u" and no other '%' prints the
   * string argument up to its terminator, then the numeral of the integer.
   */
  lemma {:induction false} StringUnsignedText(p1: seq<char>, p2: seq<char>, p3: seq<char>, s: seq<char>, v: u64)
    requires '%' !in p1 && '%' !in p2 && '%' !in p3 && NUL !in p1 && NUL !in p2 && NUL !in p3 && NUL in s
    ensures var fmt := p1 + "%s" + p2 + "%u" + p3 + [NUL];
      NUL in fmt && VprintkText(fmt, [Str(s), Int(v)]) == Some(p1 + CString(s) + p2 + UdecimalText(v) + p3)
  {
    TwoConversionLayout(p1, "%s", p2, "%u", p3);
    CStringOfTerminated(p1 + "%s" + p2 + "%u" + p3);
    StringUnsignedWalk(p1 + "%s" + p2 + "%u" + p3 + [NUL], p1, p2, p3, s, v);
  }

  /** The message of the failure line: the file name as far as its terminator, a colon and the line number. */
  function FailureText(file: seq<char>, line: u64): seq<char>
    requires NUL in file
  {
    "Assertion Failed: " + CString(file) + ":" + UdecimalText(line) + "\n"
  }

  /** The failure format is plain text around one "%s" and one "%u". */
  lemma {:induction false} FailureFormatLayout()
    ensures FAILURE_FORMAT == "Assertion Failed: " + "%s" + ":" + "%u" + "\n"
    ensures '%' !in "Assertion Failed: " && NUL !in "Assertion Failed: "
    ensures '%' !in ":" && NUL !in ":" && '%' !in "\n" && NUL !in "\n"
  {
  }

  /**
   * The failure line shows the file name as far as its terminator, a colon
   * and the line number in decimal; a name of up to 984 characters keeps the
   * message within the 1024 characters of the `vprintk` buffer.
   */
  lemma {:induction false} FailureLineText(file: seq<char>, line: u64)
    requires NUL in file && CLen(file) <= OUTPUT_SIZE - 40
    ensures Fits(FailureCall(file, line))
    ensures LogText(FailureCall(file, line)) == "[PANIC] " + FailureText(file, line)
  {
    FailureFormatLayout();
    StringUnsignedText("Assertion Failed: ", ":", "\n", file, line);
    UdecimalTextProperties(line);
  }

  /** The three banner lines at panic level. */
  function BannerText(): seq<char>
  {
    ("[PANIC] " + BANNER_RULE) + ("[PANIC] " + BANNER_TITLE) + ("[PANIC] " + BANNER_RULE)
  }

  /** A call whose format has no '%' shows its format after the prefix. */
  lemma {:induction false} LiteralCallText(level: int, t: seq<char>)
    requires '%' !in t && NUL !in t && |t| <= OUTPUT_SIZE
    ensures Fits(LogCall(level, t + [NUL], []))
    ensures LogText(LogCall(level, t + [NUL], [])) == LevelPrefix(level) + t
  {
    CStringOfTerminated(t);
    VprintkLiteral(t + [NUL], []);
  }

  /** A list of three built one element at a time. */
  lemma {:induction false} ThreeBySnoc<T>(a: T, b: T, c: T)
    ensures [] + [a] == [a] && [a] + [b] == [a, b] && [a, b] + [c] == [a, b, c]
  {
  }

  /** Three calls one after the other show their three texts one after the other. */
  lemma {:induction false} TranscriptOfThree(ca: LogCall, cb: LogCall, cc: LogCall)
    requires Fits(ca) && Fits(cb) && Fits(cc)
    ensures var calls := [ca, cb, cc];
      (forall k :: 0 <= k < 3 ==> Fits(calls[k])) && Transcript(calls) == LogText(ca) + LogText(cb) + LogText(cc)
  {
    ThreeBySnoc(ca, cb, cc);
    TranscriptSnoc([], ca);
    assert [] + LogText(ca) == LogText(ca);
    TranscriptSnoc([ca], cb);
    TranscriptSnoc([ca, cb], cc);
  }

  /**
   * What `error_check` shows before it halts: the three banner lines, the
   * failure line with the file and line number, and the register dump.
   */
  lemma {:induction false} ErrorCheckText(file: seq<char>, line: u64, r: Registers)
    requires NUL in file && CLen(file) <= OUTPUT_SIZE - 40
    ensures var calls := ErrorCheckCalls(file, line, r);
      (forall k :: 0 <= k < |calls| ==> Fits(calls[k])) &&
      Transcript(calls) == BannerText() + ("[PANIC] " + FailureText(file, line)) + RegisterDumpText(r, 16)
  {
    var banner, regs := BannerCalls(), DumpRegisters(r);
    var head := banner + [FailureCall(file, line)];
    FailureLineText(file, line);
    TranscriptSnoc(banner, FailureCall(file, line));
    AllFitConcat(head, regs);
    TranscriptConcat(head, regs);
    assert ErrorCheckCalls(file, line, r) == head + regs;
  }
}
