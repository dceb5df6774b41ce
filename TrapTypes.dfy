/**
 * The packed hardware layouts of the trap interface: the 16-byte interrupt
 * gate of an IDT slot, the 10-byte operand of `lidt`, the trap frame that
 * the vector stubs build on the interrupt stack, and the set of vector
 * numbers that have a stub.
 */
module TrapTypes {
  import opened Machine

  /**
   * One IDT slot, field by field in memory order: handler offset 15..0,
   * code-segment selector, a reserved byte, the type/attribute byte, handler
   * offset 31..16, handler offset 63..32, and a reserved doubleword.
   */
  datatype IdtEntry = IdtEntry(low: u16, selector: u16, res0: u8, attr: u8, mid: u16, high: u32, res1: u32)

  /** The value of a slot in the zero-initialised static table. */
  const EmptyEntry: IdtEntry := IdtEntry(0, 0, 0, 0, 0, 0, 0)

  const IDT_ENTRY_SIZE: nat := 16

  /** The packed little-endian bytes of an entry (no padding). */
  function EntryBytes(e: IdtEntry): (r: seq<u8>)
    ensures |r| == IDT_ENTRY_SIZE
  {
    LittleEndian(e.low, 2) + LittleEndian(e.selector, 2) + [e.res0] + [e.attr]
    + LittleEndian(e.mid, 2) + LittleEndian(e.high, 4) + LittleEndian(e.res1, 4)
  }

  /** Reads an entry back from its 16 bytes, each field at its packed offset. */
  function ParseEntry(bs: seq<u8>): IdtEntry
    requires |bs| == IDT_ENTRY_SIZE
  {
    IdtEntry(FromLittleEndian(bs[0..2]), FromLittleEndian(bs[2..4]), bs[4], bs[5],
             FromLittleEndian(bs[6..8]), FromLittleEndian(bs[8..12]), FromLittleEndian(bs[12..16]))
  }

  /** The packed layout is faithful: every field sits at its own offset and reads back unchanged. */
  lemma EntryLayout(e: IdtEntry)
    ensures ParseEntry(EntryBytes(e)) == e
  {
    var bs := EntryBytes(e);
    assert bs[0..2] == LittleEndian(e.low, 2);
    assert bs[2..4] == LittleEndian(e.selector, 2);
    assert bs[6..8] == LittleEndian(e.mid, 2);
    assert bs[8..12] == LittleEndian(e.high, 4);
    assert bs[12..16] == LittleEndian(e.res1, 4);
    LittleEndianRoundTrip(e.low, 2);
    LittleEndianRoundTrip(e.selector, 2);
    LittleEndianRoundTrip(e.mid, 2);
    LittleEndianRoundTrip(e.high, 4);
    LittleEndianRoundTrip(e.res1, 4);
  }

  /** The operand of `lidt`: the table's size in bytes minus one, then its linear base address. */
  datatype IdtPtr = IdtPtr(limit: u16, addr: u64)

  const IDT_PTR_SIZE: nat := 10

  function PtrBytes(p: IdtPtr): (r: seq<u8>)
    ensures |r| == IDT_PTR_SIZE
  {
    LittleEndian(p.limit, 2) + LittleEndian(p.addr, 8)
  }

  function ParsePtr(bs: seq<u8>): IdtPtr
    requires |bs| == IDT_PTR_SIZE
  {
    Pow256Values();
    IdtPtr(FromLittleEndian(bs[0..2]), FromLittleEndian(bs[2..10]))
  }

  /** The limit occupies bytes 0..1 and the base bytes 2..9, and both read back unchanged. */
  lemma PtrLayout(p: IdtPtr)
    ensures ParsePtr(PtrBytes(p)) == p
  {
    var bs := PtrBytes(p);
    assert bs[0..2] == LittleEndian(p.limit, 2);
    assert bs[2..10] == LittleEndian(p.addr, 8);
    LittleEndianRoundTrip(p.limit, 2);
    LittleEndianRoundTrip(p.addr, 8);
  }

  /**
   * The processor state saved on interrupt entry, lowest address first: the
   * fifteen general registers in the order the stubs push them (rax pushed
   * first, so it sits highest), then the vector number, the error code (a
   * placeholder for vectors without one) and the five words the processor pushes.
   */
  datatype TrapFrame = TrapFrame(
    r15: i64, r14: i64, r13: i64, r12: i64, r11: i64, r10: i64, r9: i64, r8: i64,
    rbp: i64, rdi: i64, rsi: i64, rdx: i64, rcx: i64, rbx: i64, rax: i64,
    trapno: i64, errorcode: i64, rip: i64, cs: i64, rflags: i64, rsp: i64, ss: i64)

  const TRAP_FRAME_WORDS: nat := 22

  /** The frame as the sequence of 64-bit words it occupies in memory. */
  function FrameWords(tf: TrapFrame): (ws: seq<i64>)
    ensures |ws| == TRAP_FRAME_WORDS
    ensures ws[15] == tf.trapno && ws[16] == tf.errorcode && ws[17] == tf.rip
    ensures ws[0] == tf.r15 && ws[14] == tf.rax && ws[21] == tf.ss
  {
    [tf.r15, tf.r14, tf.r13, tf.r12, tf.r11, tf.r10, tf.r9, tf.r8,
     tf.rbp, tf.rdi, tf.rsi, tf.rdx, tf.rcx, tf.rbx, tf.rax,
     tf.trapno, tf.errorcode, tf.rip, tf.cs, tf.rflags, tf.rsp, tf.ss]
  }

  /** Reads a frame from the words a stub left on the stack. */
  function FrameOfWords(ws: seq<i64>): TrapFrame
    requires |ws| == TRAP_FRAME_WORDS
  {
    TrapFrame(ws[0], ws[1], ws[2], ws[3], ws[4], ws[5], ws[6], ws[7],
              ws[8], ws[9], ws[10], ws[11], ws[12], ws[13], ws[14],
              ws[15], ws[16], ws[17], ws[18], ws[19], ws[20], ws[21])
  }

  /** Each field has its own word: the frame reads back from its words unchanged. */
  lemma FrameLayout(tf: TrapFrame)
    ensures FrameOfWords(FrameWords(tf)) == tf
    ensures |FrameWords(tf)| * 8 == 176
  {
  }

  /** The number of vector stubs (`vector0` ... `vector39`). */
  const STUB_COUNT: nat := 20

  /** The vector numbers for which a stub `vectorN` is declared, in declaration order. */
  const StubVectors: seq<u8> := [0, 1, 2, 3, 4, 5, 6, 7, 8, 10, 11, 12, 13, 14, 16, 17, 18, 19, 32, 39]

  /** The vector of the n-th declared stub. */
  function StubVector(n: nat): (v: u8)
    requires n < STUB_COUNT
  {
    if n <= 8 then n else if n <= 13 then n + 1 else if n <= 17 then n + 2 else if n == 18 then 32 else 39
  }

  /** The populated slots: the fixed exception vectors 0-8, 10-14 and 16-19, the timer (32) and IRQ7 (39). */
  predicate IsStubVector(v: int)
  {
    0 <= v <= 8 || 10 <= v <= 14 || 16 <= v <= 19 || v == 32 || v == 39
  }

  /** The declaration position of the stub for populated vector v. */
  function StubPosition(v: int): (n: nat)
    requires IsStubVector(v)
    ensures n < STUB_COUNT && StubVector(n) == v
  {
    if v <= 8 then v else if v <= 14 then v - 1 else if v <= 19 then v - 2 else if v == 32 then 18 else 19
  }

  /** The stub declared at position n sits in a populated slot, and that slot's position is n. */
  lemma StubVectorPosition(n: nat)
    requires n < STUB_COUNT
    ensures IsStubVector(StubVector(n)) && StubPosition(StubVector(n)) == n
  {
  }

  /**
   * The declaration list, entry by entry, and its properties: the stubs are
   * declared in strictly increasing vector order (so no vector has two), each
   * sits in a populated slot, and each stub's position is the one StubPosition gives.
   */
  lemma StubVectorsAreThePopulatedSlots()
    ensures |StubVectors| == STUB_COUNT
    ensures forall n :: 0 <= n < STUB_COUNT ==> StubVectors[n] == StubVector(n)
    ensures forall m, n :: 0 <= m < n < STUB_COUNT ==> StubVector(m) < StubVector(n)
    ensures forall n :: 0 <= n < STUB_COUNT ==> IsStubVector(StubVector(n)) && StubPosition(StubVector(n)) == n
  {
  }
}
