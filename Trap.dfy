/**
 * Building and installing the interrupt descriptor table, and the trap
 * dispatcher that the vector stubs call.
 *
 * The table is the static 256-slot array `vectors`, zero at start-up; a slot
 * is filled as an IA-32e interrupt gate (Intel SDM Vol. 3A, section 6.14.1),
 * and the `lidt` operand holds the table size in bytes minus one (section 6.10).
 */
module Trap {
  import opened Machine
  import opened TrapTypes

  const IDT_SLOTS: nat := 256
  /** Selector of the kernel code segment: GDT entry 1. */
  const KERNEL_CODE_SELECTOR: u16 := 8
  /** Present, descriptor privilege level 0, 64-bit interrupt gate. */
  const INTERRUPT_GATE: u8 := 0x8E
  /** `sizeof(vectors) - 1`. */
  const IDT_LIMIT: u16 := 256 * 16 - 1

  /** The 64-bit handler offset the processor reassembles from a gate's three offset fields. */
  function GateAddress(e: IdtEntry): nat
  {
    e.low + e.mid * TWO_16 + e.high * TWO_32
  }

  /** Splitting a 64-bit address into its 16/16/32-bit fields and reassembling them loses nothing. */
  lemma SplitAddress(addr: u64)
    ensures addr % TWO_16 + (addr / TWO_16) % TWO_16 * TWO_16 + (addr / TWO_32) % TWO_32 * TWO_32 == addr
  {
    var q := addr / TWO_16;
    assert addr == q * TWO_16 + addr % TWO_16;
    assert q == (q / TWO_16) * TWO_16 + q % TWO_16;
    assert q / TWO_16 == addr / TWO_32;
    assert addr / TWO_32 < TWO_32;
  }

  /**
   * What `init_idt_entry` leaves in a slot that held e: the three offset
   * fields of addr (truncating casts of addr, addr >> 16 and addr >> 32), the
   * kernel code selector and the attribute; the reserved fields are not written.
   */
  function SetGate(e: IdtEntry, addr: u64, attribute: u8): (r: IdtEntry)
    ensures r.low == addr % TWO_16 && r.mid == (addr / TWO_16) % TWO_16 && r.high == (addr / TWO_32) % TWO_32
    ensures GateAddress(r) == addr
    ensures r.selector == KERNEL_CODE_SELECTOR && r.attr == attribute
    ensures r.res0 == e.res0 && r.res1 == e.res1
  {
    SplitAddress(addr);
    e.(low := addr % TWO_16, selector := KERNEL_CODE_SELECTOR, attr := attribute,
       mid := (addr / TWO_16) % TWO_16, high := (addr / TWO_32) % TWO_32)
  }

  /** The address of the stub for populated vector v, given the addresses of the stubs in declaration order. */
  function StubAddress(stubs: seq<u64>, v: int): u64
    requires |stubs| == STUB_COUNT && IsStubVector(v)
  {
    stubs[StubPosition(v)]
  }

  /** The table `init_idt` leaves behind: a gate to its stub in every populated slot, zero elsewhere. */
  function InstalledTable(stubs: seq<u64>): (t: seq<IdtEntry>)
    requires |stubs| == STUB_COUNT
    ensures |t| == IDT_SLOTS
  {
    seq(IDT_SLOTS, i requires 0 <= i < IDT_SLOTS =>
      if IsStubVector(i) then SetGate(EmptyEntry, StubAddress(stubs, i), INTERRUPT_GATE) else EmptyEntry)
  }

  /**
   * Reading back the installed table: slot i is non-zero exactly when i has a
   * stub, and then it is a present ring-0 interrupt gate in the kernel code
   * segment whose reassembled offset is that stub's address.
   */
  lemma InstalledTableReadBack(stubs: seq<u64>, i: nat)
    requires |stubs| == STUB_COUNT && i < IDT_SLOTS
    ensures InstalledTable(stubs)[i] != EmptyEntry <==> IsStubVector(i)
    ensures IsStubVector(i) ==>
      var e := InstalledTable(stubs)[i];
      GateAddress(e) == StubAddress(stubs, i) && e.selector == 8 && e.attr == 0x8E && e.res0 == 0 && e.res1 == 0
  {
  }

  /** The reserved fields are zero everywhere and every slot without a stub is zero. */
  ghost predicate ValidTable(t: seq<IdtEntry>)
  {
    && |t| == IDT_SLOTS
    && (forall i :: 0 <= i < IDT_SLOTS ==> t[i].res0 == 0 && t[i].res1 == 0)
    && (forall i :: 0 <= i < IDT_SLOTS && !IsStubVector(i) ==> t[i] == EmptyEntry)
  }

  /** t after the first n `init_idt_entry` calls of `init_idt`, in their source order. */
  function Fill(t: seq<IdtEntry>, stubs: seq<u64>, n: nat): (r: seq<IdtEntry>)
    requires n <= STUB_COUNT == |stubs| && |t| == IDT_SLOTS
    ensures |r| == IDT_SLOTS
  {
    if n == 0 then t
    else
      var k := StubVector(n - 1) as int;
      var p := Fill(t, stubs, n - 1);
      p[k := SetGate(p[k], stubs[n - 1], INTERRUPT_GATE)]
  }

  /**
   * After n calls, each slot among the first n stub vectors has been written
   * exactly once, with its own stub's address, and every other slot is as it was.
   */
  lemma {:induction false} FillReadBack(t: seq<IdtEntry>, stubs: seq<u64>, n: nat, i: nat)
    requires n <= STUB_COUNT == |stubs| && |t| == IDT_SLOTS && i < IDT_SLOTS
    ensures Fill(t, stubs, n)[i] ==
      if IsStubVector(i) && StubPosition(i) < n then SetGate(t[i], StubAddress(stubs, i), INTERRUPT_GATE) else t[i]
  {
    if n > 0 {
      FillReadBack(t, stubs, n - 1, i);
      FillStep(Fill(t, stubs, n - 1), t, stubs, n, i);
    }
  }

  /** The nth call writes slot StubVector(n - 1) and no other. */
  lemma FillStep(p: seq<IdtEntry>, t: seq<IdtEntry>, stubs: seq<u64>, n: nat, i: nat)
    requires 0 < n <= STUB_COUNT == |stubs| && |t| == |p| == IDT_SLOTS && i < IDT_SLOTS
    requires p[i] == if IsStubVector(i) && StubPosition(i) < n - 1 then SetGate(t[i], StubAddress(stubs, i), INTERRUPT_GATE) else t[i]
    ensures var k := StubVector(n - 1) as int;
      p[k := SetGate(p[k], stubs[n - 1], INTERRUPT_GATE)][i] ==
      if IsStubVector(i) && StubPosition(i) < n then SetGate(t[i], StubAddress(stubs, i), INTERRUPT_GATE) else t[i]
  {
    var k := StubVector(n - 1) as int;
    StubVectorPosition(n - 1);
    if i != k && IsStubVector(i) {
      assert StubPosition(i) != n - 1;
    }
  }

  /** The installed table keeps the reserved fields zero and leaves every slot without a stub zero. */
  lemma InstalledTableIsValid(stubs: seq<u64>)
    requires |stubs| == STUB_COUNT
    ensures ValidTable(InstalledTable(stubs))
  {
  }

  /**
   * Filling every stub slot of a valid table gives the installed table, whatever
   * the slots held: every field but the reserved ones is overwritten.
   */
  lemma FillIsInstalled(t: seq<IdtEntry>, stubs: seq<u64>)
    requires ValidTable(t) && |stubs| == STUB_COUNT
    ensures Fill(t, stubs, STUB_COUNT) == InstalledTable(stubs)
  {
    forall i | 0 <= i < IDT_SLOTS
      ensures Fill(t, stubs, STUB_COUNT)[i] == InstalledTable(stubs)[i]
    {
      FillReadBack(t, stubs, STUB_COUNT, i);
    }
  }

  /** One call of the routine that executes `lidt`: the operand, and the table as it was at that moment. */
  datatype IdtLoad = IdtLoad(pointer: IdtPtr, table: seq<IdtEntry>)

  /** The static table `vectors`, the static operand `idt_pointer`, and the record of `lidt` executions. */
  class Idt {
    var vectors: array<IdtEntry>
    var pointer: IdtPtr
    /** The linear address of `vectors`, fixed at link time. */
    const tableAddr: u64
    var loads: seq<IdtLoad>

    /** The reserved fields are never written, and only populated slots are ever written. */
    ghost predicate Valid()
      reads this, vectors
    {
      vectors.Length == IDT_SLOTS && ValidTable(vectors[..])
    }

    /** The zero-initialised static storage, placed at tableAddr. */
    constructor (tableAddr: u64)
      ensures Valid() && fresh(vectors)
      ensures vectors[..] == seq(IDT_SLOTS, _ => EmptyEntry)
      ensures pointer == IdtPtr(0, 0) && this.tableAddr == tableAddr && loads == []
    {
      vectors := new IdtEntry[IDT_SLOTS](_ => EmptyEntry);
      pointer := IdtPtr(0, 0);
      this.tableAddr := tableAddr;
      loads := [];
    }

    /** `init_idt_entry(&vectors[k], addr, attribute)`: stores the gate fields one by one. */
    method InitIdtEntry(k: nat, addr: u64, attribute: u8)
      requires k < vectors.Length
      modifies vectors
      ensures vectors[..] == old(vectors[..])[k := SetGate(old(vectors[k]), addr, attribute)]
    {
      vectors[k] := vectors[k].(low := addr % TWO_16);
      vectors[k] := vectors[k].(selector := KERNEL_CODE_SELECTOR);
      vectors[k] := vectors[k].(attr := attribute);
      vectors[k] := vectors[k].(mid := (addr / TWO_16) % TWO_16);
      vectors[k] := vectors[k].(high := (addr / TWO_32) % TWO_32);
    }

    /** `load_idt(&idt_pointer)`: the assembly routine that executes `lidt`, recorded with what it sees. */
    method LoadIdt()
      modifies this`loads
      ensures loads == old(loads) + [IdtLoad(pointer, vectors[..])]
    {
      loads := loads + [IdtLoad(pointer, vectors[..])];
    }

    /**
     * `init_idt`: writes the twenty populated slots (each with its stub's
     * address and attribute 0x8E), sets the limit to 4095 and the base to the
     * table, then executes `lidt` exactly once, after the last slot is written.
     * The result does not depend on the previous contents, so a second call
     * changes nothing.
     */
    method InitIdt(stubs: seq<u64>)
      requires Valid() && |stubs| == STUB_COUNT
      modifies this, vectors
      ensures Valid() && vectors == old(vectors)
      ensures vectors[..] == InstalledTable(stubs)
      ensures pointer == IdtPtr(IDT_LIMIT, tableAddr)
      ensures loads == old(loads) + [IdtLoad(pointer, vectors[..])]
    {
      ghost var t0 := vectors[..];
      InitIdtEntry(0, stubs[0], INTERRUPT_GATE);
      assert vectors[..] == Fill(t0, stubs, 1);
      InitIdtEntry(1, stubs[1], INTERRUPT_GATE);
      assert vectors[..] == Fill(t0, stubs, 2);
      InitIdtEntry(2, stubs[2], INTERRUPT_GATE);
      assert vectors[..] == Fill(t0, stubs, 3);
      InitIdtEntry(3, stubs[3], INTERRUPT_GATE);
      assert vectors[..] == Fill(t0, stubs, 4);
      InitIdtEntry(4, stubs[4], INTERRUPT_GATE);
      assert vectors[..] == Fill(t0, stubs, 5);
      InitIdtEntry(5, stubs[5], INTERRUPT_GATE);
      assert vectors[..] == Fill(t0, stubs, 6);
      InitIdtEntry(6, stubs[6], INTERRUPT_GATE);
      assert vectors[..] == Fill(t0, stubs, 7);
      InitIdtEntry(7, stubs[7], INTERRUPT_GATE);
      assert vectors[..] == Fill(t0, stubs, 8);
      InitIdtEntry(8, stubs[8], INTERRUPT_GATE);
      assert vectors[..] == Fill(t0, stubs, 9);
      InitIdtEntry(10, stubs[9], INTERRUPT_GATE);
      assert vectors[..] == Fill(t0, stubs, 10);
      InitIdtEntry(11, stubs[10], INTERRUPT_GATE);
      assert vectors[..] == Fill(t0, stubs, 11);
      InitIdtEntry(12, stubs[11], INTERRUPT_GATE);
      assert vectors[..] == Fill(t0, stubs, 12);
      InitIdtEntry(13, stubs[12], INTERRUPT_GATE);
      assert vectors[..] == Fill(t0, stubs, 13);
      InitIdtEntry(14, stubs[13], INTERRUPT_GATE);
      assert vectors[..] == Fill(t0, stubs, 14);
      InitIdtEntry(16, stubs[14], INTERRUPT_GATE);
      assert vectors[..] == Fill(t0, stubs, 15);
      InitIdtEntry(17, stubs[15], INTERRUPT_GATE);
      assert vectors[..] == Fill(t0, stubs, 16);
      InitIdtEntry(18, stubs[16], INTERRUPT_GATE);
      assert vectors[..] == Fill(t0, stubs, 17);
      InitIdtEntry(19, stubs[17], INTERRUPT_GATE);
      assert vectors[..] == Fill(t0, stubs, 18);
      InitIdtEntry(32, stubs[18], INTERRUPT_GATE);
      assert vectors[..] == Fill(t0, stubs, 19);
      InitIdtEntry(39, stubs[19], INTERRUPT_GATE);
      assert vectors[..] == Fill(t0, stubs, 20);
      FillIsInstalled(t0, stubs);
      InstalledTableIsValid(stubs);

      pointer := pointer.(limit := IDT_LIMIT);
      pointer := pointer.(addr := tableAddr);
      LoadIdt();
    }
  }

  /** Calling `init_idt` a second time leaves the table and the pointer exactly as the first call did. */
  method InitIdtTwice(idt: Idt, stubs: seq<u64>)
    requires idt.Valid() && |stubs| == STUB_COUNT
    modifies idt, idt.vectors
    ensures idt.vectors[..] == InstalledTable(stubs) && idt.pointer == IdtPtr(IDT_LIMIT, idt.tableAddr)
    ensures |idt.loads| == |old(idt.loads)| + 2 && idt.loads[|idt.loads| - 1] == idt.loads[|idt.loads| - 2]
  {
    idt.InitIdt(stubs);
    ghost var once := (idt.vectors[..], idt.pointer);
    idt.InitIdt(stubs);
    assert (idt.vectors[..], idt.pointer) == once;
  }

  /** A side effect of the dispatcher on the 8259A interrupt controller. */
  datatype PicAccess =
    | Eoi      // end-of-interrupt command
    | ReadIsr  // in-service register read through OCW3

  /**
   * How a call of `handler` ends: it returns after its controller accesses,
   * or it spins forever in its default branch, with no access and no output.
   */
  datatype Dispatch = Returned(accesses: seq<PicAccess>) | Spin

  function CountOf(accesses: seq<PicAccess>, a: PicAccess): (n: nat)
    ensures n <= |accesses|
  {
    if accesses == [] then 0 else (if accesses[0] == a then 1 else 0) + CountOf(accesses[1..], a)
  }

  /** The test `(isr_value & (1 << 7)) != 0` on the byte `read_isr` returns. */
  predicate Irq7InService(isr: u8)
  {
    (isr as bv8) & (1 << 7) != 0
  }

  /** IRQ7 is in service exactly when the top bit of the in-service byte is set. */
  lemma Irq7InServiceIsTopBit(isr: u8)
    ensures Irq7InService(isr) <==> isr >= 128
  {
  }

  /**
   * `handler(tf)`: the timer (vector 32) gets one EOI; IRQ7 (vector 39) reads
   * the in-service register once and gets an EOI only if IRQ7 is really in
   * service (a spurious IRQ7 must not be acknowledged); every other vector
   * spins. isr is what `read_isr` would return.
   */
  function Handler(tf: TrapFrame, isr: u8): (r: Dispatch)
    ensures r.Returned? <==> tf.trapno == 32 || tf.trapno == 39
    ensures tf.trapno == 32 ==> r.accesses == [Eoi]
    ensures tf.trapno == 39 ==>
      CountOf(r.accesses, ReadIsr) == 1 && r.accesses[0] == ReadIsr
      && CountOf(r.accesses, Eoi) == (if isr >= 128 then 1 else 0)
  {
    Irq7InServiceIsTopBit(isr);
    if tf.trapno == 32 then
      Returned([Eoi])
    else if tf.trapno == 39 then
      Returned([ReadIsr] + (if Irq7InService(isr) then [Eoi] else []))
    else
      Spin
  }
}
