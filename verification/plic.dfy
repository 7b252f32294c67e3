/**
  The JH7110 interrupt-controller driver: boot initialisation of the RISC-V
  Platform-Level Interrupt Controller (PLIC), enabling and disabling one
  interrupt line, and turning on interrupt delivery at the CPU.

  The kernel numbers every interrupt in one space. Lines below
  `RISCV_IRQ_EXT` are CPU-local (software, timer) and are switched in the
  `sie` control-and-status register; line `RISCV_IRQ_EXT + n` is PLIC source
  `n`, switched by bit `n % 32` of enable word `n / 32`.
*/
module Plic {
  import opened Mmio
  import opened Bits

  // Kernel interrupt numbers for a supervisor-mode RISC-V kernel: the
  // interrupt causes start at 16, and software, timer and external
  // interrupts are causes 1, 5 and 9 of the RISC-V privileged architecture.
  const RISCV_IRQ_ASYNC: int := 16
  const RISCV_IRQ_SOFT: int := RISCV_IRQ_ASYNC + 1
  const RISCV_IRQ_TIMER: int := RISCV_IRQ_ASYNC + 5
  const RISCV_IRQ_EXT: int := RISCV_IRQ_ASYNC + 9

  /** Number of kernel interrupt numbers; initialisation sets a priority for ids 1..NR_IRQS. */
  const NR_IRQS: int := RISCV_IRQ_EXT + 127

  /** The highest external line the two enable words cover. */
  const MAX_EXTIRQ: int := 63

  // PLIC registers of hart 0's supervisor context (context 1 of the PLIC layout).
  const PLIC_BASE: int := 0xe000_0000
  const PLIC_PRIORITY: int := PLIC_BASE
  const PLIC_ENABLE1: int := PLIC_BASE + 0x2080
  const PLIC_ENABLE2: int := PLIC_BASE + 0x2084
  const PLIC_THRESHOLD: int := PLIC_BASE + 0x20_1000
  const PLIC_CLAIM: int := PLIC_BASE + 0x20_1004

  // Bits of the sie and sstatus control-and-status registers.
  const IE_SIE: bv64 := 0x2       // supervisor software interrupt enable
  const IE_TIE: bv64 := 0x20      // supervisor timer interrupt enable
  const IE_EIE: bv64 := 0x200     // supervisor external interrupt enable
  const STATUS_IE: bv64 := 0x2    // sstatus.SIE: global interrupt enable

  /** The state the driver acts on: the two CSRs and the memory-mapped registers. */
  datatype Hart = Hart(ie: bv64, status: bv64, mmio: RegFile)

  /** What enabling or disabling a line does: a new state and its bus trace, or a halt. */
  datatype IrqOutcome = Done(hart: Hart, bus: seq<Access>) | Panic

  /** A CSR update that also returns the previous `sstatus`. */
  datatype Saved = Saved(hart: Hart, previous: bv64)

  datatype InitOutcome = InitOutcome(hart: Hart, bus: seq<Access>)

  predicate IsExtLine(e: int) {
    0 <= e <= MAX_EXTIRQ
  }

  /** The enable word holding external line `e`. */
  function EnableWord(e: int): int
    requires IsExtLine(e)
  {
    PLIC_ENABLE1 + 4 * (e / 32)
  }

  /** The bit of `EnableWord(e)` that enables line `e`. */
  function EnableBit(e: int): bv32
    requires IsExtLine(e)
  {
    Bit32(BitIndex(e % 32))
  }

  predicate LineEnabled(rf: RegFile, e: int)
    requires IsExtLine(e)
  {
    Has32(Get(rf, EnableWord(e)), EnableBit(e))
  }

  predicate IsPriorityReg(a: int) {
    PLIC_PRIORITY + 4 <= a <= PLIC_PRIORITY + 4 * NR_IRQS && (a - PLIC_PRIORITY) % 4 == 0
  }

  /** Applies a register program to the hart's memory-mapped registers. */
  function Perform(h: Hart, ops: seq<Op>): IrqOutcome {
    Done(h.(mmio := After(h.mmio, ops)), Run(h.mmio, ops))
  }

  /** up_disable_irq */
  function DisableIrq(h: Hart, irq: int): (r: IrqOutcome)
    ensures r.Panic? <==> irq > RISCV_IRQ_EXT + MAX_EXTIRQ
    ensures r.Done? && irq <= RISCV_IRQ_EXT ==> r.bus == [] && r.hart.mmio == h.mmio && r.hart.status == h.status
    ensures irq <= RISCV_IRQ_EXT && irq != RISCV_IRQ_SOFT && irq != RISCV_IRQ_TIMER ==> r == Done(h, [])
    ensures r.Done? && irq > RISCV_IRQ_EXT ==> r.hart.ie == h.ie && r.hart.status == h.status
  {
    if irq == RISCV_IRQ_SOFT then Done(h.(ie := Clear64(h.ie, IE_SIE)), [])
    else if irq == RISCV_IRQ_TIMER then Done(h.(ie := Clear64(h.ie, IE_TIE)), [])
    else if irq > RISCV_IRQ_EXT then
      var extirq := irq - RISCV_IRQ_EXT;
      if 0 <= extirq <= MAX_EXTIRQ then
        Perform(h, [ModifyReg32(EnableWord(extirq), EnableBit(extirq), 0)])
      else
        Panic
    else
      Done(h, [])
  }

  /** up_enable_irq */
  function EnableIrq(h: Hart, irq: int): (r: IrqOutcome)
    ensures r.Panic? <==> irq > RISCV_IRQ_EXT + MAX_EXTIRQ
    ensures r.Done? && irq <= RISCV_IRQ_EXT ==> r.bus == [] && r.hart.mmio == h.mmio && r.hart.status == h.status
    ensures irq <= RISCV_IRQ_EXT && irq != RISCV_IRQ_SOFT && irq != RISCV_IRQ_TIMER ==> r == Done(h, [])
    ensures r.Done? && irq > RISCV_IRQ_EXT ==> r.hart.ie == h.ie && r.hart.status == h.status
  {
    if irq == RISCV_IRQ_SOFT then Done(h.(ie := Set64(h.ie, IE_SIE)), [])
    else if irq == RISCV_IRQ_TIMER then Done(h.(ie := Set64(h.ie, IE_TIE)), [])
    else if irq > RISCV_IRQ_EXT then
      var extirq := irq - RISCV_IRQ_EXT;
      if 0 <= extirq <= MAX_EXTIRQ then
        Perform(h, [ModifyReg32(EnableWord(extirq), 0, EnableBit(extirq))])
      else
        Panic
    else
      Done(h, [])
  }

  /** The CSR bit a CPU-local line is switched by. */
  function LocalBit(irq: int): bv64
    requires irq == RISCV_IRQ_SOFT || irq == RISCV_IRQ_TIMER
  {
    if irq == RISCV_IRQ_SOFT then IE_SIE else IE_TIE
  }

  /** Enabling the software or timer line sets only its `sie` bit. */
  lemma EnableLocal(h: Hart, irq: int)
    requires irq == RISCV_IRQ_SOFT || irq == RISCV_IRQ_TIMER
    ensures EnableIrq(h, irq).Done?
    ensures Has64(EnableIrq(h, irq).hart.ie, LocalBit(irq))
    ensures Clear64(EnableIrq(h, irq).hart.ie, LocalBit(irq)) == Clear64(h.ie, LocalBit(irq))
  {
    if irq == RISCV_IRQ_SOFT {
      HasSet64(h.ie, IE_SIE);
      SetKeeps64(h.ie, IE_SIE);
    } else {
      HasSet64(h.ie, IE_TIE);
      SetKeeps64(h.ie, IE_TIE);
    }
  }

  /** Disabling the software or timer line clears only its `sie` bit. */
  lemma DisableLocal(h: Hart, irq: int)
    requires irq == RISCV_IRQ_SOFT || irq == RISCV_IRQ_TIMER
    ensures DisableIrq(h, irq).Done?
    ensures !Has64(DisableIrq(h, irq).hart.ie, LocalBit(irq))
    ensures Clear64(DisableIrq(h, irq).hart.ie, LocalBit(irq)) == Clear64(h.ie, LocalBit(irq))
  {
    if irq == RISCV_IRQ_SOFT {
      HasClear64(h.ie, IE_SIE);
      ClearKeeps64(h.ie, IE_SIE);
    } else {
      HasClear64(h.ie, IE_TIE);
      ClearKeeps64(h.ie, IE_TIE);
    }
  }

  /** Two different external lines either live in different words or at different bits. */
  lemma LinesApart(e: int, e': int)
    requires IsExtLine(e) && IsExtLine(e') && e != e'
    ensures EnableWord(e) == EnableWord(e') ==> Disjoint32(EnableBit(e), EnableBit(e'))
  {
    if EnableWord(e) == EnableWord(e') {
      BitIndexInjective(e % 32, e' % 32);
      DistinctBits32(BitIndex(e % 32), BitIndex(e' % 32));
    }
  }

  /** The register file with line `e`'s enable bit set. */
  function SetLine(rf: RegFile, e: int): RegFile
    requires IsExtLine(e)
  {
    rf[EnableWord(e) := Set32(Get(rf, EnableWord(e)), EnableBit(e))]
  }

  /** The register file with line `e`'s enable bit cleared. */
  function ClearLine(rf: RegFile, e: int): RegFile
    requires IsExtLine(e)
  {
    rf[EnableWord(e) := Clear32(Get(rf, EnableWord(e)), EnableBit(e))]
  }

  /** Enabling external line `e` is one read-modify-write that sets its bit in its enable word. */
  lemma EnableShape(h: Hart, irq: int)
    requires RISCV_IRQ_EXT < irq <= RISCV_IRQ_EXT + MAX_EXTIRQ
    ensures var e := irq - RISCV_IRQ_EXT;
      var w := EnableWord(e);
      EnableIrq(h, irq) == Done(h.(mmio := SetLine(h.mmio, e)),
                                [Load(w, Get(h.mmio, w)), Store(w, Get(SetLine(h.mmio, e), w))])
  {
    var e := irq - RISCV_IRQ_EXT;
    AfterOne(h.mmio, ModifyReg32(EnableWord(e), 0, EnableBit(e)));
    ClearNothing32(Get(h.mmio, EnableWord(e)));
  }

  /** Disabling external line `e` is one read-modify-write that clears its bit in its enable word. */
  lemma DisableShape(h: Hart, irq: int)
    requires RISCV_IRQ_EXT < irq <= RISCV_IRQ_EXT + MAX_EXTIRQ
    ensures var e := irq - RISCV_IRQ_EXT;
      var w := EnableWord(e);
      DisableIrq(h, irq) == Done(h.(mmio := ClearLine(h.mmio, e)),
                                 [Load(w, Get(h.mmio, w)), Store(w, Get(ClearLine(h.mmio, e), w))])
  {
    var e := irq - RISCV_IRQ_EXT;
    AfterOne(h.mmio, ModifyReg32(EnableWord(e), EnableBit(e), 0));
    SetNothing32(Clear32(Get(h.mmio, EnableWord(e)), EnableBit(e)));
  }

  lemma SetLineEnables(rf: RegFile, e: int)
    requires IsExtLine(e)
    ensures LineEnabled(SetLine(rf, e), e)
  {
    GetStored(rf, EnableWord(e), Set32(Get(rf, EnableWord(e)), EnableBit(e)));
    BitNonZero32(BitIndex(e % 32));
    HasSet32(Get(rf, EnableWord(e)), EnableBit(e));
  }

  lemma ClearLineDisables(rf: RegFile, e: int)
    requires IsExtLine(e)
    ensures !LineEnabled(ClearLine(rf, e), e)
  {
    GetStored(rf, EnableWord(e), Clear32(Get(rf, EnableWord(e)), EnableBit(e)));
    HasClear32(Get(rf, EnableWord(e)), EnableBit(e));
  }

  lemma SetLineKeepsOthers(rf: RegFile, e: int, e': int)
    requires IsExtLine(e) && IsExtLine(e') && e != e'
    ensures LineEnabled(SetLine(rf, e), e') == LineEnabled(rf, e')
  {
    LinesApart(e, e');
    SetWordKeeps(rf, EnableWord(e), EnableBit(e), EnableWord(e'), EnableBit(e'));
  }

  lemma ClearLineKeepsOthers(rf: RegFile, e: int, e': int)
    requires IsExtLine(e) && IsExtLine(e') && e != e'
    ensures LineEnabled(ClearLine(rf, e), e') == LineEnabled(rf, e')
  {
    LinesApart(e, e');
    ClearWordKeeps(rf, EnableWord(e), EnableBit(e), EnableWord(e'), EnableBit(e'));
  }

  /** Setting bits `m` of word `w` leaves bits `c` of word `w'` alone when the two do not overlap. */
  lemma SetWordKeeps(rf: RegFile, w: int, m: bv32, w': int, c: bv32)
    requires w == w' ==> Disjoint32(m, c)
    ensures Has32(Get(rf[w := Set32(Get(rf, w), m)], w'), c) == Has32(Get(rf, w'), c)
  {
    if w == w' {
      GetStored(rf, w, Set32(Get(rf, w), m));
      HasKeepsSet32(Get(rf, w), m, c);
    } else {
      GetOther(rf, w, Set32(Get(rf, w), m), w');
    }
  }

  /** Clearing bits `m` of word `w` leaves bits `c` of word `w'` alone when the two do not overlap. */
  lemma ClearWordKeeps(rf: RegFile, w: int, m: bv32, w': int, c: bv32)
    requires w == w' ==> Disjoint32(m, c)
    ensures Has32(Get(rf[w := Clear32(Get(rf, w), m)], w'), c) == Has32(Get(rf, w'), c)
  {
    if w == w' {
      GetStored(rf, w, Clear32(Get(rf, w), m));
      HasKeepsClear32(Get(rf, w), m, c);
    } else {
      GetOther(rf, w, Clear32(Get(rf, w), m), w');
    }
  }

  /** Two register files that read the same at every address. */
  ghost predicate SameRegs(rf: RegFile, rf': RegFile) {
    forall a :: Get(rf, a) == Get(rf', a)
  }

  lemma SetThenClearLine(rf: RegFile, e: int)
    requires IsExtLine(e) && !LineEnabled(rf, e)
    ensures SameRegs(ClearLine(SetLine(rf, e), e), rf)
  {
    var w := EnableWord(e);
    GetStored(rf, w, Set32(Get(rf, w), EnableBit(e)));
    SetThenClearBit32(Get(rf, w), BitIndex(e % 32));
    RestoreWord(rf, w, Set32(Get(rf, w), EnableBit(e)));
  }

  lemma ClearThenSetLine(rf: RegFile, e: int)
    requires IsExtLine(e) && LineEnabled(rf, e)
    ensures SameRegs(SetLine(ClearLine(rf, e), e), rf)
  {
    var w := EnableWord(e);
    GetStored(rf, w, Clear32(Get(rf, w), EnableBit(e)));
    ClearThenSetBit32(Get(rf, w), BitIndex(e % 32));
    RestoreWord(rf, w, Clear32(Get(rf, w), EnableBit(e)));
  }

  /** Overwriting a register and then putting its old value back leaves every register as it was. */
  lemma RestoreWord(rf: RegFile, w: int, v: bv32)
    ensures SameRegs(rf[w := v][w := Get(rf, w)], rf)
  {}

  /**
    Enabling external line `e` turns it on with a single read-modify-write
    of its enable word, and no other register changes.
  */
  lemma EnableExternal(h: Hart, irq: int)
    requires RISCV_IRQ_EXT < irq <= RISCV_IRQ_EXT + MAX_EXTIRQ
    ensures var e := irq - RISCV_IRQ_EXT;
      var r := EnableIrq(h, irq);
      && r.Done?
      && LineEnabled(r.hart.mmio, e)
      && (forall a :: a != EnableWord(e) ==> Get(r.hart.mmio, a) == Get(h.mmio, a))
      && r.bus == [Load(EnableWord(e), Get(h.mmio, EnableWord(e))),
                   Store(EnableWord(e), Get(r.hart.mmio, EnableWord(e)))]
  {
    EnableShape(h, irq);
    SetLineEnables(h.mmio, irq - RISCV_IRQ_EXT);
  }

  /** Enabling external line `e` leaves every other external line as it was. */
  lemma EnableKeepsOtherLines(h: Hart, irq: int, e': int)
    requires RISCV_IRQ_EXT < irq <= RISCV_IRQ_EXT + MAX_EXTIRQ
    requires IsExtLine(e') && e' != irq - RISCV_IRQ_EXT
    ensures EnableIrq(h, irq).Done?
    ensures LineEnabled(EnableIrq(h, irq).hart.mmio, e') == LineEnabled(h.mmio, e')
  {
    EnableShape(h, irq);
    SetLineKeepsOthers(h.mmio, irq - RISCV_IRQ_EXT, e');
  }

  /**
    Disabling external line `e` turns it off with a single read-modify-write
    of its enable word, and no other register changes.
  */
  lemma DisableExternal(h: Hart, irq: int)
    requires RISCV_IRQ_EXT < irq <= RISCV_IRQ_EXT + MAX_EXTIRQ
    ensures var e := irq - RISCV_IRQ_EXT;
      var r := DisableIrq(h, irq);
      && r.Done?
      && !LineEnabled(r.hart.mmio, e)
      && (forall a :: a != EnableWord(e) ==> Get(r.hart.mmio, a) == Get(h.mmio, a))
      && r.bus == [Load(EnableWord(e), Get(h.mmio, EnableWord(e))),
                   Store(EnableWord(e), Get(r.hart.mmio, EnableWord(e)))]
  {
    DisableShape(h, irq);
    ClearLineDisables(h.mmio, irq - RISCV_IRQ_EXT);
  }

  /** Disabling external line `e` leaves every other external line as it was. */
  lemma DisableKeepsOtherLines(h: Hart, irq: int, e': int)
    requires RISCV_IRQ_EXT < irq <= RISCV_IRQ_EXT + MAX_EXTIRQ
    requires IsExtLine(e') && e' != irq - RISCV_IRQ_EXT
    ensures DisableIrq(h, irq).Done?
    ensures LineEnabled(DisableIrq(h, irq).hart.mmio, e') == LineEnabled(h.mmio, e')
  {
    DisableShape(h, irq);
    ClearLineKeepsOthers(h.mmio, irq - RISCV_IRQ_EXT, e');
  }

  /** Enabling a line that was disabled and then disabling it restores every register. */
  lemma EnableThenDisable(h: Hart, irq: int)
    requires RISCV_IRQ_EXT < irq <= RISCV_IRQ_EXT + MAX_EXTIRQ
    requires !LineEnabled(h.mmio, irq - RISCV_IRQ_EXT)
    ensures EnableIrq(h, irq).Done?
    ensures DisableIrq(EnableIrq(h, irq).hart, irq).Done?
    ensures SameRegs(DisableIrq(EnableIrq(h, irq).hart, irq).hart.mmio, h.mmio)
    ensures DisableIrq(EnableIrq(h, irq).hart, irq).hart.ie == h.ie
    ensures DisableIrq(EnableIrq(h, irq).hart, irq).hart.status == h.status
  {
    EnableShape(h, irq);
    DisableShape(EnableIrq(h, irq).hart, irq);
    SetThenClearLine(h.mmio, irq - RISCV_IRQ_EXT);
  }

  /** Disabling a line that was enabled and then enabling it restores every register. */
  lemma DisableThenEnable(h: Hart, irq: int)
    requires RISCV_IRQ_EXT < irq <= RISCV_IRQ_EXT + MAX_EXTIRQ
    requires LineEnabled(h.mmio, irq - RISCV_IRQ_EXT)
    ensures DisableIrq(h, irq).Done?
    ensures EnableIrq(DisableIrq(h, irq).hart, irq).Done?
    ensures SameRegs(EnableIrq(DisableIrq(h, irq).hart, irq).hart.mmio, h.mmio)
    ensures EnableIrq(DisableIrq(h, irq).hart, irq).hart.ie == h.ie
    ensures EnableIrq(DisableIrq(h, irq).hart, irq).hart.status == h.status
  {
    DisableShape(h, irq);
    EnableShape(DisableIrq(h, irq).hart, irq);
    ClearThenSetLine(h.mmio, irq - RISCV_IRQ_EXT);
  }

  /** up_irq_save: clear the global interrupt enable and return the previous `sstatus`. */
  function IrqSave(h: Hart): (r: Saved)
    ensures r.previous == h.status
    ensures r.hart.ie == h.ie && r.hart.mmio == h.mmio
    ensures !Has64(r.hart.status, STATUS_IE)
  {
    HasClear64(h.status, STATUS_IE);
    Saved(h.(status := Clear64(h.status, STATUS_IE)), h.status)
  }

  /** up_irq_enable */
  function IrqEnable(h: Hart): (r: Saved)
    ensures r.previous == h.status
    ensures r.hart.mmio == h.mmio
    ensures Has64(r.hart.ie, IE_EIE) && Has64(r.hart.status, STATUS_IE)
  {
    HasSet64(h.ie, IE_EIE);
    HasSet64(h.status, STATUS_IE);
    Saved(h.(ie := Set64(h.ie, IE_EIE), status := Set64(h.status, STATUS_IE)), h.status)
  }

  /**
    up_irq_enable turns on external interrupts in `sie` and the global enable
    in `sstatus`, changes no other bit, and returns the `sstatus` it found.
  */
  lemma IrqEnableSetsOnlyItsBits(h: Hart)
    ensures IrqEnable(h).previous == h.status
    ensures Has64(IrqEnable(h).hart.ie, IE_EIE)
    ensures Clear64(IrqEnable(h).hart.ie, IE_EIE) == Clear64(h.ie, IE_EIE)
    ensures Has64(IrqEnable(h).hart.status, STATUS_IE)
    ensures Clear64(IrqEnable(h).hart.status, STATUS_IE) == Clear64(h.status, STATUS_IE)
  {
    HasSet64(h.ie, IE_EIE);
    SetKeeps64(h.ie, IE_EIE);
    HasSet64(h.status, STATUS_IE);
    SetKeeps64(h.status, STATUS_IE);
  }

  // The register program of up_irqinitialize, in four parts.

  /** Disable every external line. */
  function DisableAllOps(): seq<Op> {
    [Put(PLIC_ENABLE1, 0), Put(PLIC_ENABLE2, 0)]
  }

  /** Drain a claim left over from before the boot: read it and write it straight back. */
  function DrainClaimOps(claimed: bv32): seq<Op> {
    [Sample(PLIC_CLAIM, claimed), Put(PLIC_CLAIM, claimed)]
  }

  /** Priority 1 for ids `id`..NR_IRQS. */
  function PriorityOps(id: int): seq<Op>
    requires id >= 1
    decreases NR_IRQS + 1 - id
  {
    if id <= NR_IRQS then [Put(PLIC_PRIORITY + 4 * id, 1)] + PriorityOps(id + 1) else []
  }

  /** Threshold 0: every line of non-zero priority may interrupt. */
  function OpenThresholdOps(): seq<Op> {
    [Put(PLIC_THRESHOLD, 0)]
  }

  function InitOps(claimed: bv32): seq<Op> {
    DisableAllOps() + DrainClaimOps(claimed) + PriorityOps(1) + OpenThresholdOps()
  }

  /**
    up_irqinitialize: `claimed` is what the claim register answers when the
    driver drains it.
  */
  function IrqInitialize(h: Hart, claimed: bv32): InitOutcome {
    var quiet := IrqSave(h).hart;
    var programmed := quiet.(mmio := After(quiet.mmio, InitOps(claimed)));
    InitOutcome(IrqEnable(programmed).hart, Run(quiet.mmio, InitOps(claimed)))
  }

  lemma {:induction false} PriorityTouches(id: int)
    requires id >= 1
    ensures forall a :: a in Touches(PriorityOps(id)) ==>
      PLIC_PRIORITY + 4 * id <= a <= PLIC_PRIORITY + 4 * NR_IRQS && (a - PLIC_PRIORITY) % 4 == 0
    decreases NR_IRQS + 1 - id
  {
    if id <= NR_IRQS {
      var ops := PriorityOps(id);
      assert ops[1..] == PriorityOps(id + 1);
      PriorityTouches(id + 1);
    }
  }

  /** After the priority loop, every id from `id` to NR_IRQS has priority 1. */
  lemma {:induction false} PrioritiesSet(rf: RegFile, id: int)
    requires id >= 1
    ensures forall j :: id <= j <= NR_IRQS ==> Get(After(rf, PriorityOps(id)), PLIC_PRIORITY + 4 * j) == 1
    decreases NR_IRQS + 1 - id
  {
    if id <= NR_IRQS {
      var first := Put(PLIC_PRIORITY + 4 * id, 1);
      var rest := PriorityOps(id + 1);
      assert PriorityOps(id) == [first] + rest;
      AfterAppend(rf, [first], rest);
      var rf1 := After(rf, [first]);
      AfterOne(rf, first);
      PrioritiesSet(rf1, id + 1);
      PriorityTouches(id + 1);
      AfterFrame(rf1, rest, PLIC_PRIORITY + 4 * id);
    }
  }

  /** The priority loop never touches the claim register. */
  lemma {:induction false} PrioritiesSkipClaim(rf: RegFile, id: int)
    requires id >= 1
    ensures On(Run(rf, PriorityOps(id)), PLIC_CLAIM) == []
    decreases NR_IRQS + 1 - id
  {
    if id <= NR_IRQS {
      var ops := PriorityOps(id);
      var first := Put(PLIC_PRIORITY + 4 * id, 1);
      assert ops[0] == first;
      assert ops[1..] == PriorityOps(id + 1);
      var rf1 := Replay(rf, Exec(rf, first));
      assert Run(rf, ops) == [Store(PLIC_PRIORITY + 4 * id, 1)] + Run(rf1, PriorityOps(id + 1));
      PrioritiesSkipClaim(rf1, id + 1);
      OnAppend([Store(PLIC_PRIORITY + 4 * id, 1)], Run(rf1, PriorityOps(id + 1)), PLIC_CLAIM);
    }
  }

  /** The register file after initialisation, stage by stage. */
  lemma InitStagesAfter(rf: RegFile, claimed: bv32)
    ensures After(rf, InitOps(claimed)) ==
      After(After(After(After(rf, DisableAllOps()), DrainClaimOps(claimed)), PriorityOps(1)), OpenThresholdOps())
  {
    var d := DisableAllOps();
    var c := DrainClaimOps(claimed);
    var p := PriorityOps(1);
    AfterAppend(rf, d + c + p, OpenThresholdOps());
    AfterAppend(rf, d + c, p);
    AfterAppend(rf, d, c);
  }

  /** The bus trace of initialisation, stage by stage. */
  lemma InitStagesRun(rf: RegFile, claimed: bv32)
    ensures Run(rf, InitOps(claimed)) ==
      Run(rf, DisableAllOps())
      + Run(After(rf, DisableAllOps()), DrainClaimOps(claimed))
      + Run(After(After(rf, DisableAllOps()), DrainClaimOps(claimed)), PriorityOps(1))
      + Run(After(After(After(rf, DisableAllOps()), DrainClaimOps(claimed)), PriorityOps(1)), OpenThresholdOps())
  {
    var d := DisableAllOps();
    var c := DrainClaimOps(claimed);
    var p := PriorityOps(1);
    AfterAppend(rf, d, c);
    AfterAppend(rf, d + c, p);
    RunAppend(rf, d + c + p, OpenThresholdOps());
    RunAppend(rf, d + c, p);
    RunAppend(rf, d, c);
  }

  /** The first stage of initialisation zeroes both enable words. */
  lemma DisableAllZeroes(rf: RegFile)
    ensures Get(After(rf, DisableAllOps()), PLIC_ENABLE1) == 0
    ensures Get(After(rf, DisableAllOps()), PLIC_ENABLE2) == 0
  {
    var d := DisableAllOps();
    AfterAppend(rf, [d[0]], [d[1]]);
    assert d == [d[0]] + [d[1]];
    AfterOne(rf, d[0]);
    AfterOne(After(rf, [d[0]]), d[1]);
    TouchesOne(d[1]);
    AfterFrame(After(rf, [d[0]]), [d[1]], PLIC_ENABLE1);
  }

  /** The stages after the first never write an enable word. */
  lemma LaterStagesKeepEnables(rf1: RegFile, claimed: bv32, w: int)
    requires w == PLIC_ENABLE1 || w == PLIC_ENABLE2
    ensures var rf2 := After(rf1, DrainClaimOps(claimed));
      var rf3 := After(rf2, PriorityOps(1));
      Get(After(rf3, OpenThresholdOps()), w) == Get(rf1, w)
  {
    var c := DrainClaimOps(claimed);
    var t := OpenThresholdOps();
    var rf2 := After(rf1, c);
    var rf3 := After(rf2, PriorityOps(1));
    DrainClaimTouches(claimed);
    PriorityTouches(1);
    OpenThresholdTouches();
    AfterFrame(rf1, c, w);
    AfterFrame(rf2, PriorityOps(1), w);
    AfterFrame(rf3, t, w);
  }

  /** With both enable words zero, no external line is enabled. */
  lemma ZeroWordsNoLines(rf: RegFile)
    requires Get(rf, PLIC_ENABLE1) == 0 && Get(rf, PLIC_ENABLE2) == 0
    ensures forall e :: IsExtLine(e) ==> !LineEnabled(rf, e)
  {
    forall e | IsExtLine(e)
      ensures !LineEnabled(rf, e)
    {
      assert EnableWord(e) == PLIC_ENABLE1 || EnableWord(e) == PLIC_ENABLE2;
      HasNothing32(EnableBit(e));
    }
  }

  /** After initialisation both enable words read 0, so every external line is disabled. */
  lemma InitDisablesAllLines(h: Hart, claimed: bv32)
    ensures Get(IrqInitialize(h, claimed).hart.mmio, PLIC_ENABLE1) == 0
    ensures Get(IrqInitialize(h, claimed).hart.mmio, PLIC_ENABLE2) == 0
    ensures forall e :: IsExtLine(e) ==> !LineEnabled(IrqInitialize(h, claimed).hart.mmio, e)
  {
    var rf := h.mmio;
    InitStagesAfter(rf, claimed);
    var rf1 := After(rf, DisableAllOps());
    DisableAllZeroes(rf);
    LaterStagesKeepEnables(rf1, claimed, PLIC_ENABLE1);
    LaterStagesKeepEnables(rf1, claimed, PLIC_ENABLE2);
    ZeroWordsNoLines(IrqInitialize(h, claimed).hart.mmio);
  }

  lemma DisableAllTrace(rf: RegFile)
    ensures Run(rf, DisableAllOps()) == [Store(PLIC_ENABLE1, 0), Store(PLIC_ENABLE2, 0)]
  {
    RunPut(rf, PLIC_ENABLE1, 0, [Put(PLIC_ENABLE2, 0)]);
    RunPut(rf[PLIC_ENABLE1 := 0], PLIC_ENABLE2, 0, []);
    assert DisableAllOps() == [Put(PLIC_ENABLE1, 0)] + [Put(PLIC_ENABLE2, 0)];
    assert [Put(PLIC_ENABLE2, 0)] + [] == [Put(PLIC_ENABLE2, 0)];
  }

  lemma DrainClaimTrace(rf: RegFile, claimed: bv32)
    ensures Run(rf, DrainClaimOps(claimed)) == [Load(PLIC_CLAIM, claimed), Store(PLIC_CLAIM, claimed)]
  {
    RunSample(rf, PLIC_CLAIM, claimed, [Put(PLIC_CLAIM, claimed)]);
    RunPut(rf, PLIC_CLAIM, claimed, []);
    assert DrainClaimOps(claimed) == [Sample(PLIC_CLAIM, claimed)] + [Put(PLIC_CLAIM, claimed)];
    assert [Put(PLIC_CLAIM, claimed)] + [] == [Put(PLIC_CLAIM, claimed)];
  }

  lemma OpenThresholdTrace(rf: RegFile)
    ensures Run(rf, OpenThresholdOps()) == [Store(PLIC_THRESHOLD, 0)]
  {
    RunPut(rf, PLIC_THRESHOLD, 0, []);
    assert OpenThresholdOps() == [Put(PLIC_THRESHOLD, 0)] + [];
  }

  /** The register program's trace reads the claim register once and writes that value back, and nothing more there. */
  lemma ProgramDrainsClaim(rf: RegFile, claimed: bv32)
    ensures On(Run(rf, InitOps(claimed)), PLIC_CLAIM) == [Load(PLIC_CLAIM, claimed), Store(PLIC_CLAIM, claimed)]
  {
    var d := DisableAllOps();
    var c := DrainClaimOps(claimed);
    var p := PriorityOps(1);
    var t := OpenThresholdOps();
    InitStagesRun(rf, claimed);
    var rf1 := After(rf, d);
    var rf2 := After(rf1, c);
    var rf3 := After(rf2, p);
    DisableAllTrace(rf);
    DrainClaimTrace(rf1, claimed);
    OpenThresholdTrace(rf3);
    var td := Run(rf, d);
    var tc := Run(rf1, c);
    var tp := Run(rf2, p);
    var tt := Run(rf3, t);
    OnAbsent(td, PLIC_CLAIM);
    OnOnly(tc, PLIC_CLAIM);
    PrioritiesSkipClaim(rf2, 1);
    OnAbsent(tt, PLIC_CLAIM);
    OnAppend4(td, tc, tp, tt, PLIC_CLAIM);
  }

  /** Initialisation's registers and bus trace are those of its register program. */
  lemma InitIsProgram(h: Hart, claimed: bv32)
    ensures IrqInitialize(h, claimed).hart.mmio == After(h.mmio, InitOps(claimed))
    ensures IrqInitialize(h, claimed).bus == Run(h.mmio, InitOps(claimed))
  {}

  /**
    Initialisation writes back to the claim register exactly the value it
    read from it, and makes no other access to that register.
  */
  lemma InitDrainsClaim(h: Hart, claimed: bv32)
    ensures On(IrqInitialize(h, claimed).bus, PLIC_CLAIM) == [Load(PLIC_CLAIM, claimed), Store(PLIC_CLAIM, claimed)]
  {
    InitIsProgram(h, claimed);
    ProgramDrainsClaim(h.mmio, claimed);
  }

  /**
    After initialisation the priority register of every id in 1..NR_IRQS
    reads 1, and the threshold reads 0.
  */
  lemma InitPriorities(h: Hart, claimed: bv32)
    ensures forall id :: 1 <= id <= NR_IRQS ==> Get(IrqInitialize(h, claimed).hart.mmio, PLIC_PRIORITY + 4 * id) == 1
    ensures Get(IrqInitialize(h, claimed).hart.mmio, PLIC_THRESHOLD) == 0
  {
    var rf := h.mmio;
    var d := DisableAllOps();
    var c := DrainClaimOps(claimed);
    var p := PriorityOps(1);
    var t := OpenThresholdOps();
    InitStagesAfter(rf, claimed);
    var rf1 := After(rf, d);
    var rf2 := After(rf1, c);
    var rf3 := After(rf2, p);
    PrioritiesSet(rf2, 1);
    TouchesOne(t[0]);
    assert t == [t[0]];
    AfterOne(rf3, t[0]);
    forall id | 1 <= id <= NR_IRQS
      ensures Get(After(rf3, t), PLIC_PRIORITY + 4 * id) == 1
    {
      AfterFrame(rf3, t, PLIC_PRIORITY + 4 * id);
    }
  }

  lemma DisableAllTouches()
    ensures Touches(DisableAllOps()) == {PLIC_ENABLE1, PLIC_ENABLE2}
  {
    var d := DisableAllOps();
    TouchesTwo(d[0], d[1]);
    TouchesOne(d[0]);
    TouchesOne(d[1]);
    assert d == [d[0], d[1]];
  }

  lemma DrainClaimTouches(claimed: bv32)
    ensures Touches(DrainClaimOps(claimed)) == {PLIC_CLAIM}
  {
    var c := DrainClaimOps(claimed);
    TouchesTwo(c[0], c[1]);
    TouchesOne(c[0]);
    TouchesOne(c[1]);
    assert c == [c[0], c[1]];
  }

  lemma OpenThresholdTouches()
    ensures Touches(OpenThresholdOps()) == {PLIC_THRESHOLD}
  {
    var t := OpenThresholdOps();
    TouchesOne(t[0]);
    assert t == [t[0]];
  }

  /** The register program stores only to the enable words, the claim register, the threshold and priority registers. */
  lemma ProgramTouches(claimed: bv32)
    ensures forall a :: a in Touches(InitOps(claimed)) ==>
      a == PLIC_ENABLE1 || a == PLIC_ENABLE2 || a == PLIC_CLAIM || a == PLIC_THRESHOLD || IsPriorityReg(a)
  {
    var d := DisableAllOps();
    var c := DrainClaimOps(claimed);
    var p := PriorityOps(1);
    var t := OpenThresholdOps();
    TouchesAppend(d + c + p, t);
    TouchesAppend(d + c, p);
    TouchesAppend(d, c);
    DisableAllTouches();
    DrainClaimTouches(claimed);
    OpenThresholdTouches();
    assert Touches(InitOps(claimed)) == {PLIC_ENABLE1, PLIC_ENABLE2} + {PLIC_CLAIM} + Touches(p) + {PLIC_THRESHOLD};
    PriorityTouches(1);
  }

  /**
    Initialisation changes no memory-mapped register other than the enable
    words, the claim register, the priority registers and the threshold.
  */
  lemma InitFrame(h: Hart, claimed: bv32)
    ensures forall a :: (a != PLIC_ENABLE1 && a != PLIC_ENABLE2 && a != PLIC_CLAIM && a != PLIC_THRESHOLD
      && !IsPriorityReg(a)) ==> Get(IrqInitialize(h, claimed).hart.mmio, a) == Get(h.mmio, a)
  {
    InitIsProgram(h, claimed);
    ProgramTouches(claimed);
    forall a | a != PLIC_ENABLE1 && a != PLIC_ENABLE2 && a != PLIC_CLAIM && a != PLIC_THRESHOLD && !IsPriorityReg(a)
      ensures Get(After(h.mmio, InitOps(claimed)), a) == Get(h.mmio, a)
    {
      AfterFrame(h.mmio, InitOps(claimed), a);
    }
  }

  /**
    Initialisation ends with external interrupts enabled in `sie` and the
    global enable set in `sstatus`; no other CSR bit changes.
  */
  lemma InitEnablesDelivery(h: Hart, claimed: bv32)
    ensures Has64(IrqInitialize(h, claimed).hart.ie, IE_EIE)
    ensures Clear64(IrqInitialize(h, claimed).hart.ie, IE_EIE) == Clear64(h.ie, IE_EIE)
    ensures Has64(IrqInitialize(h, claimed).hart.status, STATUS_IE)
    ensures Clear64(IrqInitialize(h, claimed).hart.status, STATUS_IE) == Clear64(h.status, STATUS_IE)
  {
    var quiet := IrqSave(h).hart;
    var programmed := quiet.(mmio := After(quiet.mmio, InitOps(claimed)));
    IrqEnableSetsOnlyItsBits(programmed);
    ClearKeeps64(h.status, STATUS_IE);
  }
}
