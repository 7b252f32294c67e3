/**
  The JH7110 interrupt dispatcher (riscv_dispatch_irq): turn the trap cause
  into a kernel interrupt number, claim an external interrupt from the PLIC,
  hand the interrupt to the kernel, and signal completion to the PLIC.

  The PLIC's claim/complete register is modelled by what the dispatcher
  does with it: `ClaimRead` is the read that claims the highest pending
  source (the device answers with its id, 0 for none), `Complete` the write
  that tells the PLIC the source has been served. The kernel's handler
  (riscv_doirq) is a parameter: the dispatcher passes it the interrupt
  number and the saved register frame, and returns the frame it gets back.
*/
module Dispatch {
  import opened Bits
  import opened Plic

  /** An unsigned 32-bit value, as a register read returns it. */
  type U32 = x: int | 0 <= x < 0x1_0000_0000

  /** What the dispatcher does, in order. */
  datatype Event =
    | ClaimRead(id: U32)     // getreg32(JH7110_PLIC_CLAIM) answered with `id`
    | DoIrq(irq: int)        // riscv_doirq(irq, regs)
    | Complete(id: U32)      // putreg32(id, JH7110_PLIC_CLAIM)

  /** The events of one dispatch and the register frame it returns. */
  datatype Dispatched<F> = Dispatched(events: seq<Event>, regs: F)

  // Decoding the trap cause.

  /** The top five bits of the cause shifted down to the bottom, joined with its low four bits: the interrupt flag lands on 16, the cause code stays below. */
  function DecodeBits(vector: bv64): bv64 {
    Set64(ShiftOut59(vector), Select64(vector, 0xf))
  }

  function ShiftOut59(vector: bv64): bv64 {
    vector >> 59
  }

  /** The kernel interrupt number of a trap: the interrupt flag (bit 63) moved to bit 4, joined with the low four bits of the cause code. */
  function Decode(vector: bv64): (irq: int)
    ensures 0 <= irq < 32
  {
    DecodeRange(vector);
    DecodeBits(vector) as int
  }

  lemma DecodeRangeRaw(vector: bv64)
    ensures (vector >> 59) | (vector & 0xf) < 32
  {}

  lemma DecodeRange(vector: bv64)
    ensures DecodeBits(vector) < 32
  {
    assert ShiftOut59(vector) == vector >> 59;
    assert Select64(vector, 0xf) == vector & 0xf;
    assert Set64(ShiftOut59(vector), Select64(vector, 0xf)) == (vector >> 59) | (vector & 0xf);
    DecodeRangeRaw(vector);
  }

  /**
    The `scause` value of a trap: bit 63 says interrupt, the low bits hold
    the cause code (here one of the sixteen standard ones).
  */
  function Cause(interrupt: bool, code: bv4): bv64 {
    if interrupt then Set64(0x8000_0000_0000_0000, code as bv64) else code as bv64
  }

  lemma DecodeInterruptRaw(code: bv4)
    ensures ((0x8000_0000_0000_0000 | (code as bv64)) >> 59) | ((0x8000_0000_0000_0000 | (code as bv64)) & 0xf)
      == 16 + code as bv64
  {}

  lemma DecodeExceptionRaw(code: bv4)
    ensures ((code as bv64) >> 59) | ((code as bv64) & 0xf) == code as bv64
  {}

  /**
    A standard interrupt cause `code` decodes to RISCV_IRQ_ASYNC + code, and
    a standard exception cause to `code` itself.
  */
  lemma DecodeCause(interrupt: bool, code: bv4)
    ensures Decode(Cause(interrupt, code)) == (if interrupt then RISCV_IRQ_ASYNC else 0) + code as int
  {
    var v := Cause(interrupt, code);
    assert ShiftOut59(v) == v >> 59;
    assert Select64(v, 0xf) == v & 0xf;
    if interrupt {
      assert v == 0x8000_0000_0000_0000 | (code as bv64);
      DecodeInterruptRaw(code);
      WidenSum(code);
    } else {
      DecodeExceptionRaw(code);
      Widen(code);
    }
  }

  lemma Widen(code: bv4)
    ensures (code as bv64) as int == code as int
  {}

  lemma WidenSum(code: bv4)
    ensures (16 + code as bv64) as int == 16 + code as int
  {}

  /** The external interrupt (cause 9) is the one that decodes to RISCV_IRQ_EXT. */
  lemma DecodeExternal()
    ensures Decode(Cause(true, 9)) == RISCV_IRQ_EXT
  {
    DecodeCause(true, 9);
  }

  /** The middle bits of the cause: everything except the top five bits and the low four. */
  const DECODED_BITS: bv64 := 0xF800_0000_0000_000F

  lemma DecodeMaskRaw(vector: bv64)
    ensures (vector >> 59) | (vector & 0xf)
      == ((vector & 0xF800_0000_0000_000F) >> 59) | ((vector & 0xF800_0000_0000_000F) & 0xf)
  {}

  /**
    Only the top five and the low four bits of the cause reach the kernel
    interrupt number: a cause code of 16 or more is folded onto its low four bits.
  */
  lemma DecodeKeepsOnlyEdgeBits(vector: bv64)
    ensures Decode(vector) == Decode(Select64(vector, DECODED_BITS))
  {
    var m := Select64(vector, DECODED_BITS);
    assert ShiftOut59(vector) == vector >> 59;
    assert Select64(vector, 0xf) == vector & 0xf;
    assert ShiftOut59(m) == m >> 59;
    assert Select64(m, 0xf) == m & 0xf;
    assert m == vector & 0xF800_0000_0000_000F;
    DecodeMaskRaw(vector);
  }

  lemma Exception19Raw()
    ensures ((19 as bv64) >> 59) | ((19 as bv64) & 0xf) == 3
  {}

  /** Exception cause 19 (hardware error) decodes to 3, the number of a breakpoint exception. */
  lemma Exception19DecodesAs3()
    ensures Decode(19) == 3
  {
    assert ShiftOut59(19) == (19 as bv64) >> 59;
    assert Select64(19, 0xf) == (19 as bv64) & 0xf;
    Exception19Raw();
  }

  // C's integer conversions.

  /** Conversion of an integer to the 32-bit `int` of the source: two's complement wrap-around. */
  function Int32(x: int): (r: int)
    ensures -0x8000_0000 <= r < 0x8000_0000
    ensures (r - x) % 0x1_0000_0000 == 0
  {
    var m := x % 0x1_0000_0000;
    if m < 0x8000_0000 then m else m - 0x1_0000_0000
  }

  /** Conversion of an integer to `uint32_t`: reduction modulo 2^32. */
  function ToU32(x: int): (r: U32)
    ensures (r - x) % 0x1_0000_0000 == 0
  {
    x % 0x1_0000_0000
  }

  /** A value already in range is unchanged by the conversion to `int`. */
  lemma Int32InRange(x: int)
    requires -0x8000_0000 <= x < 0x8000_0000
    ensures Int32(x) == x
  {}

  /**
    Adding the claimed id to RISCV_IRQ_EXT in `int` and subtracting it again
    in `uint32_t` gives back the id, whatever the wrap-around in between.
  */
  lemma CompletionUndoesOffset(id: U32)
    ensures ToU32(Int32(RISCV_IRQ_EXT + id) - RISCV_IRQ_EXT) == id
  {
    var r := Int32(RISCV_IRQ_EXT + id);
    assert (r - (RISCV_IRQ_EXT + id)) % 0x1_0000_0000 == 0;
    ModMultiple(r - RISCV_IRQ_EXT, id);
  }

  lemma ModMultiple(x: int, id: U32)
    requires (x - id) % 0x1_0000_0000 == 0
    ensures x % 0x1_0000_0000 == id
  {
    var k := (x - id) / 0x1_0000_0000;
    assert x == id + k * 0x1_0000_0000;
  }

  // The dispatcher.

  /** Bit 20 of the PLIC's first pending word: pending source 20. */
  const PENDING_20: bv32 := 0x10_0000

  /**
    The value added to RISCV_IRQ_EXT after a claim: the claimed id, except
    that when the claim answers 0 while source 20 is pending, 20 is used.
  */
  function ClaimedId(claim: U32, ip0: bv32): U32 {
    if claim == 0 && Has32(ip0, PENDING_20) then 20 else claim
  }

  /** The interrupt number after the claim: `irq += val` on a 32-bit `int`. */
  function EffectiveIrq(vector: bv64, claim: U32, ip0: bv32): int {
    var decoded := Decode(vector);
    if decoded == RISCV_IRQ_EXT then Int32(decoded + ClaimedId(claim, ip0)) else decoded
  }

  /**
    riscv_dispatch_irq as written. `claim` is what the claim register
    answers if it is read, `ip0` the PLIC's first pending word.
  */
  function DispatchIrq<F>(vector: bv64, claim: U32, ip0: bv32, doirq: (int, F) -> F, regs: F): (r: Dispatched<F>)
    ensures |r.events| <= 3
  {
    var decoded := Decode(vector);
    var irq := EffectiveIrq(vector, claim, ip0);
    var claimed := if decoded == RISCV_IRQ_EXT then [ClaimRead(claim)] else [];
    var delivered := if irq != RISCV_IRQ_EXT then [DoIrq(irq)] else [];
    var completed := if RISCV_IRQ_EXT <= irq then [Complete(ToU32(irq - RISCV_IRQ_EXT))] else [];
    Dispatched(claimed + delivered + completed, if irq != RISCV_IRQ_EXT then doirq(irq, regs) else regs)
  }

  /**
    riscv_dispatch_irq with the completion tied to the claim: the PLIC is
    told of completion exactly when the dispatcher claimed from it.
  */
  function DispatchIrqFixed<F>(vector: bv64, claim: U32, ip0: bv32, doirq: (int, F) -> F, regs: F): (r: Dispatched<F>)
    ensures |r.events| <= 3
  {
    var decoded := Decode(vector);
    var irq := EffectiveIrq(vector, claim, ip0);
    var claimed := if decoded == RISCV_IRQ_EXT then [ClaimRead(claim)] else [];
    var delivered := if irq != RISCV_IRQ_EXT then [DoIrq(irq)] else [];
    var completed := if decoded == RISCV_IRQ_EXT then [Complete(ToU32(irq - RISCV_IRQ_EXT))] else [];
    Dispatched(claimed + delivered + completed, if irq != RISCV_IRQ_EXT then doirq(irq, regs) else regs)
  }

  // The PLIC's view: claims and completions must pair up.

  datatype Option<T> = None | Some(value: T)

  /**
    Runs the events against the PLIC's claim/complete handshake, starting
    with `open` telling whether a claim is awaiting completion. None when a
    completion arrives with no claim outstanding; otherwise whether a claim
    is left open at the end.
  */
  function Gateway(events: seq<Event>, open: bool): Option<bool>
    decreases |events|
  {
    if |events| == 0 then Some(open)
    else match events[0]
      case ClaimRead(_) => Gateway(events[1..], true)
      case DoIrq(_) => Gateway(events[1..], open)
      case Complete(_) => if open then Gateway(events[1..], false) else None
  }

  /** Every completion answers a claim, and every claim is completed. */
  predicate Balanced(events: seq<Event>) {
    Gateway(events, false) == Some(false)
  }

  /** The handshake on the event sequences one dispatch can produce. */
  lemma GatewayCases(claim: U32, irq: int, id: U32)
    ensures Balanced([ClaimRead(claim), DoIrq(irq), Complete(id)])
    ensures Balanced([ClaimRead(claim), Complete(id)])
    ensures Balanced([DoIrq(irq)])
    ensures !Balanced([DoIrq(irq), Complete(id)])
    ensures !Balanced([ClaimRead(claim), DoIrq(irq)])
  {
    var done := [Complete(id)];
    assert done[1..] == [];
    assert Gateway(done, true) == Some(false);
    assert Gateway(done, false) == None;
    var served := [DoIrq(irq), Complete(id)];
    assert served[1..] == done;
    assert Gateway(served, true) == Some(false);
    assert Gateway(served, false) == None;
    var full := [ClaimRead(claim), DoIrq(irq), Complete(id)];
    assert full[1..] == served;
    var short := [ClaimRead(claim), Complete(id)];
    assert short[1..] == done;
    var local := [DoIrq(irq)];
    assert local[1..] == [];
    assert Gateway(local, false) == Some(false);
    assert Gateway(local, true) == Some(true);
    var open := [ClaimRead(claim), DoIrq(irq)];
    assert open[1..] == local;
  }

  /** Whether the events contain a claim read. */
  predicate Claims(events: seq<Event>) {
    exists k :: 0 <= k < |events| && events[k].ClaimRead?
  }

  /** Whether the events contain a completion. */
  predicate Completes(events: seq<Event>) {
    exists k :: 0 <= k < |events| && events[k].Complete?
  }

  // What one dispatch does.

  /** A CPU-local interrupt or an exception is handed to the kernel and nothing else happens. */
  lemma DispatchLocal<F>(vector: bv64, claim: U32, ip0: bv32, doirq: (int, F) -> F, regs: F)
    requires Decode(vector) < RISCV_IRQ_EXT
    ensures DispatchIrq(vector, claim, ip0, doirq, regs)
      == Dispatched([DoIrq(Decode(vector))], doirq(Decode(vector), regs))
  {
  }

  /**
    An external interrupt with source `id` pending: the dispatcher claims
    it, hands RISCV_IRQ_EXT + id to the kernel, and completes `id`.
  */
  lemma DispatchExternal<F>(vector: bv64, claim: U32, ip0: bv32, doirq: (int, F) -> F, regs: F)
    requires Decode(vector) == RISCV_IRQ_EXT
    requires 0 < ClaimedId(claim, ip0) < 0x8000_0000 - RISCV_IRQ_EXT
    ensures var id := ClaimedId(claim, ip0);
      DispatchIrq(vector, claim, ip0, doirq, regs)
      == Dispatched([ClaimRead(claim), DoIrq(RISCV_IRQ_EXT + id), Complete(id)], doirq(RISCV_IRQ_EXT + id, regs))
  {
    Int32InRange(RISCV_IRQ_EXT + ClaimedId(claim, ip0));
  }

  /**
    An external interrupt with nothing to claim: the claim answers 0, the
    kernel is not called, and 0 is written back.
  */
  lemma DispatchSpurious<F>(vector: bv64, ip0: bv32, doirq: (int, F) -> F, regs: F)
    requires Decode(vector) == RISCV_IRQ_EXT
    requires !Has32(ip0, PENDING_20)
    ensures DispatchIrq(vector, 0, ip0, doirq, regs) == Dispatched([ClaimRead(0), Complete(0)], regs)
  {
  }

  /** The dispatcher reads the claim register exactly when the cause decodes to RISCV_IRQ_EXT. */
  lemma ClaimsIffExternal<F>(vector: bv64, claim: U32, ip0: bv32, doirq: (int, F) -> F, regs: F)
    ensures Claims(DispatchIrq(vector, claim, ip0, doirq, regs).events) <==> Decode(vector) == RISCV_IRQ_EXT
  {
    var r := DispatchIrq(vector, claim, ip0, doirq, regs);
    if Decode(vector) == RISCV_IRQ_EXT {
      assert r.events[0].ClaimRead?;
    }
  }

  /**
    The dispatcher writes a completion exactly when the interrupt number,
    after any claim, is RISCV_IRQ_EXT or above.
  */
  lemma CompletesIffAtLeastExternal<F>(vector: bv64, claim: U32, ip0: bv32, doirq: (int, F) -> F, regs: F)
    ensures Completes(DispatchIrq(vector, claim, ip0, doirq, regs).events)
      <==> RISCV_IRQ_EXT <= EffectiveIrq(vector, claim, ip0)
  {
    var r := DispatchIrq(vector, claim, ip0, doirq, regs);
    if RISCV_IRQ_EXT <= EffectiveIrq(vector, claim, ip0) {
      assert r.events[|r.events| - 1].Complete?;
    }
  }

  /** The kernel is called exactly when the interrupt number is not RISCV_IRQ_EXT, and with that number. */
  lemma DeliversIffNotExternal<F>(vector: bv64, claim: U32, ip0: bv32, doirq: (int, F) -> F, regs: F)
    ensures var r := DispatchIrq(vector, claim, ip0, doirq, regs);
      var irq := EffectiveIrq(vector, claim, ip0);
      (forall k :: 0 <= k < |r.events| && r.events[k].DoIrq? ==> r.events[k].irq == irq)
      && ((exists k :: 0 <= k < |r.events| && r.events[k].DoIrq?) <==> irq != RISCV_IRQ_EXT)
      && r.regs == (if irq != RISCV_IRQ_EXT then doirq(irq, regs) else regs)
    ensures var r := DispatchIrq(vector, claim, ip0, doirq, regs);
      forall j, k :: 0 <= j < |r.events| && 0 <= k < |r.events| && r.events[j].DoIrq? && r.events[k].DoIrq? ==> j == k
  {
    var r := DispatchIrq(vector, claim, ip0, doirq, regs);
    var irq := EffectiveIrq(vector, claim, ip0);
    var id := ToU32(irq - RISCV_IRQ_EXT);
    if Decode(vector) == RISCV_IRQ_EXT {
      if irq == RISCV_IRQ_EXT {
        assert r.events == [ClaimRead(claim), Complete(id)];
      } else if RISCV_IRQ_EXT <= irq {
        assert r.events == [ClaimRead(claim), DoIrq(irq), Complete(id)];
      } else {
        assert r.events == [ClaimRead(claim), DoIrq(irq)];
      }
    } else if RISCV_IRQ_EXT <= irq {
      assert r.events == [DoIrq(irq), Complete(id)];
    } else {
      assert r.events == [DoIrq(irq)];
    }
    if irq != RISCV_IRQ_EXT {
      var k := if Decode(vector) == RISCV_IRQ_EXT then 1 else 0;
      assert r.events[k] == DoIrq(irq);
    }
  }

  // The unclaimed completion.

  /**
    A cause that decodes above RISCV_IRQ_EXT (interrupt causes 10 to 15)
    is completed at the PLIC although nothing was claimed.
  */
  lemma AsWrittenCompletesUnclaimed<F>(vector: bv64, claim: U32, ip0: bv32, doirq: (int, F) -> F, regs: F)
    requires Decode(vector) > RISCV_IRQ_EXT
    ensures var r := DispatchIrq(vector, claim, ip0, doirq, regs);
      !Claims(r.events) && Completes(r.events) && !Balanced(r.events)
  {
    var r := DispatchIrq(vector, claim, ip0, doirq, regs);
    var irq := Decode(vector);
    assert r.events == [DoIrq(irq), Complete(ToU32(irq - RISCV_IRQ_EXT))];
    assert r.events[1].Complete?;
    GatewayCases(0, irq, ToU32(irq - RISCV_IRQ_EXT));
  }

  /** Interrupt cause 13 (a counter overflow) completes PLIC source 4. */
  lemma AsWrittenCause13<F>(claim: U32, ip0: bv32, doirq: (int, F) -> F, regs: F)
    ensures DispatchIrq(Cause(true, 13), claim, ip0, doirq, regs).events == [DoIrq(29), Complete(4)]
  {
    DecodeCause(true, 13);
  }

  /**
    A claimed id of 2^31 - RISCV_IRQ_EXT or more makes `irq += val`
    wrap below RISCV_IRQ_EXT: the wrapped number goes to the kernel and no
    completion is written, so the claimed source is left open.
  */
  lemma AsWrittenWrapLeavesClaimOpen<F>(vector: bv64, claim: U32, ip0: bv32, doirq: (int, F) -> F, regs: F)
    requires Decode(vector) == RISCV_IRQ_EXT
    requires ClaimedId(claim, ip0) >= 0x8000_0000 - RISCV_IRQ_EXT
    ensures EffectiveIrq(vector, claim, ip0) < RISCV_IRQ_EXT
    ensures var r := DispatchIrq(vector, claim, ip0, doirq, regs);
      r.events == [ClaimRead(claim), DoIrq(EffectiveIrq(vector, claim, ip0))]
      && !Completes(r.events) && !Balanced(r.events)
  {
    var x := RISCV_IRQ_EXT + ClaimedId(claim, ip0);
    WrapsBelow(x);
    GatewayCases(claim, EffectiveIrq(vector, claim, ip0), 0);
  }

  /** A sum of RISCV_IRQ_EXT and a 32-bit id that leaves the `int` range wraps below RISCV_IRQ_EXT. */
  lemma WrapsBelow(x: int)
    requires 0x8000_0000 <= x < 0x1_0000_0000 + RISCV_IRQ_EXT
    ensures Int32(x) < RISCV_IRQ_EXT
  {
    if x < 0x1_0000_0000 {
      assert x % 0x1_0000_0000 == x;
    } else {
      assert x % 0x1_0000_0000 == x - 0x1_0000_0000;
    }
  }

  /** With the completion tied to the claim, every dispatch leaves the PLIC handshake balanced. */
  lemma FixedBalanced<F>(vector: bv64, claim: U32, ip0: bv32, doirq: (int, F) -> F, regs: F)
    ensures var r := DispatchIrqFixed(vector, claim, ip0, doirq, regs);
      Balanced(r.events) && (Completes(r.events) <==> Claims(r.events))
  {
    var r := DispatchIrqFixed(vector, claim, ip0, doirq, regs);
    var irq := EffectiveIrq(vector, claim, ip0);
    var id := ToU32(irq - RISCV_IRQ_EXT);
    GatewayCases(claim, irq, id);
    if Decode(vector) == RISCV_IRQ_EXT {
      assert r.events[0].ClaimRead?;
      assert r.events[|r.events| - 1].Complete?;
      if irq != RISCV_IRQ_EXT {
        assert r.events == [ClaimRead(claim), DoIrq(irq), Complete(id)];
      } else {
        assert r.events == [ClaimRead(claim), Complete(id)];
      }
    } else {
      assert r.events == [DoIrq(irq)];
    }
  }

  /** The corrected dispatcher completes exactly the id it used, the claimed one or the substituted 20. */
  lemma FixedCompletesClaimedId<F>(vector: bv64, claim: U32, ip0: bv32, doirq: (int, F) -> F, regs: F)
    requires Decode(vector) == RISCV_IRQ_EXT
    ensures var r := DispatchIrqFixed(vector, claim, ip0, doirq, regs);
      r.events[0] == ClaimRead(claim) && r.events[|r.events| - 1] == Complete(ClaimedId(claim, ip0))
  {
    CompletionUndoesOffset(ClaimedId(claim, ip0));
  }

  /**
    The two dispatchers agree on every cause up to RISCV_IRQ_EXT whose claim
    does not overflow the `int` addition, and there the one as written is balanced too.
  */
  lemma FixedAgreesBelowOverflow<F>(vector: bv64, claim: U32, ip0: bv32, doirq: (int, F) -> F, regs: F)
    requires Decode(vector) < RISCV_IRQ_EXT
      || (Decode(vector) == RISCV_IRQ_EXT && ClaimedId(claim, ip0) < 0x8000_0000 - RISCV_IRQ_EXT)
    ensures DispatchIrq(vector, claim, ip0, doirq, regs) == DispatchIrqFixed(vector, claim, ip0, doirq, regs)
    ensures Balanced(DispatchIrq(vector, claim, ip0, doirq, regs).events)
  {
    if Decode(vector) == RISCV_IRQ_EXT {
      Int32InRange(RISCV_IRQ_EXT + ClaimedId(claim, ip0));
    }
    FixedBalanced(vector, claim, ip0, doirq, regs);
  }
}
