# JH7110 interrupt handling and A64 MIPI DSI command transmission, in Dafny

This project models three driver pieces of a NuttX port. It proves what each one does to the hardware registers it drives.

- **The JH7110 PLIC driver** (`Plic`, jh7110_irq.c). It covers:
  - boot initialisation of the RISC-V Platform-Level Interrupt Controller;
  - enabling and disabling one interrupt line, through a `sie` bit for software and timer interrupts or through a PLIC enable bit for external ones;
  - `up_irq_enable`.

  The hart is a value with the `sie` and `sstatus` CSRs and a memory-mapped register file. Every operation is a pure function that returns the new hart and the bus trace of its loads and stores.
- **The JH7110 trap dispatcher** (`Dispatch`, jh7110_irq_dispatch.c). It decodes the trap cause, claims an external interrupt from the PLIC, hands the interrupt number to the kernel and writes the completion.
  - The kernel's `riscv_doirq` is a function parameter.
  - The claim register's answer and the PLIC's first pending word are inputs.
  - The result is the list of events: claim read, kernel call, completion write.
- **The A64 MIPI DSI low-power write** (`Dsi`, a64_mipi_dsi.c). `a64_mipi_dsi_write` checks the command's length and composes a packet. It then:
  - clears the transfer flags;
  - packs the packet little-endian into the 32-bit words of the low-power transmit window;
  - writes TX_Size;
  - selects the low-power instruction sequence;
  - restarts instruction processing;
  - polls with `a64_wait_dsi_transmit` until `Instru_En` drops, for at most 5000 polls.

  The packet composers are function parameters. The controller's answer to poll `j` is the parameter `sample(j)`. DSI_CMD_CTL_REG holds write-1-to-clear flags and DSI_BASIC_CTL0_REG holds the busy flag, so their values are set by the controller. What the controller returns to the reads inside `modreg32` on those two registers is the parameter `ans`. The module also checks the instruction-register macros and the asserted field compositions of `a64_mipi_dsi_enable`.

Two modules are shared by all three pieces:
- `Bits` holds the bit operations on 32- and 64-bit registers.
- `Mmio` holds the register file, the register programs and their bus traces. It also models `putreg32`, `getreg32`, `modreg32` and `modifyreg32`. The register file holds what the driver last stored. A read of a register the device changes is an input: `Sample` for a plain read and `Answered` for a read-modify-write.

## Model

Three operations have no contract of their own beyond bounds, so the lemma rows below stand for them:
- `Plic.IrqInitialize` (jh7110_irq.c:46-113) is covered by the `Plic.Init…` rows.
- `Dispatch.DispatchIrq` (jh7110_irq_dispatch.c:53-98) is covered by the `Dispatch` rows from `Dispatch.ClaimsIffExternal` to `Dispatch.AsWrittenWrapLeavesClaimOpen`.
- `Dispatch.DispatchIrqFixed`, its corrected twin, is covered by the `Dispatch.Fixed…` rows.

| member | source | states |
|---|---|---|
| Plic.DisableIrq | arch/risc-v/src/jh7110/jh7110_irq.c:123-157 | Disabling panics exactly for external numbers past line 63. Numbers up to RISCV_IRQ_EXT never touch the PLIC, and all except software and timer are no-ops. External lines leave both CSRs alone. |
| Plic.EnableIrq | arch/risc-v/src/jh7110/jh7110_irq.c:167-207 | The same four facts for enabling: panic exactly past line 63, no PLIC access for CPU-local numbers, no-ops below, and CSRs untouched for external lines. |
| Plic.EnableLocal | arch/risc-v/src/jh7110/jh7110_irq.c:172-183 | Enabling the software or timer interrupt sets its `sie` bit and changes no other bit of `sie`. |
| Plic.DisableLocal | arch/risc-v/src/jh7110/jh7110_irq.c:128-139 | Disabling the software or timer interrupt clears its `sie` bit and changes no other bit of `sie`. |
| Plic.EnableExternal | arch/risc-v/src/jh7110/jh7110_irq.c:184-197 | Enabling external line `e` turns it on and changes no register other than enable word `e / 32`. The bus sees one load and one store of that word. |
| Plic.EnableKeepsOtherLines | arch/risc-v/src/jh7110/jh7110_irq.c:196-197 | Enabling line `e` leaves every other external line's enable state as it was, including lines sharing the word. |
| Plic.DisableExternal | arch/risc-v/src/jh7110/jh7110_irq.c:140-150 | Disabling external line `e` turns it off and changes no register other than its enable word. The bus sees one load and one store of that word. |
| Plic.DisableKeepsOtherLines | arch/risc-v/src/jh7110/jh7110_irq.c:149-150 | Disabling line `e` leaves every other external line's enable state as it was. |
| Plic.EnableThenDisable | arch/risc-v/src/jh7110/jh7110_irq.c:140-197 | Enabling a disabled line and then disabling it gives back every register, `sie` and `sstatus`. |
| Plic.DisableThenEnable | arch/risc-v/src/jh7110/jh7110_irq.c:140-197 | Disabling an enabled line and then enabling it gives back every register, `sie` and `sstatus`. |
| Plic.IrqSave | arch/risc-v/src/jh7110/jh7110_irq.c:51 | Saving clears the global enable `sstatus.SIE`, returns the `sstatus` it found, and leaves `sie` and every memory-mapped register alone. |
| Plic.IrqEnable | arch/risc-v/src/jh7110/jh7110_irq.c:209-223 | `up_irq_enable` leaves `sie.SEIE` and `sstatus.SIE` set, returns the `sstatus` it found, and touches no memory-mapped register. |
| Plic.IrqEnableSetsOnlyItsBits | arch/risc-v/src/jh7110/jh7110_irq.c:209-223 | `up_irq_enable` sets `sie.SEIE` and `sstatus.SIE`, changes no other bit of either CSR, and returns the `sstatus` it found. |
| Plic.InitDisablesAllLines | arch/risc-v/src/jh7110/jh7110_irq.c:59-60 | After initialisation both enable words read 0, so every external line 0..63 is disabled. |
| Plic.InitDrainsClaim | arch/risc-v/src/jh7110/jh7110_irq.c:65-66 | Initialisation touches the claim register twice only. It reads a value and then writes back that same value. |
| Plic.InitPriorities | arch/risc-v/src/jh7110/jh7110_irq.c:83-93 | After initialisation every source 1..NR_IRQS has priority 1, and the threshold is 0. |
| Plic.InitFrame | arch/risc-v/src/jh7110/jh7110_irq.c:46-113 | Initialisation changes no memory-mapped register except the two enable words, the claim register, the threshold and the priority registers 1..NR_IRQS. |
| Plic.InitEnablesDelivery | arch/risc-v/src/jh7110/jh7110_irq.c:107-112 | Initialisation ends with `sie.SEIE` and `sstatus.SIE` set, and every other bit of both CSRs as found. |
| Dispatch.Decode | arch/risc-v/src/jh7110/jh7110_irq_dispatch.c:55 | Every trap cause decodes to a kernel interrupt number in 0..31. |
| Dispatch.DecodeCause | arch/risc-v/src/jh7110/jh7110_irq_dispatch.c:43-55 | An interrupt with cause code `c` below 16 decodes to RISCV_IRQ_ASYNC + `c`, and an exception with code below 16 decodes to its code. |
| Dispatch.DecodeKeepsOnlyEdgeBits | arch/risc-v/src/jh7110/jh7110_irq_dispatch.c:43-55 | The interrupt number depends only on the top five and the low four bits of the cause. A code of 16 or more is folded onto its low four bits. |
| Dispatch.Exception19DecodesAs3 | arch/risc-v/src/jh7110/jh7110_irq_dispatch.c:55 | Exception cause 19 (hardware error) is reported to the kernel as 3, the breakpoint exception. |
| Dispatch.DecodeExternal | arch/risc-v/src/jh7110/jh7110_irq_dispatch.c:59 | The supervisor external interrupt, cause 9, decodes to RISCV_IRQ_EXT. |
| Dispatch.CompletionUndoesOffset | arch/risc-v/src/jh7110/jh7110_irq_dispatch.c:75-93 | Adding a 32-bit id to RISCV_IRQ_EXT in `int` and subtracting it again into `uint32_t` gives the id back, even when the addition wraps. |
| Dispatch.ClaimsIffExternal | arch/risc-v/src/jh7110/jh7110_irq_dispatch.c:59-61 | The claim register is read if and only if the cause decodes to RISCV_IRQ_EXT. |
| Dispatch.DeliversIffNotExternal | arch/risc-v/src/jh7110/jh7110_irq_dispatch.c:81-97 | The kernel is called exactly once if the resolved number is not RISCV_IRQ_EXT, and never otherwise. The call carries that number. The returned frame is the kernel's if it was called, and the trap frame otherwise. |
| Dispatch.CompletesIffAtLeastExternal | arch/risc-v/src/jh7110/jh7110_irq_dispatch.c:89-94 | A completion is written if and only if the resolved number is RISCV_IRQ_EXT or above. |
| Dispatch.DispatchExternal | arch/risc-v/src/jh7110/jh7110_irq_dispatch.c:59-94 | For an external interrupt with a non-zero id, the dispatcher claims the id, delivers RISCV_IRQ_EXT + id to the kernel and completes the same id, in that order. |
| Dispatch.DispatchSpurious | arch/risc-v/src/jh7110/jh7110_irq_dispatch.c:69-94 | An external interrupt whose claim answers 0, with source 20 not pending, is claimed and completed with 0. The kernel is not called. |
| Dispatch.DispatchLocal | arch/risc-v/src/jh7110/jh7110_irq_dispatch.c:59-97 | A cause below RISCV_IRQ_EXT is handed to the kernel and nothing else: no claim and no completion. |
| Dispatch.AsWrittenCompletesUnclaimed | arch/risc-v/src/jh7110/jh7110_irq_dispatch.c:89-94 | A cause that decodes above RISCV_IRQ_EXT is completed at the PLIC although nothing was claimed, so the handshake is unbalanced. |
| Dispatch.AsWrittenCause13 | arch/risc-v/src/jh7110/jh7110_irq_dispatch.c:55-94 | Interrupt cause 13 is delivered as 29 and then writes completion 4 to the PLIC. |
| Dispatch.AsWrittenWrapLeavesClaimOpen | arch/risc-v/src/jh7110/jh7110_irq_dispatch.c:75-94 | A claimed id of 2^31 - RISCV_IRQ_EXT or more wraps `irq` below RISCV_IRQ_EXT. The kernel gets the wrapped number, no completion is written, and the claim stays open. |
| Dispatch.FixedBalanced | arch/risc-v/src/jh7110/jh7110_irq_dispatch.c:53-98 | With completion tied to the claim, every dispatch pairs each completion with an earlier claim and leaves no claim open. It completes if and only if it claimed. |
| Dispatch.FixedCompletesClaimedId | arch/risc-v/src/jh7110/jh7110_irq_dispatch.c:61-93 | The corrected dispatcher starts with the claim read and ends by completing the id it used. |
| Dispatch.FixedAgreesBelowOverflow | arch/risc-v/src/jh7110/jh7110_irq_dispatch.c:53-98 | For causes up to RISCV_IRQ_EXT whose id does not overflow `int`, the two dispatchers coincide, and the one as written is balanced. |
| Dsi.MipiDsiWrite | arch/arm64/src/a64/a64_mipi_dsi.c:116-246 | A wrong length for a short write returns -1 and an unknown command returns -1, both with no register access. A composer error is returned unchanged. Otherwise the result is `txlen` as `ssize_t` if some poll within 5000 sees the controller idle, and -1 if none does. |
| Dsi.WaitTransmit | arch/arm64/src/a64/a64_mipi_dsi.c:91-108 | Returns 0 if and only if one of the first 5000 polls reads `Instru_En` clear. It stops at the first such poll, having seen every earlier one busy. Otherwise it returns -1 after exactly 5000 busy polls. |
| Dsi.FirstIdle | arch/arm64/src/a64/a64_mipi_dsi.c:95-105 | The loop stops at the first idle poll, or at the limit when every poll is busy. |
| Dsi.Pack | arch/arm64/src/a64/a64_mipi_dsi.c:193-209 | The packer makes ceil(pktlen / 4) words. Word `k` is bytes `4k`..`4k+3` little-endian, with bytes at or past pktlen taken as 0. |
| Dsi.PackCarriesEveryByte | arch/arm64/src/a64/a64_mipi_dsi.c:196-209 | Packet byte `i` travels in lane `i % 4` of word `i / 4`. Lanes past the packet length, or past the 128-byte packet buffer, carry 0. |
| Dsi.LanesOfWord | arch/arm64/src/a64/a64_mipi_dsi.c:205-209 | Merging four bytes into a word and splitting it again gives the four bytes back in order. |
| Dsi.WordOfLanes | arch/arm64/src/a64/a64_mipi_dsi.c:205-209 | Splitting a word into bytes and merging them again gives the word back. |
| Dsi.TxOpsStore | arch/arm64/src/a64/a64_mipi_dsi.c:211-214 | After the copy loop, window register `addr + 4k` holds word `k`, since full-mask `modreg32` stores outright. |
| Dsi.TxWindow | arch/arm64/src/a64/a64_mipi_dsi.c:190-215 | The copy loop writes only inside DSI_CMD_TX_REG..base+0x3FC if and only if the packet is at most 256 bytes. |
| Dsi.WriteReachesController | arch/arm64/src/a64/a64_mipi_dsi.c:126-186 | The write touches the bus if and only if the length check passes and the packet composes. Its first access is then the store of the cleared flags to DSI_CMD_CTL_REG. |
| Dsi.WriteFillsWindow | arch/arm64/src/a64/a64_mipi_dsi.c:188-215 | After a transmission, window word `k` holds packet bytes `4k`..`4k+3` little-endian, for every word of the packet. |
| Dsi.WriteSetsTxSize | arch/arm64/src/a64/a64_mipi_dsi.c:219 | After a transmission, the TX_Size bits of DSI_CMD_CTL_REG hold the low byte of pktlen - 1. |
| Dsi.TxSizeReads | arch/arm64/src/a64/a64_mipi_dsi.c:219 | The byte written to TX_Size reads back as (pktlen - 1) mod 256. |
| Dsi.WriteClearsFlags | arch/arm64/src/a64/a64_mipi_dsi.c:217-219 | After a transmission, every bit of DSI_CMD_CTL_REG outside TX_Size is as the controller returned it to the TX_Size update's read. The update writes back the flags it finds. |
| Dsi.WriteCmdCtlTrace | arch/arm64/src/a64/a64_mipi_dsi.c:173-219 | A write that reaches the controller accesses DSI_CMD_CTL_REG exactly three times, in this order: it stores the cleared flags 0x06000200, the TX_Size update reads the controller's answer, and the update writes back the value the register is left with. |
| Dsi.DisableProcessing | arch/arm64/src/a64/a64_mipi_dsi.c:75-79 | Stopping processing reads DSI_BASIC_CTL0_REG and writes back what it read with `Instru_En` cleared and every other bit kept. |
| Dsi.EnableProcessing | arch/arm64/src/a64/a64_mipi_dsi.c:82-86 | Starting processing reads DSI_BASIC_CTL0_REG and writes back what it read with `Instru_En` set and every other bit kept. |
| Dsi.WriteStopsOnTimeout | arch/arm64/src/a64/a64_mipi_dsi.c:233-242 | After a transmission, `Instru_En` as last written is clear if and only if all 5000 polls found the controller busy. |
| Dsi.InstFuncRegs | arch/arm64/src/a64/a64_mipi_dsi.c:312-363 | DSI_INST_FUNC_REG(n) for the eight instructions 0..7 equals the addresses the enable path asserts, 0x1ca0020 to 0x1ca003c. |
| Dsi.InstFuncRegsApart | arch/arm64/src/a64/a64_mipi_dsi.c:59-65 | The eight instruction function registers are distinct word-aligned registers between base + 0x20 and base + 0x3C. None of them is the jump configuration register, a loop count register, DSI_BASIC_CTL0_REG, the jump selection register, the command control register or part of the transmit window. |
| Dsi.InstJumpAndLoopRegs | arch/arm64/src/a64/a64_mipi_dsi.c:370-426 | DSI_INST_JUMP_CFG_REG(0) is 0x1ca004c. DSI_INST_LOOP_NUM_REG(0) and (1) are 0x1ca0044 and 0x1ca0054. |
| Dsi.ControlWords | arch/arm64/src/a64/a64_mipi_dsi.c:288-611 | The field compositions of BASIC_CTL0, BASIC_CTL1, PIXEL_PF1, PIXEL_CTL0, BASIC_SIZE0 and BASIC_SIZE1 equal their asserted values. |
| Dsi.HeaderWords | arch/arm64/src/a64/a64_mipi_dsi.c:438-582 | The packet headers PIXEL_PH, SYNC_HSS, SYNC_HSE, SYNC_VSS and SYNC_VSE equal their asserted values. |
| Dsi.BlankingWords | arch/arm64/src/a64/a64_mipi_dsi.c:629-711 | The blanking footers HSA1, HBP1, HFP1, HBLK1 and VBLK1 equal their asserted values. |
| Dsi.JumpSelWord | arch/arm64/src/a64/a64_mipi_dsi.c:223-231 | The low-power jump selection (LPDT after LP11, END after LPDT) is 0xf0004. |
| Dsi.HeaderFields | arch/arm64/src/a64/a64_mipi_dsi.c:438-446 | A header built from an 8-bit ECC, 16 data bits and a 6-bit data type gives each field back from its own bits, so the fields never overlap. |

## Left out

- Header constants. The numeric values of RISCV_IRQ_EXT, NR_IRQS, the PLIC register addresses and the CSR bits come from headers that are not part of this model. They are written out in `Plic`.
  - The CSR bits and the cause numbers behind RISCV_IRQ_EXT follow the RISC-V privileged architecture.
  - The PLIC addresses follow the addresses the source itself uses in its debug code: the priorities at 0xe0000004 (jh7110_irq.c:81), hart 0's S-mode enable words at 0xe0002080 (jh7110_irq.c:193), the claim register at 0xe0201004 (jh7110_irq_dispatch.c:65) and the pending words at 0xe0001000 (jh7110_irq_dispatch.c:67).
- `up_irq_save` is not part of this model. `Plic.IrqSave` takes it to clear `sstatus.SIE` and return the old `sstatus`, as its use at jh7110_irq.c:51 implies.
- `riscv_exception_attach` (jh7110_irq.c:97) installs the trap vector. This is CPU state outside the register file.
- Configuration-dependent paths are left out:
  - stack coloration;
  - the CONFIG_SMP IPI clear and soft-interrupt enable;
  - a build with CONFIG_SUPPRESS_INTERRUPTS, which would skip `up_irq_enable`.
- `PANIC()` is modelled as an outcome, `Panic`. What the panic does is not modelled.
- Debug output is left out in all three files: every `_info`, `_err`, `infodumpbuffer` and `dump_buffer` call.
- Two debug reads in the dispatcher are left out.
  - Line 65 of jh7110_irq_dispatch.c reads 0xe0201004, which is the claim register again. It is an argument to `_info`, so it is only printed, and it runs only when debug output is compiled in, like the other `_info` calls. On a real PLIC that second read would claim a second pending source, which would then never be completed. The model keeps the one claim the handshake relies on.
  - Line 68 reads the second pending word into `ip1`, which nothing uses.
- The dispatcher's fallback at jh7110_irq_dispatch.c:69-71 is modelled. When the claim answers 0 and bit 20 of the first pending word is set, it uses 20. The word is an input, `ip0`. With that bit clear the dispatcher is exactly the plain claim/complete handshake. `Dispatch.DispatchSpurious` and `Dispatch.DispatchExternal` state both cases.
- `riscv_doirq` is a function parameter; what handlers do is not modelled.
- `up_udelay(1)` between polls is left out. Time is not modelled: polls are numbered, and the controller's answers are the parameter `sample`.
- `mipi_dsi_long_packet` and `mipi_dsi_short_packet` are not part of this model. They are parameters that return a length and the zero-filled 128-byte buffer.
- The packer can read past the 128-byte buffer when the composer reports a length above 128. `Dsi.Byte` reads every byte at index PACKET_BUFFER_SIZE (128) or above as 0, whatever the composer handed back. The C code's out-of-bounds read has no defined value. `Dsi.PackCarriesEveryByte` states that those lanes carry 0.
- `DEBUGASSERT` and `DEBUGPANIC` are treated as compiled out. This follows the source's own `return -1` fallbacks.
  - The address assertion at a64_mipi_dsi.c:212 is not enforced.
  - `Dsi.TxWindow` states when that assertion would hold.
  - `DEBUGASSERT(pktlen > 0)` is not enforced either. A zero-length packet writes TX_Size 0xFF.
- The remaining straight-line register writes of `a64_mipi_dsi_enable` and `a64_mipi_dsi_start` are left out. Only their asserted addresses and field values are checked. The memory barriers marked "TODO: DMB" are not modelled.
- a64_mipi_dphy.c, qemu_rv_start.c and sg2000_uart.h are not part of this model. They hold fixed register sequences, boot code and register-map constants.
- Plic.DisableIrq and Plic.EnableIrq take `1 << (extirq % 32)` to be bit 31 when `extirq % 32` is 31. In C, that shift of a signed `int` 1 into the sign bit is undefined. The model uses 0x80000000, the value GCC gives.
- Dsi.WriteClearsFlags does not promise that the flag bits of DSI_CMD_CTL_REG end cleared. The TX_Size update at a64_mipi_dsi.c:219 reads the register and writes back the flag bits the controller returns, so the controller decides them. `Dsi.WriteCmdCtlTrace` states the flag-clearing store that comes before the update.
- What DSI_CMD_CTL_REG and DSI_BASIC_CTL0_REG return to each read is a free input in `ans`, as the poll answers are in `sample`. How the controller sets and clears its flags between the driver's accesses is not modelled.
- Dispatch.DecodeCause covers cause codes 0..15 only. The decoding at jh7110_irq_dispatch.c:55 keeps only the low four bits of the code, so higher codes wrap onto low numbers. `Dispatch.DecodeKeepsOnlyEdgeBits` states the folding, and `Dispatch.Exception19DecodesAs3` gives an example. This is not listed as a finding, because the kernel numbering gives exceptions only 0..15 and starts interrupts at RISCV_IRQ_ASYNC = 16, so there is no number a higher code could map to.
- Dispatch.DispatchExternal requires the id to stay below 2^31 - RISCV_IRQ_EXT.
  - Above that, `irq += val` overflows the 32-bit `int`.
  - The model keeps the wrap-around through `Dispatch.Int32` in `Dispatch.DispatchIrq`.
  - `Dispatch.AsWrittenWrapLeavesClaimOpen` states what then happens. The wrapped number falls below RISCV_IRQ_EXT and is handed to the kernel. For example, id 2^32 - 1 is delivered as 24. The `irq >= RISCV_IRQ_EXT` test at line 89 then fails, so no completion is written and the claimed source stays open.
  - `Dispatch.CompletionUndoesOffset` is the arithmetic round trip only. The code as written does not reach the completion in the wrapping case.
  - Real PLICs have at most 1023 sources, so this is not listed as a finding.

The bit-20 fallback (jh7110_irq_dispatch.c:69-71) bends the claim/complete rule of the RISC-V PLIC Specification. That rule says a completion writes back the id the claim returned. When the fallback fires, the code claims 0 and completes 20. The model keeps what the code does. `Dispatch.FixedCompletesClaimedId` states the value actually written.

## Findings

| source | as written | input that shows it | evidently intended | confidence | as-written member | corrected member |
|---|---|---|---|---|---|---|
| arch/risc-v/src/jh7110/jh7110_irq_dispatch.c:89-94 | A completion is written whenever the resolved number is at least RISCV_IRQ_EXT. Interrupt causes 10 to 15 decode to 26-31 without any claim, and they are completed too. | Interrupt cause 13 (scause 0x800000000000000D) is delivered as 29 and writes completion 4 to the claim register, though nothing was claimed. | Complete only what was claimed: write the completion exactly when the cause decoded to RISCV_IRQ_EXT. | not executed; the cause is reachable only on harts that raise local interrupts above 9, such as counter overflow | Dispatch.AsWrittenCompletesUnclaimed, Dispatch.AsWrittenCause13 | Dispatch.DispatchIrqFixed, Dispatch.FixedBalanced |
