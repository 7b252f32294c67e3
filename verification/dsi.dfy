/**
  Low-power command transmission on the Allwinner A64 MIPI DSI controller
  (a64_mipi_dsi_write and a64_wait_dsi_transmit), and the register layout
  and field values that a64_mipi_dsi_enable programs.

  A DCS command is sent by composing a DSI packet, copying it four bytes at
  a time into the low-power transmit window, writing the packet size,
  selecting the low-power instruction sequence, restarting instruction
  processing and polling until the controller drops `Instru_En`.
*/
module Dsi {
  import opened Bits
  import opened Mmio

  // Display Command Set data types used by the driver (MIPI DSI).
  const MIPI_DSI_DCS_SHORT_WRITE: bv8 := 0x05
  const MIPI_DSI_DCS_SHORT_WRITE_PARAM: bv8 := 0x15
  const MIPI_DSI_DCS_LONG_WRITE: bv8 := 0x39

  // Controller registers.
  const DSI_BASE_ADDRESS: int := 0x01CA_0000
  const DSI_BASIC_CTL0_REG: int := DSI_BASE_ADDRESS + 0x10
  const DSI_INST_JUMP_SEL_REG: int := DSI_BASE_ADDRESS + 0x48
  const DSI_CMD_CTL_REG: int := DSI_BASE_ADDRESS + 0x200
  const DSI_CMD_TX_REG: int := DSI_BASE_ADDRESS + 0x300
  /** The last word of the low-power transmit window. */
  const DSI_CMD_TX_LAST: int := DSI_BASE_ADDRESS + 0x3FC

  /** Instru_En, bit 0 of DSI_BASIC_CTL0_REG: the controller is running its instructions. */
  const INSTRU_EN: bv32 := 0x1

  /** RX_Overflow (bit 26), RX_Flag (bit 25) and TX_Flag (bit 9) of DSI_CMD_CTL_REG, all others 0. */
  const CMD_CTL_CLEAR_FLAGS: bv32 := 0x0600_0200

  /** Mask of TX_Size, bits 0 to 7 of DSI_CMD_CTL_REG. */
  const TX_SIZE_MASK: bv32 := 0xFF

  /** The size of the driver's packet buffer. */
  const PACKET_BUFFER_SIZE: int := 128

  /** How many times a64_wait_dsi_transmit polls before giving up. */
  const POLL_LIMIT: nat := 5000

  // The instruction-register macros. The driver only ever passes them literal
  // instruction numbers, so they are modelled as functions of that number.

  function InstFuncReg(n: int): int {
    DSI_BASE_ADDRESS + (0x020 + n * 0x04)
  }

  function InstJumpCfgReg(n: int): int {
    DSI_BASE_ADDRESS + (0x04c + n * 0x04)
  }

  function InstLoopNumReg(n: int): int {
    DSI_BASE_ADDRESS + (0x044 + n * 0x10)
  }

  // The packet and the packer.

  /**
    What the packet composer (mipi_dsi_short_packet or
    mipi_dsi_long_packet) hands back: the packet length, negative on error,
    and the contents of the driver's zero-filled buffer.
  */
  datatype Packet = Packet(len: int, bytes: seq<bv8>)

  /**
    Byte `i` of the packet as the packer fetches it: 0 at and beyond the
    packet length, and 0 past the end of the driver's PACKET_BUFFER_SIZE-byte buffer.
  */
  function Byte(p: Packet, i: int): bv8 {
    if 0 <= i < p.len && i < PACKET_BUFFER_SIZE && i < |p.bytes| then p.bytes[i] else 0
  }

  /** The little-endian word of four bytes: `b0` lowest, `b3` highest. */
  function Word(b0: bv8, b1: bv8, b2: bv8, b3: bv8): bv32 {
    (b0 as bv32) + ((b1 as bv32) << 8) + ((b2 as bv32) << 16) + ((b3 as bv32) << 24)
  }

  /** The four bytes of a word, least significant first. */
  function Lanes(w: bv32): seq<bv8> {
    [(w & 0xFF) as bv8, ((w >> 8) & 0xFF) as bv8, ((w >> 16) & 0xFF) as bv8, ((w >> 24) & 0xFF) as bv8]
  }

  /** Word `k` of the packet: bytes 4k to 4k+3, little-endian. */
  function WordAt(p: Packet, k: int): bv32 {
    Word(Byte(p, 4 * k), Byte(p, 4 * k + 1), Byte(p, 4 * k + 2), Byte(p, 4 * k + 3))
  }

  /** The number of words a packet of `n` bytes takes: n / 4 rounded up. */
  function NumWords(n: int): nat {
    if n <= 0 then 0 else (n + 3) / 4
  }

  /** Packs the packet four bytes per word, starting at byte `i`, until the packet length is reached. */
  function Pack(p: Packet, i: nat): (words: seq<bv32>)
    requires i % 4 == 0
    ensures |words| == NumWords(p.len - i)
    ensures forall k :: 0 <= k < |words| ==> words[k] == WordAt(p, i / 4 + k)
    decreases p.len - i
  {
    if p.len <= i then []
    else [Word(Byte(p, i), Byte(p, i + 1), Byte(p, i + 2), Byte(p, i + 3))] + Pack(p, i + 4)
  }

  lemma LanesOfWordRaw(b0: bv8, b1: bv8, b2: bv8, b3: bv8)
    ensures (((b0 as bv32) + ((b1 as bv32) << 8) + ((b2 as bv32) << 16) + ((b3 as bv32) << 24)) & 0xFF) as bv8 == b0
    ensures ((((b0 as bv32) + ((b1 as bv32) << 8) + ((b2 as bv32) << 16) + ((b3 as bv32) << 24)) >> 8) & 0xFF) as bv8 == b1
    ensures ((((b0 as bv32) + ((b1 as bv32) << 8) + ((b2 as bv32) << 16) + ((b3 as bv32) << 24)) >> 16) & 0xFF) as bv8 == b2
    ensures ((((b0 as bv32) + ((b1 as bv32) << 8) + ((b2 as bv32) << 16) + ((b3 as bv32) << 24)) >> 24) & 0xFF) as bv8 == b3
  {}

  /** Unpacking a packed word gives back its four bytes in order. */
  lemma LanesOfWord(b0: bv8, b1: bv8, b2: bv8, b3: bv8)
    ensures Lanes(Word(b0, b1, b2, b3)) == [b0, b1, b2, b3]
  {
    LanesOfWordRaw(b0, b1, b2, b3);
  }

  lemma WordOfLanesRaw(w: bv32)
    ensures ((w & 0xFF) as bv8 as bv32) + ((((w >> 8) & 0xFF) as bv8 as bv32) << 8)
      + ((((w >> 16) & 0xFF) as bv8 as bv32) << 16) + ((((w >> 24) & 0xFF) as bv8 as bv32) << 24) == w
  {}

  /** Packing the four bytes of a word gives back the word. */
  lemma WordOfLanes(w: bv32)
    ensures var b := Lanes(w); Word(b[0], b[1], b[2], b[3]) == w
  {
    WordOfLanesRaw(w);
  }

  /** The lanes of packed word `q` are packet bytes `4q` to `4q + 3`. */
  lemma PackLanes(p: Packet, q: int)
    requires 0 <= q < NumWords(p.len)
    ensures Lanes(Pack(p, 0)[q]) == [Byte(p, 4 * q), Byte(p, 4 * q + 1), Byte(p, 4 * q + 2), Byte(p, 4 * q + 3)]
  {
    assert Pack(p, 0)[q] == WordAt(p, q);
    LanesOfWord(Byte(p, 4 * q), Byte(p, 4 * q + 1), Byte(p, 4 * q + 2), Byte(p, 4 * q + 3));
  }

  /**
    Byte `i` of the packet travels in lane `i % 4` of word `i / 4`; the
    lanes past the packet length, or past the packet buffer, carry 0.
  */
  lemma PackCarriesEveryByte(p: Packet, i: int)
    requires 0 <= i < 4 * NumWords(p.len)
    ensures Lanes(Pack(p, 0)[i / 4])[i % 4] == Byte(p, i)
    ensures i >= p.len ==> Lanes(Pack(p, 0)[i / 4])[i % 4] == 0
    ensures i >= PACKET_BUFFER_SIZE ==> Lanes(Pack(p, 0)[i / 4])[i % 4] == 0
  {
    var q, r := i / 4, i % 4;
    PackLanes(p, q);
    assert i == 4 * q + r;
    if r == 0 {
    } else if r == 1 {
    } else if r == 2 {
    } else {
      assert r == 3;
    }
  }

  // The poll loop.

  /** Whether a read of DSI_BASIC_CTL0_REG shows the controller idle (`Instru_En` clear). */
  predicate Idle(ctl0: bv32) {
    !Has32(ctl0, INSTRU_EN)
  }

  /**
    The poll at which the loop stops, from poll `i` on: the first whose
    sample shows the controller idle, or POLL_LIMIT if none before it does.
    `sample(j)` is what the controller answers to poll `j`.
  */
  function FirstIdle(sample: nat -> bv32, i: nat): (r: nat)
    requires i <= POLL_LIMIT
    ensures i <= r <= POLL_LIMIT
    ensures forall j :: i <= j < r ==> !Idle(sample(j))
    ensures r < POLL_LIMIT ==> Idle(sample(r))
    decreases POLL_LIMIT - i
  {
    if i == POLL_LIMIT then i
    else if Idle(sample(i)) then i
    else FirstIdle(sample, i + 1)
  }

  /** The outcome of a64_wait_dsi_transmit: its return value and how many polls it made. */
  datatype Wait = Wait(ret: int, polls: nat)

  /** a64_wait_dsi_transmit: 0 after the first idle poll, -1 after POLL_LIMIT busy ones. */
  function WaitTransmit(sample: nat -> bv32): (w: Wait)
    ensures w.ret == 0 <==> exists j :: 0 <= j < POLL_LIMIT && Idle(sample(j))
    ensures w.ret == 0 || w.ret == -1
    ensures w.ret == 0 ==> 1 <= w.polls <= POLL_LIMIT && Idle(sample(w.polls - 1))
    ensures w.ret == 0 ==> forall j :: 0 <= j < w.polls - 1 ==> !Idle(sample(j))
    ensures w.ret == -1 ==> w.polls == POLL_LIMIT && forall j :: 0 <= j < POLL_LIMIT ==> !Idle(sample(j))
  {
    var r := FirstIdle(sample, 0);
    if r < POLL_LIMIT then Wait(0, r + 1) else Wait(-1, POLL_LIMIT)
  }

  /** The polls themselves: one sampled read of DSI_BASIC_CTL0_REG each. */
  function PollOps(sample: nat -> bv32, n: nat): (ops: seq<Op>)
    ensures |ops| == n
    ensures forall k :: 0 <= k < n ==> ops[k] == Sample(DSI_BASIC_CTL0_REG, sample(k))
  {
    if n == 0 then [] else PollOps(sample, n - 1) + [Sample(DSI_BASIC_CTL0_REG, sample(n - 1))]
  }

  // The write.

  /** A packet composer: channel, data type, payload, payload length. */
  type Composer = (bv8, bv8, seq<bv8>, int) -> Packet

  /** An unsigned 64-bit size, as `size_t`. */
  type Size = x: int | 0 <= x < 0x1_0000_0000_0000_0000

  /** Conversion of a `size_t` to the `ssize_t` the driver returns. */
  function Signed(n: Size): (r: int)
    ensures n < 0x8000_0000_0000_0000 ==> r == n
    ensures n >= 0x8000_0000_0000_0000 ==> r == n - 0x1_0000_0000_0000_0000
  {
    if n < 0x8000_0000_0000_0000 then n else n - 0x1_0000_0000_0000_0000
  }

  /** The argument check: a short write carries 1 byte, a short write with parameter 2. */
  predicate LengthValid(cmd: bv8, txlen: Size) {
    (cmd == MIPI_DSI_DCS_SHORT_WRITE ==> txlen == 1)
    && (cmd == MIPI_DSI_DCS_SHORT_WRITE_PARAM ==> txlen == 2)
  }

  /** The packet for `cmd`: the long composer for a long write, the short one for either short write, length -1 otherwise. */
  function Compose(channel: bv8, cmd: bv8, txbuf: seq<bv8>, txlen: Size,
                   longPacket: Composer, shortPacket: Composer): Packet
  {
    if cmd == MIPI_DSI_DCS_LONG_WRITE then longPacket(channel, cmd, txbuf, txlen)
    else if cmd == MIPI_DSI_DCS_SHORT_WRITE || cmd == MIPI_DSI_DCS_SHORT_WRITE_PARAM then
      shortPacket(channel, cmd, txbuf, txlen)
    else Packet(-1, seq(PACKET_BUFFER_SIZE, _ => 0))
  }

  /** One `modreg32(v, 0xFFFFFFFF, addr)` per word, at consecutive word addresses from `addr`. */
  function TxOps(words: seq<bv32>, addr: int): (ops: seq<Op>)
    ensures |ops| == |words|
    decreases |words|
  {
    if |words| == 0 then []
    else [ModReg32(words[0], 0xFFFF_FFFF, addr)] + TxOps(words[1..], addr + 4)
  }

  /**
    The low byte of `pktlen - 1`, the TX_Size field. modreg32 masks its
    value with 0xFF, so this byte is all of `pktlen - 1` that reaches the register.
  */
  function TxSize(pktlen: int): bv8 {
    ByteValue((pktlen - 1) % 256)
  }

  /** Selects the LP11 → LPDT → END instruction sequence: LPDT in the LP11 slot, END in the LPDT slot. */
  const JUMP_SEL_LPTX: bv32 := Field(4, 4 * 0) | Field(15, 4 * 4)

  /**
    What the controller answers to the reads of the write's read-modify-writes:
    DSI_CMD_CTL_REG at the TX_Size update, then DSI_BASIC_CTL0_REG when
    processing is stopped, when it is restarted, and when it is stopped after
    a timeout. Both registers hold bits the controller sets and clears itself,
    so these reads need not return what the driver last stored.
  */
  datatype Answers = Answers(cmdCtl: bv32, stop: bv32, restart: bv32, timeoutStop: bv32)

  lemma ClearEnableRaw(x: bv32)
    ensures ((x & !1) | (0 & 1)) & 1 == 0
    ensures ((x & !1) | (0 & 1)) & !1 == x & !1
  {}

  lemma SetEnableRaw(x: bv32)
    ensures ((x & !1) | (1 & 1)) & 1 != 0
    ensures ((x & !1) | (1 & 1)) & !1 == x & !1
  {}

  /**
    a64_disable_dsi_processing, when DSI_BASIC_CTL0_REG reads `found`: it
    stores `found` with Instru_En cleared and every other bit kept.
  */
  function DisableProcessing(found: bv32): (op: Op)
    ensures op.Answered? && op.addr == DSI_BASIC_CTL0_REG && op.found == found
    ensures Idle(Updated(op, found))
    ensures Clear32(Updated(op, found), INSTRU_EN) == Clear32(found, INSTRU_EN)
  {
    ClearEnableRaw(found);
    ModReg32Answered(0, INSTRU_EN, DSI_BASIC_CTL0_REG, found)
  }

  /**
    a64_enable_dsi_processing, when DSI_BASIC_CTL0_REG reads `found`: it
    stores `found` with Instru_En set and every other bit kept.
  */
  function EnableProcessing(found: bv32): (op: Op)
    ensures op.Answered? && op.addr == DSI_BASIC_CTL0_REG && op.found == found
    ensures !Idle(Updated(op, found))
    ensures Clear32(Updated(op, found), INSTRU_EN) == Clear32(found, INSTRU_EN)
  {
    SetEnableRaw(found);
    ModReg32Answered(INSTRU_EN, INSTRU_EN, DSI_BASIC_CTL0_REG, found)
  }

  /** Clear the transfer flags, then copy the packet into the transmit window. */
  function LoadOps(p: Packet): seq<Op>
    requires p.len >= 0
  {
    [Put(DSI_CMD_CTL_REG, CMD_CTL_CLEAR_FLAGS)] + TxOps(Pack(p, 0), DSI_CMD_TX_REG)
  }

  /** Write TX_Size, select the low-power transmit instructions, and restart instruction processing. */
  function StartOps(p: Packet, ans: Answers): seq<Op>
    requires p.len >= 0
  {
    [ModReg32Answered(TxSize(p.len) as bv32, TX_SIZE_MASK, DSI_CMD_CTL_REG, ans.cmdCtl),
     Put(DSI_INST_JUMP_SEL_REG, JUMP_SEL_LPTX),
     DisableProcessing(ans.stop),
     EnableProcessing(ans.restart)]
  }

  /** Poll for the end of the transmission, and stop processing if it never ends. */
  function FinishOps(sample: nat -> bv32, w: Wait, ans: Answers): seq<Op> {
    PollOps(sample, w.polls) + (if w.ret < 0 then [DisableProcessing(ans.timeoutStop)] else [])
  }

  /** The whole register program of a transmission that got past composition. */
  function TransmitOps(p: Packet, sample: nat -> bv32, w: Wait, ans: Answers): seq<Op>
    requires p.len >= 0
  {
    LoadOps(p) + StartOps(p, ans) + FinishOps(sample, w, ans)
  }

  /** What a64_mipi_dsi_write returns, and what it did to the controller. */
  datatype WriteResult = WriteResult(ret: int, bus: seq<Access>, regs: RegFile)

  /**
    a64_mipi_dsi_write with assertions compiled out. `rf` is the controller
    before the call, the composers stand for mipi_dsi_long_packet and
    mipi_dsi_short_packet, and `sample(j)` is what DSI_BASIC_CTL0_REG
    answers to poll `j`. `ans` holds what the controller answers to the
    reads of the read-modify-writes; `regs` holds what the driver last
    stored to each register.
  */
  function MipiDsiWrite(rf: RegFile, channel: bv8, cmd: bv8, txbuf: seq<bv8>, txlen: Size,
                        longPacket: Composer, shortPacket: Composer, sample: nat -> bv32, ans: Answers): (r: WriteResult)
    // A short write with the wrong length is refused before any register access.
    ensures (cmd == MIPI_DSI_DCS_SHORT_WRITE && txlen != 1) || (cmd == MIPI_DSI_DCS_SHORT_WRITE_PARAM && txlen != 2)
      ==> r.ret == -1 && r.bus == [] && r.regs == rf
    // Any other command is refused with -1, as the composer is never called.
    ensures cmd != MIPI_DSI_DCS_SHORT_WRITE && cmd != MIPI_DSI_DCS_SHORT_WRITE_PARAM && cmd != MIPI_DSI_DCS_LONG_WRITE
      ==> r.ret == -1 && r.bus == [] && r.regs == rf
    // A composer error is passed back unchanged.
    ensures LengthValid(cmd, txlen) && Compose(channel, cmd, txbuf, txlen, longPacket, shortPacket).len < 0
      ==> r.ret == Compose(channel, cmd, txbuf, txlen, longPacket, shortPacket).len && r.bus == [] && r.regs == rf
    // Otherwise: `txlen` as `ssize_t` if some poll within the limit sees the controller idle, -1 if none does.
    ensures LengthValid(cmd, txlen) && Compose(channel, cmd, txbuf, txlen, longPacket, shortPacket).len >= 0
      ==> r.ret == if exists j :: 0 <= j < POLL_LIMIT && Idle(sample(j)) then Signed(txlen) else -1
  {
    if !LengthValid(cmd, txlen) then WriteResult(-1, [], rf)
    else
      var p := Compose(channel, cmd, txbuf, txlen, longPacket, shortPacket);
      if p.len < 0 then WriteResult(p.len, [], rf)
      else
        var w := WaitTransmit(sample);
        var ops := TransmitOps(p, sample, w, ans);
        WriteResult(if w.ret < 0 then w.ret else Signed(txlen), Run(rf, ops), After(rf, ops))
  }

  // The transmit window.

  /** Every register the copy loop writes is a word of the window from `addr` on, one per word. */
  lemma {:induction false} TxOpsTouch(words: seq<bv32>, addr: int)
    ensures forall a :: a in Touches(TxOps(words, addr)) ==>
      addr <= a < addr + 4 * |words| && (a - addr) % 4 == 0
    decreases |words|
  {
    if |words| > 0 {
      var ops := TxOps(words, addr);
      assert ops[1..] == TxOps(words[1..], addr + 4);
      TxOpsTouch(words[1..], addr + 4);
    }
  }

  /** The last word goes to `addr + 4 * (|words| - 1)`. */
  lemma {:induction false} TxOpsTouchLast(words: seq<bv32>, addr: int)
    requires |words| > 0
    ensures addr + 4 * (|words| - 1) in Touches(TxOps(words, addr))
    decreases |words|
  {
    var ops := TxOps(words, addr);
    assert ops[1..] == TxOps(words[1..], addr + 4);
    if |words| > 1 {
      TxOpsTouchLast(words[1..], addr + 4);
    }
  }

  lemma FullMaskRaw(found: bv32, v: bv32)
    ensures (found & !0xFFFF_FFFF) | (v & 0xFFFF_FFFF) == v
  {}

  /** modreg32 with the full mask stores its value outright. */
  lemma FullMaskStores(v: bv32, addr: int, found: bv32)
    ensures Updated(ModReg32(v, 0xFFFF_FFFF, addr), found) == v
  {
    assert Select32(v, 0xFFFF_FFFF) == v & 0xFFFF_FFFF;
    assert Clear32(found, 0xFFFF_FFFF) == found & !0xFFFF_FFFF;
    FullMaskRaw(found, v);
  }

  /** After the copy loop, word register `k` of the window holds word `k`. */
  lemma {:induction false} TxOpsStore(rf: RegFile, words: seq<bv32>, addr: int)
    ensures forall k :: 0 <= k < |words| ==> Get(After(rf, TxOps(words, addr)), addr + 4 * k) == words[k]
    decreases |words|
  {
    if |words| > 0 {
      var first := ModReg32(words[0], 0xFFFF_FFFF, addr);
      var rest := TxOps(words[1..], addr + 4);
      assert TxOps(words, addr) == [first] + rest;
      AfterAppend(rf, [first], rest);
      var rf1 := After(rf, [first]);
      AfterOne(rf, first);
      FullMaskStores(words[0], addr, Get(rf, addr));
      GetStored(rf, addr, words[0]);
      TxOpsStore(rf1, words[1..], addr + 4);
      TxOpsTouch(words[1..], addr + 4);
      AfterFrame(rf1, rest, addr);
      forall k | 1 <= k < |words|
        ensures Get(After(rf1, rest), addr + 4 * k) == words[k]
      {
        assert addr + 4 * k == (addr + 4) + 4 * (k - 1);
        assert words[1..][k - 1] == words[k];
      }
    }
  }

  /**
    The copy loop stays inside the transmit window (up to DSI_CMD_TX_LAST)
    exactly when the packet is at most 256 bytes long.
  */
  lemma TxWindow(p: Packet)
    requires p.len >= 0
    ensures (forall a :: a in Touches(TxOps(Pack(p, 0), DSI_CMD_TX_REG)) ==> DSI_CMD_TX_REG <= a <= DSI_CMD_TX_LAST)
      <==> p.len <= 256
  {
    var words := Pack(p, 0);
    TxOpsTouch(words, DSI_CMD_TX_REG);
    if p.len > 256 {
      TxOpsTouchLast(words, DSI_CMD_TX_REG);
      assert |words| > 64;
    }
  }

  // The write, stage by stage.

  lemma {:induction false} PollOpsTouch(sample: nat -> bv32, n: nat)
    ensures Touches(PollOps(sample, n)) == {}
    decreases n
  {
    if n > 0 {
      var last := Sample(DSI_BASIC_CTL0_REG, sample(n - 1));
      PollOpsTouch(sample, n - 1);
      TouchesAppend(PollOps(sample, n - 1), [last]);
      assert [last][1..] == [];
    }
  }

  /** After the polls only DSI_BASIC_CTL0_REG may be written. */
  lemma FinishTouch(sample: nat -> bv32, w: Wait, ans: Answers)
    ensures Touches(FinishOps(sample, w, ans)) <= {DSI_BASIC_CTL0_REG}
  {
    var tail := if w.ret < 0 then [DisableProcessing(ans.timeoutStop)] else [];
    PollOpsTouch(sample, w.polls);
    TouchesAppend(PollOps(sample, w.polls), tail);
    if w.ret < 0 {
      TouchesOne(DisableProcessing(ans.timeoutStop));
    }
  }

  /** Starting writes DSI_CMD_CTL_REG, DSI_INST_JUMP_SEL_REG and DSI_BASIC_CTL0_REG only. */
  lemma StartTouch(p: Packet, ans: Answers)
    requires p.len >= 0
    ensures Touches(StartOps(p, ans)) == {DSI_CMD_CTL_REG, DSI_INST_JUMP_SEL_REG, DSI_BASIC_CTL0_REG}
  {
    var ops := StartOps(p, ans);
    TouchesTwo(ops[0], ops[1]);
    TouchesTwo(ops[2], ops[3]);
    TouchesAppend([ops[0], ops[1]], [ops[2], ops[3]]);
    assert ops == [ops[0], ops[1]] + [ops[2], ops[3]];
    TouchesOne(ops[0]);
    TouchesOne(ops[1]);
    TouchesOne(ops[2]);
    TouchesOne(ops[3]);
  }

  /** The register file after a transmission, stage by stage. */
  lemma TransmitStages(rf: RegFile, p: Packet, sample: nat -> bv32, w: Wait, ans: Answers)
    requires p.len >= 0
    ensures After(rf, TransmitOps(p, sample, w, ans)) == After(After(After(rf, LoadOps(p)), StartOps(p, ans)), FinishOps(sample, w, ans))
  {
    AfterAppend(rf, LoadOps(p) + StartOps(p, ans), FinishOps(sample, w, ans));
    AfterAppend(rf, LoadOps(p), StartOps(p, ans));
  }

  /** After loading, window word `k` holds packet word `k`. */
  lemma LoadFillsWindow(rf: RegFile, p: Packet)
    requires p.len >= 0
    ensures forall k :: 0 <= k < NumWords(p.len) ==> Get(After(rf, LoadOps(p)), DSI_CMD_TX_REG + 4 * k) == WordAt(p, k)
  {
    var first := Put(DSI_CMD_CTL_REG, CMD_CTL_CLEAR_FLAGS);
    var words := Pack(p, 0);
    AfterAppend(rf, [first], TxOps(words, DSI_CMD_TX_REG));
    TxOpsStore(After(rf, [first]), words, DSI_CMD_TX_REG);
    forall k | 0 <= k < NumWords(p.len)
      ensures words[k] == WordAt(p, k)
    {
      assert 0 / 4 + k == k;
    }
  }

  /** Starting leaves every register but the three it writes. */
  lemma StartKeeps(rf: RegFile, p: Packet, ans: Answers, a: int)
    requires p.len >= 0
    requires a != DSI_CMD_CTL_REG && a != DSI_INST_JUMP_SEL_REG && a != DSI_BASIC_CTL0_REG
    ensures Get(After(rf, StartOps(p, ans)), a) == Get(rf, a)
  {
    StartTouch(p, ans);
    AfterFrame(rf, StartOps(p, ans), a);
  }

  /** Finishing leaves every register but DSI_BASIC_CTL0_REG. */
  lemma FinishKeeps(rf: RegFile, sample: nat -> bv32, w: Wait, ans: Answers, a: int)
    requires a != DSI_BASIC_CTL0_REG
    ensures Get(After(rf, FinishOps(sample, w, ans)), a) == Get(rf, a)
  {
    FinishTouch(sample, w, ans);
    AfterFrame(rf, FinishOps(sample, w, ans), a);
  }

  /**
    After a transmission that got past composition, word register `k` of
    the transmit window holds packet word `k`, for every word of the packet.
  */
  lemma TransmitFillsWindow(rf: RegFile, p: Packet, sample: nat -> bv32, w: Wait, ans: Answers)
    requires p.len >= 0
    ensures forall k :: 0 <= k < NumWords(p.len) ==>
      Get(After(rf, TransmitOps(p, sample, w, ans)), DSI_CMD_TX_REG + 4 * k) == WordAt(p, k)
  {
    LoadFillsWindow(rf, p);
    forall k | 0 <= k < NumWords(p.len)
      ensures Get(After(rf, TransmitOps(p, sample, w, ans)), DSI_CMD_TX_REG + 4 * k) == WordAt(p, k)
    {
      TransmitKeepsStarted(rf, p, sample, w, ans, DSI_CMD_TX_REG + 4 * k);
      StartKeeps(After(rf, LoadOps(p)), p, ans, DSI_CMD_TX_REG + 4 * k);
    }
  }

  // TX_Size and Instru_En.

  /**
    After starting, TX_Size holds the packet size byte and the rest of
    DSI_CMD_CTL_REG is what the controller returned to the update's read.
  */
  lemma StartSetsSize(rf: RegFile, p: Packet, ans: Answers)
    requires p.len >= 0
    ensures Select32(Get(After(rf, StartOps(p, ans)), DSI_CMD_CTL_REG), TX_SIZE_MASK) == Select32(TxSize(p.len) as bv32, TX_SIZE_MASK)
    ensures Clear32(Get(After(rf, StartOps(p, ans)), DSI_CMD_CTL_REG), TX_SIZE_MASK) == Clear32(ans.cmdCtl, TX_SIZE_MASK)
  {
    var found := ans.cmdCtl;
    StartStoresSize(rf, p, ans);
    assert Updated(StartOps(p, ans)[0], found) == Updated(ModReg32(TxSize(p.len) as bv32, TX_SIZE_MASK, DSI_CMD_CTL_REG), found);
    ModReg32Masked(TxSize(p.len) as bv32, TX_SIZE_MASK, DSI_CMD_CTL_REG, found);
    ModReg32Keeps(TxSize(p.len) as bv32, TX_SIZE_MASK, DSI_CMD_CTL_REG, found);
  }

  /** After starting, DSI_CMD_CTL_REG holds what the TX_Size update stored, the later steps leaving it alone. */
  lemma StartStoresSize(rf: RegFile, p: Packet, ans: Answers)
    requires p.len >= 0
    ensures Get(After(rf, StartOps(p, ans)), DSI_CMD_CTL_REG) == Updated(StartOps(p, ans)[0], ans.cmdCtl)
  {
    var ops := StartOps(p, ans);
    var rest := ops[1..];
    assert ops == [ops[0]] + rest;
    AfterAppend(rf, [ops[0]], rest);
    AfterOne(rf, ops[0]);
    var rf1 := After(rf, [ops[0]]);
    GetStored(rf, DSI_CMD_CTL_REG, Updated(ops[0], ans.cmdCtl));
    TouchesTwo(rest[0], rest[1]);
    TouchesOne(rest[0]);
    TouchesOne(rest[1]);
    TouchesOne(rest[2]);
    TouchesAppend([rest[0], rest[1]], [rest[2]]);
    assert rest == [rest[0], rest[1]] + [rest[2]];
    AfterFrame(rf1, rest, DSI_CMD_CTL_REG);
  }

  lemma ByteUnderMaskRaw(b: bv8)
    ensures (b as bv32) & 0xFF == b as bv32
  {}

  lemma WidenByteRaw(b: bv8)
    ensures (b as bv32) as int == b as int
  {}

  /** The TX_Size field of a DSI_CMD_CTL_REG value, as a number. */
  function SizeField(ctl: bv32): int {
    Select32(ctl, TX_SIZE_MASK) as int
  }

  /** TX_Size reads back as `pktlen - 1` modulo 256. */
  lemma TxSizeReads(pktlen: int)
    ensures Select32(TxSize(pktlen) as bv32, TX_SIZE_MASK) == TxSize(pktlen) as bv32
    ensures SizeField(TxSize(pktlen) as bv32) == (pktlen - 1) % 256
  {
    ByteUnderMaskRaw(TxSize(pktlen));
    WidenByteRaw(TxSize(pktlen));
    ByteValueIs((pktlen - 1) % 256);
  }

  /** Outside DSI_BASIC_CTL0_REG, a transmission leaves what loading and starting left. */
  lemma TransmitKeepsStarted(rf: RegFile, p: Packet, sample: nat -> bv32, w: Wait, ans: Answers, a: int)
    requires p.len >= 0
    requires a != DSI_BASIC_CTL0_REG
    ensures Get(After(rf, TransmitOps(p, sample, w, ans)), a) == Get(After(After(rf, LoadOps(p)), StartOps(p, ans)), a)
  {
    TransmitStages(rf, p, sample, w, ans);
    FinishKeeps(After(After(rf, LoadOps(p)), StartOps(p, ans)), sample, w, ans, a);
  }

  /** Starting writes TX_Size over what the controller returned, and finishing leaves DSI_CMD_CTL_REG alone. */
  lemma TransmitCmdCtl(rf: RegFile, p: Packet, sample: nat -> bv32, w: Wait, ans: Answers)
    requires p.len >= 0
    ensures Select32(Get(After(rf, TransmitOps(p, sample, w, ans)), DSI_CMD_CTL_REG), TX_SIZE_MASK) == TxSize(p.len) as bv32
    ensures Clear32(Get(After(rf, TransmitOps(p, sample, w, ans)), DSI_CMD_CTL_REG), TX_SIZE_MASK) == Clear32(ans.cmdCtl, TX_SIZE_MASK)
  {
    var rf1 := After(rf, LoadOps(p));
    var v := Get(After(rf, TransmitOps(p, sample, w, ans)), DSI_CMD_CTL_REG);
    assert v == Get(After(rf1, StartOps(p, ans)), DSI_CMD_CTL_REG) by {
      TransmitKeepsStarted(rf, p, sample, w, ans, DSI_CMD_CTL_REG);
    }
    StartSetsSize(rf1, p, ans);
    TxSizeReads(p.len);
  }

  /** Starting leaves Instru_En set: processing was restarted last. */
  lemma StartEnables(rf: RegFile, p: Packet, ans: Answers)
    requires p.len >= 0
    ensures !Idle(Get(After(rf, StartOps(p, ans)), DSI_BASIC_CTL0_REG))
  {
    var ops := StartOps(p, ans);
    var front := ops[..3];
    assert ops == front + [ops[3]];
    AfterAppend(rf, front, [ops[3]]);
    var rf1 := After(rf, front);
    AfterOne(rf1, ops[3]);
    GetStored(rf1, DSI_BASIC_CTL0_REG, Updated(ops[3], ans.restart));
  }

  /** Stopping processing leaves Instru_En clear, whatever the controller returned to the read. */
  lemma StopClears(rf: RegFile, found: bv32)
    ensures Idle(Get(After(rf, [DisableProcessing(found)]), DSI_BASIC_CTL0_REG))
  {
    var op := DisableProcessing(found);
    AfterOne(rf, op);
    GetStored(rf, DSI_BASIC_CTL0_REG, Updated(op, found));
  }

  /** Polling alone changes no register. */
  lemma PollsKeep(rf: RegFile, sample: nat -> bv32, n: nat, a: int)
    ensures Get(After(rf, PollOps(sample, n)), a) == Get(rf, a)
  {
    PollOpsTouch(sample, n);
    AfterFrame(rf, PollOps(sample, n), a);
  }

  /** Finishing stops processing exactly when the polls time out. */
  lemma FinishInstruEn(rf: RegFile, sample: nat -> bv32, w: Wait, ans: Answers)
    requires !Idle(Get(rf, DSI_BASIC_CTL0_REG))
    ensures Idle(Get(After(rf, FinishOps(sample, w, ans)), DSI_BASIC_CTL0_REG)) <==> w.ret < 0
  {
    var polls := PollOps(sample, w.polls);
    var tail := if w.ret < 0 then [DisableProcessing(ans.timeoutStop)] else [];
    AfterAppend(rf, polls, tail);
    PollsKeep(rf, sample, w.polls, DSI_BASIC_CTL0_REG);
    if w.ret < 0 {
      StopClears(After(rf, polls), ans.timeoutStop);
    } else {
      assert After(After(rf, polls), tail) == After(rf, polls);
    }
  }

  /**
    As the driver last wrote it, Instru_En is clear after a transmission
    exactly when the transmission timed out: the driver restarts
    processing, and stops it again only on a timeout.
  */
  lemma TransmitInstruEn(rf: RegFile, p: Packet, sample: nat -> bv32, w: Wait, ans: Answers)
    requires p.len >= 0
    ensures Idle(Get(After(rf, TransmitOps(p, sample, w, ans)), DSI_BASIC_CTL0_REG)) <==> w.ret < 0
  {
    TransmitStages(rf, p, sample, w, ans);
    var rf2 := After(After(rf, LoadOps(p)), StartOps(p, ans));
    StartEnables(After(rf, LoadOps(p)), p, ans);
    FinishInstruEn(rf2, sample, w, ans);
  }

  // The write as a whole.

  // The accesses to DSI_CMD_CTL_REG.

  /** Copy-loop write `k` goes to word `k` of the window from `addr`. */
  lemma {:induction false} TxOpsAddresses(words: seq<bv32>, addr: int)
    ensures forall k :: 0 <= k < |words| ==> TxOps(words, addr)[k].addr == addr + 4 * k
    decreases |words|
  {
    if |words| > 0 {
      TxOpsAddresses(words[1..], addr + 4);
      var ops := TxOps(words, addr);
      forall k | 1 <= k < |words|
        ensures ops[k].addr == addr + 4 * k
      {
        assert ops[k] == TxOps(words[1..], addr + 4)[k - 1];
      }
    }
  }

  /** Loading accesses DSI_CMD_CTL_REG once, to store the cleared flags. */
  lemma LoadCmdCtl(rf: RegFile, p: Packet)
    requires p.len >= 0
    ensures On(Run(rf, LoadOps(p)), DSI_CMD_CTL_REG) == [Store(DSI_CMD_CTL_REG, CMD_CTL_CLEAR_FLAGS)]
  {
    var tx := TxOps(Pack(p, 0), DSI_CMD_TX_REG);
    var head := [Store(DSI_CMD_CTL_REG, CMD_CTL_CLEAR_FLAGS)];
    RunPut(rf, DSI_CMD_CTL_REG, CMD_CTL_CLEAR_FLAGS, tx);
    TxOpsAddresses(Pack(p, 0), DSI_CMD_TX_REG);
    RunAvoids(rf[DSI_CMD_CTL_REG := CMD_CTL_CLEAR_FLAGS], tx, DSI_CMD_CTL_REG);
    OnAppend(head, Run(rf[DSI_CMD_CTL_REG := CMD_CTL_CLEAR_FLAGS], tx), DSI_CMD_CTL_REG);
    OnOnly(head, DSI_CMD_CTL_REG);
  }

  /** Starting accesses DSI_CMD_CTL_REG twice: the TX_Size update's read, answered by the controller, and its write-back. */
  lemma StartCmdCtl(rf: RegFile, p: Packet, ans: Answers)
    requires p.len >= 0
    ensures On(Run(rf, StartOps(p, ans)), DSI_CMD_CTL_REG)
      == [Load(DSI_CMD_CTL_REG, ans.cmdCtl), Store(DSI_CMD_CTL_REG, Updated(StartOps(p, ans)[0], ans.cmdCtl))]
  {
    var ops := StartOps(p, ans);
    var head := Exec(rf, ops[0]);
    AfterUnfold(rf, ops);
    OnOnly(head, DSI_CMD_CTL_REG);
    RunAvoids(Replay(rf, head), ops[1..], DSI_CMD_CTL_REG);
    OnAppend(head, Run(Replay(rf, head), ops[1..]), DSI_CMD_CTL_REG);
  }

  /** Finishing never accesses DSI_CMD_CTL_REG. */
  lemma FinishCmdCtl(rf: RegFile, sample: nat -> bv32, w: Wait, ans: Answers)
    ensures On(Run(rf, FinishOps(sample, w, ans)), DSI_CMD_CTL_REG) == []
  {
    var ops := FinishOps(sample, w, ans);
    var polls := PollOps(sample, w.polls);
    forall k | 0 <= k < |ops|
      ensures ops[k].addr != DSI_CMD_CTL_REG
    {
      if k < |polls| {
        assert ops[k] == polls[k];
      }
    }
    RunAvoids(rf, ops, DSI_CMD_CTL_REG);
  }

  /** A transmission accesses DSI_CMD_CTL_REG exactly three times. */
  lemma TransmitCmdCtlTrace(rf: RegFile, p: Packet, sample: nat -> bv32, w: Wait, ans: Answers)
    requires p.len >= 0
    ensures On(Run(rf, TransmitOps(p, sample, w, ans)), DSI_CMD_CTL_REG)
      == [Store(DSI_CMD_CTL_REG, CMD_CTL_CLEAR_FLAGS), Load(DSI_CMD_CTL_REG, ans.cmdCtl),
          Store(DSI_CMD_CTL_REG, Updated(StartOps(p, ans)[0], ans.cmdCtl))]
  {
    var load := LoadOps(p);
    var rf1 := After(rf, load);
    var rf2 := After(rf1, StartOps(p, ans));
    RunAppend(rf, load + StartOps(p, ans), FinishOps(sample, w, ans));
    RunAppend(rf, load, StartOps(p, ans));
    AfterAppend(rf, load, StartOps(p, ans));
    OnAppend(Run(rf, load) + Run(rf1, StartOps(p, ans)), Run(rf2, FinishOps(sample, w, ans)), DSI_CMD_CTL_REG);
    OnAppend(Run(rf, load), Run(rf1, StartOps(p, ans)), DSI_CMD_CTL_REG);
    LoadCmdCtl(rf, p);
    StartCmdCtl(rf1, p, ans);
    FinishCmdCtl(rf2, sample, w, ans);
  }

  /** The first thing a transmission does is store the cleared flags to DSI_CMD_CTL_REG. */
  lemma LoadStartsWithFlags(rf: RegFile, p: Packet)
    requires p.len >= 0
    ensures |Run(rf, LoadOps(p))| > 0
    ensures Run(rf, LoadOps(p))[0] == Store(DSI_CMD_CTL_REG, CMD_CTL_CLEAR_FLAGS)
  {
    RunPut(rf, DSI_CMD_CTL_REG, CMD_CTL_CLEAR_FLAGS, TxOps(Pack(p, 0), DSI_CMD_TX_REG));
  }

  /** The first thing a transmission does is store the cleared flags to DSI_CMD_CTL_REG. */
  lemma TransmitStartsWithFlags(rf: RegFile, p: Packet, sample: nat -> bv32, w: Wait, ans: Answers)
    requires p.len >= 0
    ensures |Run(rf, TransmitOps(p, sample, w, ans))| > 0
    ensures Run(rf, TransmitOps(p, sample, w, ans))[0] == Store(DSI_CMD_CTL_REG, CMD_CTL_CLEAR_FLAGS)
  {
    var load := LoadOps(p);
    RunAppend(rf, load + StartOps(p, ans), FinishOps(sample, w, ans));
    RunAppend(rf, load, StartOps(p, ans));
    LoadStartsWithFlags(rf, p);
  }

  /** Past the checks, the write is its transmission program. */
  lemma WriteIsTransmit(rf: RegFile, channel: bv8, cmd: bv8, txbuf: seq<bv8>, txlen: Size,
                        longPacket: Composer, shortPacket: Composer, sample: nat -> bv32, ans: Answers)
    requires LengthValid(cmd, txlen)
    requires Compose(channel, cmd, txbuf, txlen, longPacket, shortPacket).len >= 0
    ensures var p := Compose(channel, cmd, txbuf, txlen, longPacket, shortPacket);
      var r := MipiDsiWrite(rf, channel, cmd, txbuf, txlen, longPacket, shortPacket, sample, ans);
      r.regs == After(rf, TransmitOps(p, sample, WaitTransmit(sample), ans))
      && r.bus == Run(rf, TransmitOps(p, sample, WaitTransmit(sample), ans))
  {}

  /** Past the checks, each register ends as the transmission program leaves it. */
  lemma WriteRegister(rf: RegFile, channel: bv8, cmd: bv8, txbuf: seq<bv8>, txlen: Size,
                      longPacket: Composer, shortPacket: Composer, sample: nat -> bv32, ans: Answers, a: int)
    requires LengthValid(cmd, txlen)
    requires Compose(channel, cmd, txbuf, txlen, longPacket, shortPacket).len >= 0
    ensures Get(MipiDsiWrite(rf, channel, cmd, txbuf, txlen, longPacket, shortPacket, sample, ans).regs, a)
      == Get(After(rf, TransmitOps(Compose(channel, cmd, txbuf, txlen, longPacket, shortPacket), sample, WaitTransmit(sample), ans)), a)
  {
    WriteIsTransmit(rf, channel, cmd, txbuf, txlen, longPacket, shortPacket, sample, ans);
  }

  /**
    The write reaches the controller exactly when the length check passes
    and the packet composes, and then it begins by clearing the flags.
  */
  lemma WriteReachesController(rf: RegFile, channel: bv8, cmd: bv8, txbuf: seq<bv8>, txlen: Size,
                               longPacket: Composer, shortPacket: Composer, sample: nat -> bv32, ans: Answers)
    ensures var r := MipiDsiWrite(rf, channel, cmd, txbuf, txlen, longPacket, shortPacket, sample, ans);
      |r.bus| > 0 <==> LengthValid(cmd, txlen) && Compose(channel, cmd, txbuf, txlen, longPacket, shortPacket).len >= 0
    ensures var r := MipiDsiWrite(rf, channel, cmd, txbuf, txlen, longPacket, shortPacket, sample, ans);
      |r.bus| > 0 ==> r.bus[0] == Store(DSI_CMD_CTL_REG, CMD_CTL_CLEAR_FLAGS)
  {
    if LengthValid(cmd, txlen) {
      var p := Compose(channel, cmd, txbuf, txlen, longPacket, shortPacket);
      if p.len >= 0 {
        WriteIsTransmit(rf, channel, cmd, txbuf, txlen, longPacket, shortPacket, sample, ans);
        TransmitStartsWithFlags(rf, p, sample, WaitTransmit(sample), ans);
      }
    }
  }

  /** After a transmission, word `k` of the transmit window holds bytes `4k` to `4k + 3` of the packet, little-endian. */
  lemma WriteFillsWindow(rf: RegFile, channel: bv8, cmd: bv8, txbuf: seq<bv8>, txlen: Size,
                         longPacket: Composer, shortPacket: Composer, sample: nat -> bv32, ans: Answers)
    requires LengthValid(cmd, txlen)
    requires Compose(channel, cmd, txbuf, txlen, longPacket, shortPacket).len >= 0
    ensures var p := Compose(channel, cmd, txbuf, txlen, longPacket, shortPacket);
      var r := MipiDsiWrite(rf, channel, cmd, txbuf, txlen, longPacket, shortPacket, sample, ans);
      forall k :: 0 <= k < NumWords(p.len) ==>
        Lanes(Get(r.regs, DSI_CMD_TX_REG + 4 * k)) == [Byte(p, 4 * k), Byte(p, 4 * k + 1), Byte(p, 4 * k + 2), Byte(p, 4 * k + 3)]
  {
    var p := Compose(channel, cmd, txbuf, txlen, longPacket, shortPacket);
    WriteIsTransmit(rf, channel, cmd, txbuf, txlen, longPacket, shortPacket, sample, ans);
    TransmitFillsWindow(rf, p, sample, WaitTransmit(sample), ans);
    forall k | 0 <= k < NumWords(p.len)
      ensures Lanes(WordAt(p, k)) == [Byte(p, 4 * k), Byte(p, 4 * k + 1), Byte(p, 4 * k + 2), Byte(p, 4 * k + 3)]
    {
      LanesOfWord(Byte(p, 4 * k), Byte(p, 4 * k + 1), Byte(p, 4 * k + 2), Byte(p, 4 * k + 3));
    }
  }

  /** After a transmission, TX_Size holds the low byte of the packet length minus one. */
  lemma WriteSetsTxSize(rf: RegFile, channel: bv8, cmd: bv8, txbuf: seq<bv8>, txlen: Size,
                        longPacket: Composer, shortPacket: Composer, sample: nat -> bv32, ans: Answers)
    requires LengthValid(cmd, txlen)
    requires Compose(channel, cmd, txbuf, txlen, longPacket, shortPacket).len >= 0
    ensures var r := MipiDsiWrite(rf, channel, cmd, txbuf, txlen, longPacket, shortPacket, sample, ans);
      Select32(Get(r.regs, DSI_CMD_CTL_REG), TX_SIZE_MASK) == TxSize(Compose(channel, cmd, txbuf, txlen, longPacket, shortPacket).len) as bv32
  {
    var p := Compose(channel, cmd, txbuf, txlen, longPacket, shortPacket);
    WriteRegister(rf, channel, cmd, txbuf, txlen, longPacket, shortPacket, sample, ans, DSI_CMD_CTL_REG);
    TransmitCmdCtl(rf, p, sample, WaitTransmit(sample), ans);
  }

  /**
    After a transmission, the bits of DSI_CMD_CTL_REG outside TX_Size are
    as the controller returned them to the TX_Size update's read: the
    update writes back the flags it finds, not the ones stored before it.
  */
  lemma WriteClearsFlags(rf: RegFile, channel: bv8, cmd: bv8, txbuf: seq<bv8>, txlen: Size,
                         longPacket: Composer, shortPacket: Composer, sample: nat -> bv32, ans: Answers)
    requires LengthValid(cmd, txlen)
    requires Compose(channel, cmd, txbuf, txlen, longPacket, shortPacket).len >= 0
    ensures var r := MipiDsiWrite(rf, channel, cmd, txbuf, txlen, longPacket, shortPacket, sample, ans);
      Clear32(Get(r.regs, DSI_CMD_CTL_REG), TX_SIZE_MASK) == Clear32(ans.cmdCtl, TX_SIZE_MASK)
  {
    var p := Compose(channel, cmd, txbuf, txlen, longPacket, shortPacket);
    WriteRegister(rf, channel, cmd, txbuf, txlen, longPacket, shortPacket, sample, ans, DSI_CMD_CTL_REG);
    TransmitCmdCtl(rf, p, sample, WaitTransmit(sample), ans);
  }

  /**
    A write that reaches the controller accesses DSI_CMD_CTL_REG exactly
    three times: it stores the cleared flags, then the TX_Size update reads
    the register, getting the controller's answer, and writes back the
    value the register is left holding.
  */
  lemma WriteCmdCtlTrace(rf: RegFile, channel: bv8, cmd: bv8, txbuf: seq<bv8>, txlen: Size,
                         longPacket: Composer, shortPacket: Composer, sample: nat -> bv32, ans: Answers)
    requires LengthValid(cmd, txlen)
    requires Compose(channel, cmd, txbuf, txlen, longPacket, shortPacket).len >= 0
    ensures var r := MipiDsiWrite(rf, channel, cmd, txbuf, txlen, longPacket, shortPacket, sample, ans);
      On(r.bus, DSI_CMD_CTL_REG) == [Store(DSI_CMD_CTL_REG, CMD_CTL_CLEAR_FLAGS), Load(DSI_CMD_CTL_REG, ans.cmdCtl),
                                     Store(DSI_CMD_CTL_REG, Get(r.regs, DSI_CMD_CTL_REG))]
  {
    var p := Compose(channel, cmd, txbuf, txlen, longPacket, shortPacket);
    var w := WaitTransmit(sample);
    WriteIsTransmit(rf, channel, cmd, txbuf, txlen, longPacket, shortPacket, sample, ans);
    TransmitCmdCtlTrace(rf, p, sample, w, ans);
    TransmitKeepsStarted(rf, p, sample, w, ans, DSI_CMD_CTL_REG);
    StartStoresSize(After(rf, LoadOps(p)), p, ans);
  }

  /** After a transmission, Instru_En as last written is clear exactly when the write returned -1 for a timeout. */
  lemma WriteStopsOnTimeout(rf: RegFile, channel: bv8, cmd: bv8, txbuf: seq<bv8>, txlen: Size,
                            longPacket: Composer, shortPacket: Composer, sample: nat -> bv32, ans: Answers)
    requires LengthValid(cmd, txlen)
    requires Compose(channel, cmd, txbuf, txlen, longPacket, shortPacket).len >= 0
    ensures var r := MipiDsiWrite(rf, channel, cmd, txbuf, txlen, longPacket, shortPacket, sample, ans);
      Idle(Get(r.regs, DSI_BASIC_CTL0_REG)) <==> forall j :: 0 <= j < POLL_LIMIT ==> !Idle(sample(j))
  {
    var p := Compose(channel, cmd, txbuf, txlen, longPacket, shortPacket);
    var w := WaitTransmit(sample);
    WriteRegister(rf, channel, cmd, txbuf, txlen, longPacket, shortPacket, sample, ans, DSI_BASIC_CTL0_REG);
    TransmitInstruEn(rf, p, sample, w, ans);
  }

  // The instruction-register macros at the arguments the enable and write paths use.

  /** DSI_INST_FUNC_REG(n) for the eight instructions LP11, TBA, HSC, HSD, LPDT, HSCEXIT, NOP and DLY. */
  lemma InstFuncRegs()
    ensures InstFuncReg(0) == 0x1ca0020 && InstFuncReg(1) == 0x1ca0024
    ensures InstFuncReg(2) == 0x1ca0028 && InstFuncReg(3) == 0x1ca002c
    ensures InstFuncReg(4) == 0x1ca0030 && InstFuncReg(5) == 0x1ca0034
    ensures InstFuncReg(6) == 0x1ca0038 && InstFuncReg(7) == 0x1ca003c
  {}

  /**
    The eight instruction function registers are distinct words between
    DSI_BASE_ADDRESS + 0x20 and + 0x3C, and none of them is a jump
    configuration, loop count, control or transmit-window register.
  */
  lemma InstFuncRegsApart(n: int, m: int)
    requires 0 <= n < 8 && 0 <= m < 8
    ensures n != m ==> InstFuncReg(n) != InstFuncReg(m)
    ensures DSI_BASE_ADDRESS + 0x20 <= InstFuncReg(n) <= DSI_BASE_ADDRESS + 0x3C
    ensures (InstFuncReg(n) - DSI_BASE_ADDRESS) % 4 == 0
    ensures InstFuncReg(n) != InstJumpCfgReg(0)
    ensures InstFuncReg(n) != InstLoopNumReg(0) && InstFuncReg(n) != InstLoopNumReg(1)
    ensures InstFuncReg(n) != DSI_BASIC_CTL0_REG && InstFuncReg(n) != DSI_INST_JUMP_SEL_REG
    ensures InstFuncReg(n) != DSI_CMD_CTL_REG
    ensures InstFuncReg(n) < DSI_CMD_TX_REG
  {}

  lemma InstJumpAndLoopRegs()
    ensures InstJumpCfgReg(0) == 0x1ca004c
    ensures InstLoopNumReg(0) == 0x1ca0044 && InstLoopNumReg(1) == 0x1ca0054
  {}

  // The field compositions a64_mipi_dsi_enable asserts.

  /** A field value placed at bit `shift`, as the driver's `value << shift`. */
  function Field(value: bv32, shift: bv5): bv32 {
    value << shift
  }

  /** The virtual channel every packet header uses. */
  const VIRTUAL_CHANNEL: bv32 := 0

  /** DSI_BASIC_CTL0: CRC_En (bit 17) and ECC_En (bit 16). */
  const BASIC_CTL0: bv32 := Field(1, 17) | Field(1, 16)

  /** DSI_BASIC_CTL1: Video_Start_Delay 1468, Video_Precision_Mode_Align, Video_Frame_Start, DSI_Mode. */
  const BASIC_CTL1: bv32 := Field(1468, 4) | Field(1, 2) | Field(1, 1) | Field(1, 0)

  /** A packet header word: ECC, two data bytes (or a word count), virtual channel and data type. */
  function Header(ecc: bv32, data: bv32, dt: bv32): bv32 {
    Field(ecc, 24) | Field(data, 8) | Field(VIRTUAL_CHANNEL, 6) | Field(dt, 0)
  }

  /** DSI_PIXEL_PH: ECC 19, word count 2160, data type 0x3E. */
  const PIXEL_PH: bv32 := Header(19, 2160, 0x3E)

  /** DSI_PIXEL_PF1: CRC_Init_LineN and CRC_Init_Line0, both 0xffff. */
  const PIXEL_PF1: bv32 := Field(0xffff, 16) | Field(0xffff, 0)

  /** DSI_PIXEL_CTL0: PD_Plug_Dis, Pixel_Endian 0 (LSB first), Pixel_Format 8 (RGB888). */
  const PIXEL_CTL0: bv32 := Field(1, 16) | Field(0, 4) | Field(8, 0)

  /** Sync packet headers (D1 and D0 zero): HSS, HSE, VSS, VSE. */
  const SYNC_HSS: bv32 := Header(0x12, 0, 0x21)
  const SYNC_HSE: bv32 := Header(1, 0, 0x31)
  const SYNC_VSS: bv32 := Header(7, 0, 1)
  const SYNC_VSE: bv32 := Header(0x14, 0, 0x11)

  /** DSI_BASIC_SIZE0 (Video_VBP 17, Video_VSA 10) and DSI_BASIC_SIZE1 (Video_VT 1485, Video_VACT 1440). */
  const BASIC_SIZE0: bv32 := Field(17, 16) | Field(10, 0)
  const BASIC_SIZE1: bv32 := Field(1485, 16) | Field(1440, 0)

  /** Blanking packet footers: the PF field in bits 16 to 31, PD zero. */
  function Blanking(pf: bv32): bv32 {
    Field(pf, 16) | Field(0, 0)
  }

  const BLK_HSA1: bv32 := Blanking(0x50b4)
  const BLK_HBP1: bv32 := Blanking(0x757a)
  const BLK_HFP1: bv32 := Blanking(0x50b4)
  const BLK_HBLK1: bv32 := Blanking(0x72bd)
  const BLK_VBLK1: bv32 := Blanking(0xffff)

  /** The control words equal the values the driver asserts. */
  lemma ControlWords()
    ensures BASIC_CTL0 == 0x30000
    ensures BASIC_CTL1 == 0x5bc7
    ensures PIXEL_PF1 == 0xffffffff
    ensures PIXEL_CTL0 == 0x10008
    ensures BASIC_SIZE0 == 0x11000a
    ensures BASIC_SIZE1 == 0x5cd05a0
  {}

  /** The packet headers equal the values the driver asserts. */
  lemma HeaderWords()
    ensures PIXEL_PH == 0x1308703e
    ensures SYNC_HSS == 0x12000021
    ensures SYNC_HSE == 0x1000031
    ensures SYNC_VSS == 0x7000001
    ensures SYNC_VSE == 0x14000011
  {}

  /** The blanking footers equal the values the driver asserts. */
  lemma BlankingWords()
    ensures BLK_HSA1 == 0x50b40000
    ensures BLK_HBP1 == 0x757a0000
    ensures BLK_HFP1 == 0x50b40000
    ensures BLK_HBLK1 == 0x72bd0000
    ensures BLK_VBLK1 == 0xffff0000
  {}

  /** The low-power transmit jump selection: LPDT after LP11, END after LPDT. */
  lemma JumpSelWord()
    ensures JUMP_SEL_LPTX == 0xf0004
  {}

  lemma HeaderFieldsRaw(ecc: bv32, data: bv32, dt: bv32, h: bv32)
    requires ecc < 0x100 && data < 0x1_0000 && dt < 0x40
    requires h == Field(ecc, 24) | Field(data, 8) | Field(0, 6) | Field(dt, 0)
    ensures h >> 24 == ecc
    ensures (h >> 8) & 0xffff == data
    ensures h & 0xff == dt
  {}

  /**
    A header built from an 8-bit ECC, 16 bits of data and a 6-bit data type
    gives each of them back from its own bits: the fields do not overlap.
  */
  lemma HeaderFields(ecc: bv32, data: bv32, dt: bv32)
    requires ecc < 0x100 && data < 0x1_0000 && dt < 0x40
    ensures Header(ecc, data, dt) >> 24 == ecc
    ensures Select32(Header(ecc, data, dt) >> 8, 0xffff) == data
    ensures Select32(Header(ecc, data, dt), 0xff) == dt
  {
    var h := Header(ecc, data, dt);
    assert h == Field(ecc, 24) | Field(data, 8) | Field(0, 6) | Field(dt, 0);
    HeaderFieldsRaw(ecc, data, dt, h);
  }
}
