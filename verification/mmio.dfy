/**
  Memory-mapped register access as the drivers use it (putreg32, getreg32,
  modifyreg32, modreg32), over a file of 32-bit device registers.

  A driver operation is a sequence of `Op`s. `Run` turns it into the bus
  trace it produces against a register file, and `After` is the register
  file once every store of that trace has landed. A read of a register that
  holds what was last stored to it is answered from the file. A read of a
  register the device itself changes (a claim register, a busy flag, a
  write-1-to-clear flag) is answered from outside, since it is the device's
  answer and not the last value stored: a plain read is a `Sample`, and a
  read-modify-write is `Answered`. For those registers the file holds only
  the last value the driver stored.
*/
module Mmio {
  import opened Bits

  /** The last value stored at each address; an address never stored reads 0. */
  type RegFile = map<int, bv32>

  /** One bus transaction as it appears in a trace. */
  datatype Access = Load(addr: int, value: bv32) | Store(addr: int, value: bv32)

  /** One register-access primitive. */
  datatype Op =
    | Put(addr: int, value: bv32)                  // putreg32(value, addr)
    | Modify(addr: int, clear: bv32, bits: bv32)   // read, clear bits, set bits, write back
    | Sample(addr: int, value: bv32)               // getreg32(addr), answered by the device
    | Answered(addr: int, clear: bv32, bits: bv32, found: bv32)
                                                   // read-modify-write whose read the device answers with `found`

  function Get(rf: RegFile, a: int): bv32 {
    if a in rf then rf[a] else 0
  }

  lemma GetStored(rf: RegFile, a: int, v: bv32)
    ensures Get(rf[a := v], a) == v
  {}

  lemma GetOther(rf: RegFile, a: int, v: bv32, b: int)
    requires b != a
    ensures Get(rf[a := v], b) == Get(rf, b)
  {}

  /** The value an `Op` leaves in its register, given the value it found there. */
  function Updated(op: Op, found: bv32): bv32
    requires !op.Sample?
  {
    match op
    case Put(_, v) => v
    case Modify(_, clear, bits) => Set32(Clear32(found, clear), bits)
    case Answered(_, clear, bits, _) => Set32(Clear32(found, clear), bits)
  }

  /** What a storing `Op`'s read returns: the device's answer, or else the register file's value. */
  function Found(rf: RegFile, op: Op): bv32
    requires !op.Sample?
  {
    if op.Answered? then op.found else Get(rf, op.addr)
  }

  /** modifyreg32(addr, clearbits, setbits): clear the first set of bits, then set the second. */
  function ModifyReg32(addr: int, clearBits: bv32, setBits: bv32): Op {
    Modify(addr, clearBits, setBits)
  }

  /** modreg32(value, mask, addr): the bits under `mask` take `value`'s bits, the others keep theirs. */
  function ModReg32(value: bv32, mask: bv32, addr: int): Op {
    Modify(addr, mask, Select32(value, mask))
  }

  /** modreg32(value, mask, addr) on a register whose read the device answers with `found`. */
  function ModReg32Answered(value: bv32, mask: bv32, addr: int, found: bv32): Op {
    Answered(addr, mask, Select32(value, mask), found)
  }

  /** Under its mask, modreg32 leaves exactly the bits of the new value. */
  lemma ModReg32Masked(value: bv32, mask: bv32, addr: int, found: bv32)
    ensures Select32(Updated(ModReg32(value, mask, addr), found), mask) == Select32(value, mask)
  {
    MaskedWriteUnder(found, value, mask);
  }

  /** Outside its mask, modreg32 keeps the bits it found. */
  lemma ModReg32Keeps(value: bv32, mask: bv32, addr: int, found: bv32)
    ensures Clear32(Updated(ModReg32(value, mask, addr), found), mask) == Clear32(found, mask)
  {
    MaskedWriteOutside(found, value, mask);
  }

  /** Addresses an `Op` sequence may store to. */
  function Touches(ops: seq<Op>): set<int> {
    if |ops| == 0 then {}
    else (if ops[0].Sample? then {} else {ops[0].addr}) + Touches(ops[1..])
  }

  /** A single operation touches its own register, unless it only reads. */
  lemma TouchesOne(op: Op)
    ensures Touches([op]) == if op.Sample? then {} else {op.addr}
  {
    assert [op][1..] == [];
  }

  lemma TouchesTwo(o1: Op, o2: Op)
    ensures Touches([o1, o2]) == Touches([o1]) + Touches([o2])
  {
    TouchesAppend([o1], [o2]);
    assert [o1] + [o2] == [o1, o2];
  }

  /** Addresses a trace stores to. */
  function Stored(t: seq<Access>): set<int> {
    if |t| == 0 then {}
    else (if t[0].Store? then {t[0].addr} else {}) + Stored(t[1..])
  }

  /** The register file once every store of `t` has landed, in order. */
  function Replay(rf: RegFile, t: seq<Access>): RegFile
    decreases |t|
  {
    if |t| == 0 then rf
    else
      var rf' := if t[0].Store? then rf[t[0].addr := t[0].value] else rf;
      Replay(rf', t[1..])
  }

  /** The accesses one `Op` performs against the current register file. */
  function Exec(rf: RegFile, op: Op): seq<Access> {
    match op
    case Put(a, v) => [Store(a, v)]
    case Modify(a, _, _) => [Load(a, Get(rf, a)), Store(a, Updated(op, Get(rf, a)))]
    case Sample(a, v) => [Load(a, v)]
    case Answered(a, _, _, v) => [Load(a, v), Store(a, Updated(op, v))]
  }

  /** The bus trace of `ops`: each `Op` sees the stores of the ones before it. */
  function Run(rf: RegFile, ops: seq<Op>): seq<Access>
    decreases |ops|
  {
    if |ops| == 0 then []
    else
      var head := Exec(rf, ops[0]);
      head + Run(Replay(rf, head), ops[1..])
  }

  /** The register file after `ops`. */
  function After(rf: RegFile, ops: seq<Op>): RegFile {
    Replay(rf, Run(rf, ops))
  }

  /** A register no store of the trace addresses keeps its value. */
  lemma {:induction false} ReplayFrame(rf: RegFile, t: seq<Access>, a: int)
    requires a !in Stored(t)
    ensures Get(Replay(rf, t), a) == Get(rf, a)
    decreases |t|
  {
    if |t| > 0 {
      var rf' := if t[0].Store? then rf[t[0].addr := t[0].value] else rf;
      ReplayFrame(rf', t[1..], a);
    }
  }

  /** One `Op` stores exactly to its own register, unless it only samples. */
  lemma ExecStored(rf: RegFile, op: Op)
    ensures Stored(Exec(rf, op)) == if op.Sample? then {} else {op.addr}
  {
    var t := Exec(rf, op);
    if op.Modify? || op.Answered? {
      assert t[1..][1..] == [];
      assert Stored(t[1..]) == {op.addr};
    }
  }

  /** The registers a run stores to are exactly the ones its `Op`s name. */
  lemma {:induction false} RunStored(rf: RegFile, ops: seq<Op>)
    ensures Stored(Run(rf, ops)) == Touches(ops)
    decreases |ops|
  {
    if |ops| > 0 {
      var head := Exec(rf, ops[0]);
      ExecStored(rf, ops[0]);
      RunStored(Replay(rf, head), ops[1..]);
      StoredAppend(head, Run(Replay(rf, head), ops[1..]));
    }
  }

  /** A register no `Op` names keeps its value. */
  lemma AfterFrame(rf: RegFile, ops: seq<Op>, a: int)
    requires a !in Touches(ops)
    ensures Get(After(rf, ops), a) == Get(rf, a)
  {
    RunStored(rf, ops);
    ReplayFrame(rf, Run(rf, ops), a);
  }

  lemma {:induction false} StoredAppend(t: seq<Access>, u: seq<Access>)
    ensures Stored(t + u) == Stored(t) + Stored(u)
    decreases |t|
  {
    if |t| == 0 {
      assert t + u == u;
    } else {
      assert (t + u)[1..] == t[1..] + u;
      StoredAppend(t[1..], u);
    }
  }

  lemma {:induction false} TouchesAppend(ops: seq<Op>, more: seq<Op>)
    ensures Touches(ops + more) == Touches(ops) + Touches(more)
    decreases |ops|
  {
    if |ops| == 0 {
      assert ops + more == more;
    } else {
      assert (ops + more)[1..] == ops[1..] + more;
      TouchesAppend(ops[1..], more);
    }
  }

  /** Replaying two traces one after the other is replaying their concatenation. */
  lemma {:induction false} ReplayAppend(rf: RegFile, t: seq<Access>, u: seq<Access>)
    ensures Replay(rf, t + u) == Replay(Replay(rf, t), u)
    decreases |t|
  {
    if |t| == 0 {
      assert t + u == u;
    } else {
      assert (t + u)[1..] == t[1..] + u;
      var rf' := if t[0].Store? then rf[t[0].addr := t[0].value] else rf;
      ReplayAppend(rf', t[1..], u);
    }
  }

  /** Running two op sequences one after the other: the second sees the first's stores. */
  lemma {:induction false} RunAppend(rf: RegFile, ops: seq<Op>, more: seq<Op>)
    ensures Run(rf, ops + more) == Run(rf, ops) + Run(After(rf, ops), more)
    decreases |ops|
  {
    if |ops| == 0 {
      assert ops + more == more;
    } else {
      RunAppend(Replay(rf, Exec(rf, ops[0])), ops[1..], more);
      RunAppendStep(rf, ops, more);
    }
  }

  /** The inductive step of `RunAppend`: from the tail of `ops` to all of it. */
  lemma RunAppendStep(rf: RegFile, ops: seq<Op>, more: seq<Op>)
    requires |ops| > 0
    requires var rf' := Replay(rf, Exec(rf, ops[0]));
      Run(rf', ops[1..] + more) == Run(rf', ops[1..]) + Run(After(rf', ops[1..]), more)
    ensures Run(rf, ops + more) == Run(rf, ops) + Run(After(rf, ops), more)
  {
    var head := Exec(rf, ops[0]);
    var rf' := Replay(rf, head);
    var tail := Run(rf', ops[1..]);
    var second := Run(After(rf', ops[1..]), more);
    assert (ops + more)[0] == ops[0] && (ops + more)[1..] == ops[1..] + more;
    RunUnfold(rf, ops + more, ops[0], ops[1..] + more);
    AfterUnfold(rf, ops);
    Associate(head, tail, second);
  }

  lemma Associate<T>(a: seq<T>, b: seq<T>, c: seq<T>)
    ensures a + (b + c) == (a + b) + c
  {}

  /** The register file after `ops` is the one after its tail, run from where the first op left it. */
  lemma AfterUnfold(rf: RegFile, ops: seq<Op>)
    requires |ops| > 0
    ensures Run(rf, ops) == Exec(rf, ops[0]) + Run(Replay(rf, Exec(rf, ops[0])), ops[1..])
    ensures After(rf, ops) == After(Replay(rf, Exec(rf, ops[0])), ops[1..])
  {
    var head := Exec(rf, ops[0]);
    ReplayAppend(rf, head, Run(Replay(rf, head), ops[1..]));
  }

  lemma RunUnfold(rf: RegFile, ops: seq<Op>, first: Op, rest: seq<Op>)
    requires |ops| > 0 && ops[0] == first && ops[1..] == rest
    ensures Run(rf, ops) == Exec(rf, first) + Run(Replay(rf, Exec(rf, first)), rest)
  {}

  lemma AfterAppend(rf: RegFile, ops: seq<Op>, more: seq<Op>)
    ensures After(rf, ops + more) == After(After(rf, ops), more)
  {
    RunAppend(rf, ops, more);
    ReplayAppend(rf, Run(rf, ops), Run(After(rf, ops), more));
  }

  /**
    A single storing `Op` performs exactly its own accesses and leaves its
    register holding `Updated` of what it found, every other one unchanged.
  */
  lemma AfterOne(rf: RegFile, op: Op)
    requires !op.Sample?
    ensures Run(rf, [op]) == Exec(rf, op)
    ensures After(rf, [op]) == rf[op.addr := Updated(op, Found(rf, op))]
  {
    var t := Exec(rf, op);
    var v := Updated(op, Found(rf, op));
    assert Run(rf, [op]) == t + Run(Replay(rf, t), [op][1..]);
    assert t + [] == t;
    if op.Modify? || op.Answered? {
      assert t[1..] == [Store(op.addr, v)];
      assert Replay(rf, t) == Replay(rf, t[1..]);
      assert t[1..][1..] == [];
      assert Replay(rf, t[1..]) == Replay(rf[op.addr := v], t[1..][1..]);
    } else {
      assert t[1..] == [];
    }
    assert Replay(rf, t) == rf[op.addr := v];
  }

  /** The accesses of `t` to register `a`, in order. */
  function On(t: seq<Access>, a: int): seq<Access>
    decreases |t|
  {
    if |t| == 0 then []
    else (if t[0].addr == a then [t[0]] else []) + On(t[1..], a)
  }

  lemma {:induction false} OnAppend(t: seq<Access>, u: seq<Access>, a: int)
    ensures On(t + u, a) == On(t, a) + On(u, a)
    decreases |t|
  {
    if |t| == 0 {
      assert t + u == u;
    } else {
      assert (t + u)[1..] == t[1..] + u;
      OnAppend(t[1..], u, a);
    }
  }

  lemma OnAppend4(t1: seq<Access>, t2: seq<Access>, t3: seq<Access>, t4: seq<Access>, a: int)
    ensures On(t1 + t2 + t3 + t4, a) == On(t1, a) + On(t2, a) + On(t3, a) + On(t4, a)
  {
    OnAppend(t1 + t2 + t3, t4, a);
    OnAppend(t1 + t2, t3, a);
    OnAppend(t1, t2, a);
  }

  /** A trace that never addresses `a` has no access to it. */
  lemma {:induction false} OnAbsent(t: seq<Access>, a: int)
    requires forall k :: 0 <= k < |t| ==> t[k].addr != a
    ensures On(t, a) == []
    decreases |t|
  {
    if |t| > 0 {
      OnAbsent(t[1..], a);
    }
  }

  /** A trace that addresses only `a` is all accesses to it. */
  lemma {:induction false} OnOnly(t: seq<Access>, a: int)
    requires forall k :: 0 <= k < |t| ==> t[k].addr == a
    ensures On(t, a) == t
    decreases |t|
  {
    if |t| > 0 {
      OnOnly(t[1..], a);
      assert t == [t[0]] + t[1..];
    }
  }

  /** The accesses one `Op` performs all address its own register. */
  lemma ExecAddresses(rf: RegFile, op: Op)
    ensures forall k :: 0 <= k < |Exec(rf, op)| ==> Exec(rf, op)[k].addr == op.addr
  {}

  /** A program none of whose `Op`s names register `a` never accesses it. */
  lemma {:induction false} RunAvoids(rf: RegFile, ops: seq<Op>, a: int)
    requires forall k :: 0 <= k < |ops| ==> ops[k].addr != a
    ensures On(Run(rf, ops), a) == []
    decreases |ops|
  {
    if |ops| > 0 {
      var head := Exec(rf, ops[0]);
      ExecAddresses(rf, ops[0]);
      OnAbsent(head, a);
      RunAvoids(Replay(rf, head), ops[1..], a);
      OnAppend(head, Run(Replay(rf, head), ops[1..]), a);
    }
  }

  /** A store op at the head of a program: its store, then the rest against the updated file. */
  lemma RunPut(rf: RegFile, a: int, v: bv32, rest: seq<Op>)
    ensures Run(rf, [Put(a, v)] + rest) == [Store(a, v)] + Run(rf[a := v], rest)
  {
    var ops := [Put(a, v)] + rest;
    var t := [Store(a, v)];
    RunUnfold(rf, ops, Put(a, v), rest);
    assert t[1..] == [];
    assert Replay(rf, t) == Replay(rf[a := v], t[1..]);
  }

  /** A sampled load at the head of a program: its load, then the rest against the same file. */
  lemma RunSample(rf: RegFile, a: int, v: bv32, rest: seq<Op>)
    ensures Run(rf, [Sample(a, v)] + rest) == [Load(a, v)] + Run(rf, rest)
  {
    var ops := [Sample(a, v)] + rest;
    var t := [Load(a, v)];
    RunUnfold(rf, ops, Sample(a, v), rest);
    assert t[1..] == [];
    assert Replay(rf, t) == Replay(rf, t[1..]);
  }
}
