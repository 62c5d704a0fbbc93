/** One DMA-330 channel thread executing bytes from memory: program counter, address and control
    registers, the two loop counters and the peripheral request flag. */
module Pl330Machine {
  import opened Common
  import opened Machine32
  import opened Pl330Encoding

  /** What the outside world sees of a run. An access is acknowledged to a peripheral by LDP and STP. */
  datatype Event =
    | Wait(peri: Peri)
    | Load(addr: u32, len: nat, ack: Option<Peri>)
    | Store(addr: u32, len: nat, ack: Option<Peri>)
    | Signal(ev: Peri)

  /** The registers and the trace that straight-line code works on. */
  datatype Data = Data(
    sar: u32, dar: u32, ccr: u32,
    req: Cond,          // request type of the last WFP: decides the S and B forms
    trace: seq<Event>)

  datatype State = State(pc: nat, lc0: byte, lc1: byte, d: Data, faulted: bool)

  // CCR fields: address increment, beats per burst and bytes per beat for each side.
  predicate SrcInc(ccr: u32) { ccr % 2 == 1 }
  predicate DstInc(ccr: u32) { ccr / 0x4000 % 2 == 1 }
  function SrcBeats(ccr: u32): nat { ccr / 0x10 % 16 + 1 }
  function DstBeats(ccr: u32): nat { ccr / 0x4_0000 % 16 + 1 }
  function SrcSize(ccr: u32): nat { BeatBytes(ccr / 2 % 8) }
  function DstSize(ccr: u32): nat { BeatBytes(ccr / 0x8000 % 8) }

  function BeatBytes(code: int): (r: nat)
    ensures r > 0
  {
    if code == 0 then 1 else if code == 1 then 2 else if code == 2 then 4 else if code == 3 then 8
    else if code == 4 then 16 else if code == 5 then 32 else if code == 6 then 64 else 128
  }

  function SrcLen(ccr: u32): nat { SrcBeats(ccr) * SrcSize(ccr) }
  function DstLen(ccr: u32): nat { DstBeats(ccr) * DstSize(ccr) }

  function DoLoad(d: Data, ack: Option<Peri>): Data {
    d.(sar := if SrcInc(d.ccr) then Wrap32(d.sar + SrcLen(d.ccr)) else d.sar,
       trace := d.trace + [Load(d.sar, SrcLen(d.ccr), ack)])
  }

  function DoStore(d: Data, ack: Option<Peri>): Data {
    d.(dar := if DstInc(d.ccr) then Wrap32(d.dar + DstLen(d.ccr)) else d.dar,
       trace := d.trace + [Store(d.dar, DstLen(d.ccr), ack)])
  }

  // The S and B forms of an instruction execute only after a request of that type.
  predicate Enabled(c: Cond, d: Data) { c == Always || c == d.req }

  predicate IsControl(i: Instr) { i.Lp? || i.LpEnd? }

  /** The effect of an instruction that only moves data. */
  function Effect(i: Instr, d: Data): Data
    requires !IsControl(i)
  {
    match i
    case Ld(c) => if Enabled(c, d) then DoLoad(d, None) else d
    case St(c) => if Enabled(c, d) then DoStore(d, None) else d
    case Ldp(c, p) => if Enabled(c, d) then DoLoad(d, Some(p)) else d
    case Stp(c, p) => if Enabled(c, d) then DoStore(d, Some(p)) else d
    case Mov(r, v) =>
      (match r
       case SAR => d.(sar := v)
       case CCR => d.(ccr := v)
       case DAR => d.(dar := v))
    case Sev(ev) => d.(trace := d.trace + [Signal(ev)])
    case FlushP(p) => d
    case Wfp(c, p) => d.(req := c, trace := d.trace + [Wait(p)])
  }

  function JumpBack(s: State, bjump: byte): State {
    if bjump <= s.pc then s.(pc := s.pc - bjump) else s.(faulted := true)
  }

  function LoopEnd(i: Instr, s: State): State
    requires i.LpEnd?
  {
    if !Enabled(i.cond, s.d) then s.(pc := s.pc + 2)
    else if i.forever then JumpBack(s, i.bjump)
    else if i.second then
      if s.lc1 == 0 then s.(pc := s.pc + 2) else JumpBack(s.(lc1 := s.lc1 - 1), i.bjump)
    else
      if s.lc0 == 0 then s.(pc := s.pc + 2) else JumpBack(s.(lc0 := s.lc0 - 1), i.bjump)
  }

  function Execute(i: Instr, s: State): State {
    if i.LpEnd? then LoopEnd(i, s)
    else if i.Lp? then
      if i.second then s.(lc1 := i.iterations - 1, pc := s.pc + 2) else s.(lc0 := i.iterations - 1, pc := s.pc + 2)
    else s.(d := Effect(i, s.d), pc := s.pc + |Encode(i)|)
  }

  /** One step: fetch, decode, execute. Undecodable bytes fault the channel, and a fault is final. */
  function Step(mem: seq<byte>, s: State): State {
    if s.faulted then s
    else if s.pc > |mem| then s.(faulted := true)
    else
      var i := Decode(mem[s.pc..]);
      if i.None? then s.(faulted := true) else Execute(i.value, s)
  }

  function Run(mem: seq<byte>, s: State, n: nat): State
    decreases n
  {
    if n == 0 then s else Run(mem, Step(mem, s), n - 1)
  }

  lemma {:induction false} RunSplit(mem: seq<byte>, s: State, m: nat, n: nat)
    ensures Run(mem, s, m + n) == Run(mem, Run(mem, s, m), n)
    decreases m
  {
    if m > 0 {
      RunSplit(mem, Step(mem, s), m - 1, n);
    }
  }

  /** The channel gets from one state to another by some number of steps. */
  ghost predicate Reaches(mem: seq<byte>, s: State, t: State) {
    exists n: nat :: Run(mem, s, n) == t
  }

  lemma Stay(mem: seq<byte>, s: State)
    ensures Reaches(mem, s, s)
  {
    assert Run(mem, s, 0) == s;
  }

  lemma Then(mem: seq<byte>, s: State, t: State, u: State)
    requires Reaches(mem, s, t) && Reaches(mem, t, u)
    ensures Reaches(mem, s, u)
  {
    var m: nat :| Run(mem, s, m) == t;
    var n: nat :| Run(mem, t, n) == u;
    RunSplit(mem, s, m, n);
  }

  /** The assembled code stands in memory at address `at`. */
  ghost predicate At(mem: seq<byte>, at: nat, code: seq<Instr>) {
    && at + |Assemble(code)| <= |mem|
    && mem[at..at + |Assemble(code)|] == Assemble(code)
  }

  lemma AtSplit(mem: seq<byte>, at: nat, a: seq<Instr>, b: seq<Instr>)
    requires At(mem, at, a + b)
    ensures At(mem, at, a) && At(mem, at + |Assemble(a)|, b)
    ensures |Assemble(a + b)| == |Assemble(a)| + |Assemble(b)|
  {
    AssembleConcat(a, b);
    var m := mem[at..at + |Assemble(a + b)|];
    assert m[..|Assemble(a)|] == Assemble(a);
    assert m[|Assemble(a)|..] == Assemble(b);
  }

  /** An instruction standing at the program counter is the one executed. */
  lemma StepAt(mem: seq<byte>, s: State, i: Instr)
    requires At(mem, s.pc, [i]) && Unambiguous(i) && !s.faulted
    ensures Step(mem, s) == Execute(i, s)
  {
    hide Decode;
    hide Execute;
    hide Unambiguous;
    hide Encode;
    assert [i][1..] == [];
    var b := mem[s.pc..];
    var n := |Encode(i)|;
    assert Assemble([i]) == Encode(i);
    assert b[..n] == mem[s.pc..s.pc + n] == Encode(i);
    assert b == b[..n] + b[n..];
    DecodeEncode(i, b[n..]);
  }

  lemma ReachStep(mem: seq<byte>, s: State, i: Instr)
    requires At(mem, s.pc, [i]) && Unambiguous(i) && !s.faulted
    ensures Reaches(mem, s, Execute(i, s))
  {
    StepAt(mem, s, i);
    assert Run(mem, Step(mem, s), 0) == Step(mem, s);
    assert Run(mem, s, 1) == Execute(i, s);
  }

  /** LP loads its counter. */
  lemma ReachLp(mem: seq<byte>, s: State, second: bool, n: Iterations)
    requires At(mem, s.pc, [Lp(second, n)]) && !s.faulted
    ensures Reaches(mem, s,
      if second then s.(pc := s.pc + 2, lc1 := n - 1) else s.(pc := s.pc + 2, lc0 := n - 1))
  {
    ReachStep(mem, s, Lp(second, n));
  }

  /** LPEND falls through when its counter is spent, and otherwise counts down and jumps back. */
  lemma ReachLpEnd(mem: seq<byte>, s: State, second: bool, bj: byte)
    requires At(mem, s.pc, [LpEnd(Always, false, second, bj)]) && !s.faulted && bj <= s.pc
    ensures Reaches(mem, s,
      if (if second then s.lc1 else s.lc0) == 0 then s.(pc := s.pc + 2)
      else if second then s.(pc := s.pc - bj, lc1 := s.lc1 - 1)
      else s.(pc := s.pc - bj, lc0 := s.lc0 - 1))
  {
    ReachStep(mem, s, LpEnd(Always, false, second, bj));
  }

  /** The endless form always jumps back. */
  lemma ReachLpFe(mem: seq<byte>, s: State, second: bool, bj: byte)
    requires At(mem, s.pc, [LpEnd(Always, true, second, bj)]) && !s.faulted && bj <= s.pc
    ensures Reaches(mem, s, s.(pc := s.pc - bj))
  {
    ReachStep(mem, s, LpEnd(Always, true, second, bj));
  }

  predicate Straight(code: seq<Instr>) {
    forall i <- code :: Unambiguous(i) && !IsControl(i)
  }

  /** Straight-line code: the effects of its instructions, one after the other. */
  function Effects(code: seq<Instr>, d: Data): Data
    requires Straight(code)
  {
    if code == [] then d else Effects(code[1..], Effect(code[0], d))
  }

  lemma {:induction false} EffectsConcat(a: seq<Instr>, b: seq<Instr>, d: Data)
    requires Straight(a) && Straight(b)
    ensures Effects(a + b, d) == Effects(b, Effects(a, d))
    decreases |a|
  {
    if a == [] {
      assert a + b == b;
    } else {
      assert (a + b)[1..] == a[1..] + b;
      EffectsConcat(a[1..], b, Effect(a[0], d));
    }
  }

  function After(s: State, code: seq<Instr>, d: Data): State {
    s.(pc := s.pc + |Assemble(code)|, d := d)
  }

  lemma {:induction false} ReachStraight(mem: seq<byte>, s: State, code: seq<Instr>)
    requires At(mem, s.pc, code) && Straight(code) && !s.faulted
    ensures Reaches(mem, s, After(s, code, Effects(code, s.d)))
    decreases |code|
  {
    if code == [] {
      Stay(mem, s);
    } else {
      assert code == [code[0]] + code[1..];
      AtSplit(mem, s.pc, [code[0]], code[1..]);
      assert Assemble([code[0]]) == Encode(code[0]) by { assert [code[0]][1..] == []; }
      ReachStep(mem, s, code[0]);
      var s1 := Execute(code[0], s);
      ReachStraight(mem, s1, code[1..]);
      Then(mem, s, s1, After(s, code, Effects(code, s.d)));
    }
  }
}
