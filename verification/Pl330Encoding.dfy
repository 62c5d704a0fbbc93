/** The DMA-330 instruction subset that the PL330 driver emits: the byte encodings of opcodes.h,
    and a decoder written from the instruction set (ARM DDI 0424, section 4.3). */
module Pl330Encoding {
  import opened Common
  import opened Machine32

  datatype Cond = Single | Burst | Always

  datatype Reg = SAR | CCR | DAR

  type Peri = x: int | 0 <= x < 32

  type Iterations = x: int | 1 <= x <= 256 witness 1

  datatype Instr =
    | Ld(cond: Cond)
    | St(cond: Cond)
    | Ldp(cond: Cond, peri: Peri)
    | Stp(cond: Cond, peri: Peri)
    | Lp(second: bool, iterations: Iterations)
    | LpEnd(cond: Cond, forever: bool, second: bool, bjump: byte)
    | Mov(reg: Reg, val: u32)
    | Sev(ev: Peri)
    | FlushP(peri: Peri)
    | Wfp(cond: Cond, peri: Peri)

  // Bits 1 and 0 of LD, ST and LPEND.
  function CondBits(cond: Cond): byte {
    match cond
    case Single => 1
    case Burst => 3
    case Always => 0
  }

  function RegCode(reg: Reg): byte {
    match reg
    case SAR => 0
    case CCR => 1
    case DAR => 2
  }

  /** The bytes stored for one instruction. */
  function Encode(i: Instr): seq<byte> {
    match i
    case Ld(c) => [0x04 + CondBits(c)]
    case St(c) => [0x08 + CondBits(c)]
    case Ldp(c, p) => [0x25 + (if c == Burst then 2 else 0), p * 8]
    case Stp(c, p) => [0x29 + (if c == Burst then 2 else 0), p * 8]
    case Lp(second, n) => [0x20 + (if second then 2 else 0), n - 1]
    case LpEnd(c, forever, second, bj) =>
      [0x28 + (if second then 4 else 0) + (if forever then 0 else 16) + CondBits(c), bj]
    case Mov(r, v) => [0xbc, RegCode(r), v % 256, v / 0x100 % 256, v / 0x1_0000 % 256, v / 0x100_0000]
    case Sev(ev) => [0x34, ev * 8]
    case FlushP(p) => [0x35, p * 8]
    case Wfp(c, p) => [0x30 + (match c case Single => 0 case Burst => 2 case Always => 1), p * 8]
  }

  function DecodeCond(low: int): (r: Option<Cond>) {
    if low == 1 then Some(Single) else if low == 3 then Some(Burst) else if low == 0 then Some(Always) else None
  }

  function LittleEndian(b0: int, b1: int, b2: int, b3: int): int {
    b0 + 0x100 * b1 + 0x1_0000 * b2 + 0x100_0000 * b3
  }

  /** Decodes the instruction at the head of `b`, by opcode and then by operand. */
  function Decode(b: seq<byte>): Option<Instr> {
    if |b| == 0 then None
    else if 0x04 <= b[0] < 0x08 then DecodeLdSt(b[0] - 0x04, true)
    else if 0x08 <= b[0] < 0x0c then DecodeLdSt(b[0] - 0x08, false)
    else if |b| == 1 then None
    else if b[0] == 0x20 || b[0] == 0x22 then Some(Lp(b[0] == 0x22, (b[1] as int) + 1))
    else if 0x28 <= b[0] < 0x40 && b[0] !in {0x29, 0x2b} && b[0] / 8 % 2 == 1 then DecodeLpEnd(b[0], b[1])
    else if b[0] == 0xbc then
      if |b| < 6 || b[1] > 2 then None
      else Some(Mov(if b[1] == 0 then SAR else if b[1] == 1 then CCR else DAR,
                    LittleEndian(b[2], b[3], b[4], b[5])))
    else if b[1] % 8 != 0 then None
    else DecodePeripheral(b[0], b[1] / 8)
  }

  function DecodeLdSt(low: int, load: bool): Option<Instr> {
    var c := DecodeCond(low);
    if c.None? then None else Some(if load then Ld(c.value) else St(c.value))
  }

  function DecodeLpEnd(op: byte, bj: byte): Option<Instr> {
    var c := DecodeCond(op % 4);
    if c.None? then None else Some(LpEnd(c.value, op / 16 % 2 == 0, op / 4 % 2 == 1, bj))
  }

  function DecodePeripheral(op: byte, p: Peri): Option<Instr> {
    if op == 0x25 then Some(Ldp(Single, p))
    else if op == 0x27 then Some(Ldp(Burst, p))
    else if op == 0x29 then Some(Stp(Single, p))
    else if op == 0x2b then Some(Stp(Burst, p))
    else if op == 0x34 then Some(Sev(p))
    else if op == 0x35 then Some(FlushP(p))
    else if op == 0x30 then Some(Wfp(Single, p))
    else if op == 0x32 then Some(Wfp(Burst, p))
    else if op == 0x31 then Some(Wfp(Always, p))
    else None
  }

  /** The instructions whose bytes say what was meant: LDP and STP have no unconditional form, and an
      endless LPEND of loop 0 with a condition is the same byte as STP. */
  predicate Unambiguous(i: Instr) {
    && (i.Ldp? || i.Stp? ==> i.cond != Always)
    && (i.LpEnd? && i.forever && !i.second ==> i.cond == Always)
  }

  lemma LittleEndianBytes(v: u32)
    ensures LittleEndian(v % 256, v / 0x100 % 256, v / 0x1_0000 % 256, v / 0x100_0000) == v
    ensures v / 0x100_0000 < 256
  {
  }

  lemma DecodeMov(i: Instr, rest: seq<byte>)
    requires i.Mov?
    ensures Decode(Encode(i) + rest) == Some(i)
  {
    var b := Encode(i) + rest;
    LittleEndianBytes(i.val);
    assert b[0] == 0xbc && b[1] == RegCode(i.reg);
    assert b[2] == i.val % 256 && b[3] == i.val / 0x100 % 256;
    assert b[4] == i.val / 0x1_0000 % 256 && b[5] == i.val / 0x100_0000;
  }

  lemma DecodeLpEndBytes(i: Instr, rest: seq<byte>)
    requires i.LpEnd?
    ensures Decode(Encode(i) + rest) == Some(i) <==> Unambiguous(i)
  {
    var b := Encode(i) + rest;
    assert b[0] == Encode(i)[0] && b[1] == i.bjump;
  }

  /** Decoding recovers an instruction from its bytes, whatever follows them, exactly when it is
      unambiguous. */
  lemma DecodeEncode(i: Instr, rest: seq<byte>)
    ensures Decode(Encode(i) + rest) == Some(i) <==> Unambiguous(i)
  {
    var b := Encode(i) + rest;
    match i
    case Mov(r, v) => DecodeMov(i, rest);
    case LpEnd(c, forever, second, bj) => DecodeLpEndBytes(i, rest);
    case Ld(c) => assert b[0] == 0x04 + CondBits(c);
    case St(c) => assert b[0] == 0x08 + CondBits(c);
    case _ => assert b[0] == Encode(i)[0] && b[1] == Encode(i)[1];
  }

  /** Concatenated encodings of an instruction list. */
  function Assemble(code: seq<Instr>): seq<byte> {
    if code == [] then [] else Encode(code[0]) + Assemble(code[1..])
  }

  lemma {:induction false} AssembleConcat(a: seq<Instr>, b: seq<Instr>)
    ensures Assemble(a + b) == Assemble(a) + Assemble(b)
  {
    if a == [] {
      assert a + b == b;
    } else {
      assert (a + b)[1..] == a[1..] + b;
      AssembleConcat(a[1..], b);
    }
  }

  /** Disassembles a whole byte string. */
  function Disassemble(b: seq<byte>): Option<seq<Instr>>
    decreases |b|
  {
    if b == [] then Some([])
    else
      var i := Decode(b);
      if i.None? || |Encode(i.value)| > |b| then None
      else
        var rest := Disassemble(b[|Encode(i.value)|..]);
        if rest.None? then None else Some([i.value] + rest.value)
  }

  /** Disassembling an emitted program gives back the exact instruction list. */
  lemma {:induction false} DisassembleAssemble(code: seq<Instr>)
    requires forall i <- code :: Unambiguous(i)
    ensures Disassemble(Assemble(code)) == Some(code)
  {
    if code != [] {
      var rest := Assemble(code[1..]);
      DecodeEncode(code[0], rest);
      assert (Encode(code[0]) + rest)[|Encode(code[0])|..] == rest;
      DisassembleAssemble(code[1..]);
      assert [code[0]] + code[1..] == code;
    }
  }
}
