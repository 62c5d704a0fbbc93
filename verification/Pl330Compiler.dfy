/** The code that the cyclic-transfer compiler of insn.c produces, as instruction lists, and what
    running that code does: the specification the emitters of Pl330Emit are proved against. */
module Pl330Compiler {
  import opened Common
  import opened Machine32
  import opened Pl330Encoding
  import opened Pl330Machine

  datatype Spec = Spec(
    ccr: u32, involvesDevice: bool, toDevice: bool, peripheral: byte,
    numPeriods: u32, srcAddr: u32, dstAddr: u32, periodBytes: u32)
  {
    function Peri(): Peri { peripheral % 32 }
  }

  // ---- code ----

  function LoadCode(x: Spec, cond: Cond): seq<Instr> {
    if !x.involvesDevice || x.toDevice then [Ld(cond)]
    else if cond == Always then [Ldp(Single, x.Peri()), Ldp(Burst, x.Peri())]
    else [Ldp(cond, x.Peri())]
  }

  function StoreCode(x: Spec, cond: Cond): seq<Instr> {
    if !x.involvesDevice || !x.toDevice then [St(cond)]
    else if cond == Always then [Stp(Single, x.Peri()), Stp(Burst, x.Peri())]
    else [Stp(cond, x.Peri())]
  }

  /** One burst: wait for the peripheral's request, load, store. */
  function UnitCode(x: Spec, cond: Cond): seq<Instr> {
    if x.involvesDevice then [Wfp(cond, x.Peri())] + LoadCode(x, cond) + StoreCode(x, cond)
    else [Ld(Always), St(Always)]
  }

  function UnitsCode(x: Spec, cond: Cond, cyc: nat): seq<Instr> {
    if cyc == 0 then [] else UnitCode(x, cond) + UnitsCode(x, cond, cyc - 1)
  }

  function BurstsCode(x: Spec, cyc: nat): seq<Instr> {
    (if x.involvesDevice then [FlushP(x.Peri())] else []) + UnitsCode(x, Burst, cyc)
  }

  // LP stores its count minus one in a byte, so that a count byte of 0 means 256 iterations.
  function Iterates(count: byte): Iterations {
    if count == 0 then 256 else count
  }

  /** A counted loop; the backward jump is the size of the body, truncated to a byte. */
  function LoopCode(second: bool, count: byte, body: seq<Instr>): seq<Instr> {
    [Lp(second, Iterates(count))] + body + [LpEnd(Always, false, second, |Assemble(body)| % 256)]
  }

  // Replaces both beat counts; the source masks them out and ors the new ones in.
  function SetBeats(ccr: u32, n: nat): u32
    requires n < 16
  {
    Wrap32(ccr as int + (n - ccr / 0x10 % 16) * 0x10 + (n - ccr / 0x4_0000 % 16) * 0x4_0000)
  }

  lemma LowFields(w: u32, a: nat, b: nat, h: nat)
    requires a < 0x10 && b < 0x10 && w == a + 0x10 * b + 0x100 * h
    ensures w % 2 == a % 2 && w / 2 % 8 == a / 2 && w / 0x10 % 16 == b
  {
    assert w / 2 == a / 2 + 8 * (b + 0x10 * h);
    assert w / 0x10 == b + 0x10 * h;
  }

  lemma ShiftedPast(l: nat, h: nat)
    requires l < 0x100
    ensures (l + 0x100 * h) / 0x4000 == h / 0x40
    ensures (l + 0x100 * h) / 0x8000 == h / 0x80
    ensures (l + 0x100 * h) / 0x4_0000 == h / 0x400
  {
  }

  // Eight consecutive multiples split off a quotient: the remainder part is `r`.
  lemma FieldAbove(m: int, r: nat, g: nat)
    requires m == 2 || m == 8
    ensures (r + m * g) % m == r % m
  {
  }

  lemma UpperFields(h: nat, c: nat, g: nat)
    requires c < 0x400 && h == c + 0x400 * g
    ensures h / 0x400 == g && h / 0x40 % 2 == c / 0x40 % 2 && h / 0x80 % 8 == c / 0x80
  {
    assert h / 0x40 == c / 0x40 + 0x10 * g;
    FieldAbove(2, c / 0x40, 8 * g);
    assert h / 0x80 == c / 0x80 + 8 * g;
    FieldAbove(8, c / 0x80, g);
  }

  lemma HighFields(w: u32, l: nat, c: nat, d: nat, e: nat)
    requires l < 0x100 && c < 0x400 && d < 0x10 && w == l + 0x100 * (c + 0x400 * (d + 0x10 * e))
    ensures w / 0x4_0000 % 16 == d && w / 0x4000 % 2 == c / 0x40 % 2 && w / 0x8000 % 8 == c / 0x80
  {
    var g := d + 0x10 * e;
    ShiftedPast(l, c + 0x400 * g);
    UpperFields(c + 0x400 * g, c, g);
  }

  /** The fields of a control word put together from its bits 3..0, 7..4, 17..8, 21..18 and 31..22. */
  lemma FieldsOf(w: u32, a: nat, b: nat, c: nat, d: nat, e: nat)
    requires a < 0x10 && b < 0x10 && c < 0x400 && d < 0x10 && e < 0x400
    requires w == a + 0x10 * b + 0x100 * (c + 0x400 * (d + 0x10 * e))
    ensures w / 0x10 % 16 == b && w / 0x4_0000 % 16 == d
    ensures w % 2 == a % 2 && w / 2 % 8 == a / 2
    ensures w / 0x4000 % 2 == c / 0x40 % 2 && w / 0x8000 % 8 == c / 0x80
  {
    LowFields(w, a, b, c + 0x400 * (d + 0x10 * e));
    HighFields(w, a + 0x10 * b, c, d, e);
  }

  lemma Decompose(w: u32) returns (a: nat, b: nat, c: nat, d: nat, e: nat)
    ensures a < 0x10 && b < 0x10 && c < 0x400 && d < 0x10 && e < 0x400
    ensures w == a + 0x10 * b + 0x100 * (c + 0x400 * (d + 0x10 * e))
    ensures b == w / 0x10 % 16 && d == w / 0x4_0000 % 16
  {
    var w1 := w / 0x10;
    var w2 := w1 / 0x10;
    var w3 := w2 / 0x400;
    a, b, c, d, e := w % 0x10, w1 % 0x10, w2 % 0x400, w3 % 0x10, w3 / 0x10;
    FieldsOf(w, a, b, c, d, e);
  }

  lemma SetBeatsFields(ccr: u32, n: nat)
    requires n < 16
    ensures var c := SetBeats(ccr, n);
      && SrcBeats(c) == n + 1 && DstBeats(c) == n + 1
      && SrcSize(c) == SrcSize(ccr) && DstSize(c) == DstSize(ccr)
      && (SrcInc(c) <==> SrcInc(ccr)) && (DstInc(c) <==> DstInc(ccr))
  {
    var a, b, c, d, e := Decompose(ccr);
    FieldsOf(ccr, a, b, c, d, e);
    var w := SetBeats(ccr, n);
    assert w == a + 0x10 * n + 0x100 * (c + 0x400 * (n + 0x10 * e));
    FieldsOf(w, a, n, c, n, e);
  }

  function NumDregs(x: Spec): (r: nat)
    ensures r < 16
  {
    x.periodBytes / SrcSize(x.ccr) % SrcBeats(x.ccr)
  }

  function DregsCode(x: Spec, n: nat): seq<Instr>
    requires n <= 16
  {
    if n == 0 then [] else [Mov(CCR, SetBeats(x.ccr, n - 1))] + BurstsCode(x, 1)
  }

  // The first loop runs `MainCount` times over `MainCyc` bursts; what is left is looped over once more.
  function MainCount(bursts: nat): nat { if bursts > 256 then 256 else bursts }
  function MainCyc(bursts: nat): nat { if bursts > 256 then bursts / 256 else 1 }
  function Remainder(bursts: nat): (r: nat)
    ensures r < 256
  { bursts - MainCount(bursts) * MainCyc(bursts) }

  function RemainderCode(x: Spec, bursts: nat): seq<Instr> {
    if Remainder(bursts) == 0 then [] else LoopCode(true, Remainder(bursts), BurstsCode(x, 1))
  }

  function TailCode(x: Spec, ev: byte): seq<Instr> {
    (if NumDregs(x) == 0 then [] else DregsCode(x, NumDregs(x)) + [Mov(CCR, x.ccr)]) + [Sev(ev % 32)]
  }

  function PeriodCode(x: Spec, bursts: nat, ev: byte): seq<Instr> {
    LoopCode(true, MainCount(bursts) % 256, BurstsCode(x, MainCyc(bursts)))
    + RemainderCode(x, bursts) + TailCode(x, ev)
  }

  function PeriodsCode(x: Spec, bursts: nat, ev: byte, n: nat): seq<Instr> {
    if n == 0 then [] else PeriodCode(x, bursts, ev) + PeriodsCode(x, bursts, ev, n - 1)
  }

  /** The number of period copies in the outer loop body: the first `p` from `from` on with numPeriods/p <= 256. */
  function Unrolled(numPeriods: nat, from: nat): (p: nat)
    requires from > 0
    ensures p >= from && numPeriods / p <= 256
    ensures forall q :: from <= q < p ==> numPeriods / q > 256
    decreases numPeriods - from
  {
    if numPeriods / from <= 256 then from
    else
      assert from < numPeriods by { if from >= numPeriods { DivSmall(numPeriods, from); } }
      Unrolled(numPeriods, from + 1)
  }

  lemma DivSmall(n: nat, d: nat)
    requires 0 < d && n <= d
    ensures n / d <= 1
  {
    if n < d { assert n / d == 0; } else { assert n / d == 1; }
  }

  function Copies(x: Spec): (p: nat)
    ensures p > 0
  { Unrolled(x.numPeriods, 1) }

  function OuterCount(x: Spec): (r: nat)
    ensures r <= 256
  { x.numPeriods / Copies(x) }

  function Residue(x: Spec): nat { x.numPeriods % Copies(x) }

  function PassCode(x: Spec, bursts: nat, ev: byte): seq<Instr> {
    [Mov(SAR, x.srcAddr), Mov(DAR, x.dstAddr)]
    + LoopCode(false, OuterCount(x) % 256, PeriodsCode(x, bursts, ev, Copies(x)))
    + PeriodsCode(x, bursts, ev, Residue(x))
  }

  /** The whole endless program. */
  function CyclicCode(x: Spec, bursts: nat, ev: byte): seq<Instr> {
    PassCode(x, bursts, ev) + [LpEnd(Always, true, true, |Assemble(PassCode(x, bursts, ev))| % 256)]
  }

  // ---- sizes ----

  function UnitSize(x: Spec): nat { if x.involvesDevice then 5 else 2 }

  function BurstsSize(x: Spec, cyc: nat): nat { (if x.involvesDevice then 2 else 0) + cyc * UnitSize(x) }

  function PeriodSize(x: Spec, bursts: nat): nat {
    4 + BurstsSize(x, MainCyc(bursts))
    + (if Remainder(bursts) == 0 then 0 else 4 + BurstsSize(x, 1))
    + (if NumDregs(x) == 0 then 0 else 12 + BurstsSize(x, 1)) + 2
  }

  function PassSize(x: Spec, bursts: nat): nat {
    16 + Times(Copies(x) + Residue(x), PeriodSize(x, bursts))
  }

  lemma {:induction false} UnitsSize(x: Spec, cyc: nat)
    ensures |Assemble(UnitsCode(x, Burst, cyc))| == cyc * UnitSize(x)
  {
    if cyc > 0 {
      AssembleConcat(UnitCode(x, Burst), UnitsCode(x, Burst, cyc - 1));
      UnitsSize(x, cyc - 1);
      AssembleUnit(x);
    }
  }

  lemma AssembleUnit(x: Spec)
    ensures |Assemble(UnitCode(x, Burst))| == UnitSize(x)
  {
    var u := UnitCode(x, Burst);
    if x.involvesDevice {
      var w := Wfp(Burst, x.Peri());
      AssembleConcat([w] + LoadCode(x, Burst), StoreCode(x, Burst));
      AssembleConcat([w], LoadCode(x, Burst));
      AssembleOne(w);
      AssembleOne(LoadCode(x, Burst)[0]);
      AssembleOne(StoreCode(x, Burst)[0]);
    } else {
      assert u == [Ld(Always)] + [St(Always)];
      AssembleConcat([Ld(Always)], [St(Always)]);
      AssembleOne(Ld(Always));
      AssembleOne(St(Always));
    }
  }

  lemma AssembleOne(i: Instr)
    ensures Assemble([i]) == Encode(i)
  {
    assert [i][1..] == [];
  }

  lemma BurstsLength(x: Spec, cyc: nat)
    ensures |Assemble(BurstsCode(x, cyc))| == BurstsSize(x, cyc)
  {
    UnitsSize(x, cyc);
    if x.involvesDevice {
      AssembleConcat([FlushP(x.Peri())], UnitsCode(x, Burst, cyc));
      AssembleOne(FlushP(x.Peri()));
    } else {
      assert BurstsCode(x, cyc) == UnitsCode(x, Burst, cyc);
    }
  }

  lemma LoopLength(second: bool, count: byte, body: seq<Instr>)
    ensures |Assemble(LoopCode(second, count, body))| == 4 + |Assemble(body)|
  {
    var e := LpEnd(Always, false, second, |Assemble(body)| % 256);
    AssembleConcat([Lp(second, Iterates(count))] + body, [e]);
    AssembleConcat([Lp(second, Iterates(count))], body);
    AssembleOne(Lp(second, Iterates(count)));
    AssembleOne(e);
  }

  lemma TailLength(x: Spec, ev: byte)
    ensures |Assemble(TailCode(x, ev))| == (if NumDregs(x) == 0 then 0 else 12 + BurstsSize(x, 1)) + 2
  {
    AssembleOne(Sev(ev % 32));
    if NumDregs(x) != 0 {
      var d := DregsCode(x, NumDregs(x));
      var m := Mov(CCR, SetBeats(x.ccr, NumDregs(x) - 1));
      AssembleConcat([m], BurstsCode(x, 1));
      AssembleOne(m);
      AssembleOne(Mov(CCR, x.ccr));
      BurstsLength(x, 1);
      AssembleConcat(d, [Mov(CCR, x.ccr)]);
      AssembleConcat(d + [Mov(CCR, x.ccr)], [Sev(ev % 32)]);
    } else {
      assert TailCode(x, ev) == [Sev(ev % 32)];
    }
  }

  lemma PeriodLength(x: Spec, bursts: nat, ev: byte)
    ensures |Assemble(PeriodCode(x, bursts, ev))| == PeriodSize(x, bursts)
  {
    var body := BurstsCode(x, MainCyc(bursts));
    var main := LoopCode(true, MainCount(bursts) % 256, body);
    BurstsLength(x, MainCyc(bursts));
    LoopLength(true, MainCount(bursts) % 256, body);
    if Remainder(bursts) != 0 {
      BurstsLength(x, 1);
      LoopLength(true, Remainder(bursts), BurstsCode(x, 1));
    }
    TailLength(x, ev);
    AssembleConcat(main + RemainderCode(x, bursts), TailCode(x, ev));
    AssembleConcat(main, RemainderCode(x, bursts));
  }

  lemma EmptyAssembles()
    ensures Assemble([]) == []
  {
  }

  lemma {:induction false} PeriodsLength(x: Spec, bursts: nat, ev: byte, n: nat)
    ensures |Assemble(PeriodsCode(x, bursts, ev, n))| == Times(n, PeriodSize(x, bursts))
  {
    hide PeriodCode;
    hide PeriodSize;
    hide Assemble;
    if n == 0 {
      assert Assemble([]) == [] by { EmptyAssembles(); }
    } else {
      PeriodLength(x, bursts, ev);
      PeriodsLength(x, bursts, ev, n - 1);
      AssembleConcat(PeriodCode(x, bursts, ev), PeriodsCode(x, bursts, ev, n - 1));
    }
  }

  /** The closed form of the program's length. */
  lemma ProgramLength(x: Spec, bursts: nat, ev: byte)
    ensures |Assemble(PassCode(x, bursts, ev))| == PassSize(x, bursts)
    ensures |Assemble(CyclicCode(x, bursts, ev))| == PassSize(x, bursts) + 2
  {
    hide PeriodsCode;
    hide PeriodSize;
    hide LoopCode;
    hide Assemble;
    hide Copies;
    hide Residue;
    hide OuterCount;
    var movs := [Mov(SAR, x.srcAddr), Mov(DAR, x.dstAddr)];
    var body := PeriodsCode(x, bursts, ev, Copies(x));
    var loop := LoopCode(false, OuterCount(x) % 256, body);
    var rest := PeriodsCode(x, bursts, ev, Residue(x));
    assert movs == [Mov(SAR, x.srcAddr)] + [Mov(DAR, x.dstAddr)];
    AssembleConcat([Mov(SAR, x.srcAddr)], [Mov(DAR, x.dstAddr)]);
    AssembleOne(Mov(SAR, x.srcAddr));
    AssembleOne(Mov(DAR, x.dstAddr));
    PeriodsLength(x, bursts, ev, Copies(x));
    PeriodsLength(x, bursts, ev, Residue(x));
    LoopLength(false, OuterCount(x) % 256, body);
    AssembleConcat(movs + loop, rest);
    AssembleConcat(movs, loop);
    Distributes(Copies(x), Residue(x), PeriodSize(x, bursts));
    var e := LpEnd(Always, true, true, |Assemble(PassCode(x, bursts, ev))| % 256);
    AssembleConcat(PassCode(x, bursts, ev), [e]);
    AssembleOne(e);
  }

  // ---- loop splitting ----

  /** The outer loop and the residue together run numPeriods periods, unless numPeriods is 0:
      then the count byte 0 makes the controller run 256 of them. */
  lemma PeriodSplit(x: Spec)
    ensures OuterCount(x) * Copies(x) + Residue(x) == x.numPeriods
    ensures x.numPeriods > 0 ==> OuterCount(x) >= 1
    ensures Iterates(OuterCount(x) % 256) * Copies(x) + Residue(x)
      == if x.numPeriods == 0 then 256 else x.numPeriods
  {
    var p := Copies(x);
    assert OuterCount(x) * p + Residue(x) == x.numPeriods;
    if x.numPeriods > 0 {
      UnrolledAtMost(x.numPeriods, 1);
      DivPositive(x.numPeriods, p);
    } else {
      assert p == 1;
    }
  }

  lemma UnrolledAtMost(n: nat, from: nat)
    requires 0 < from <= n
    ensures Unrolled(n, from) <= n
  {
    var p := Unrolled(n, from);
    if p > n {
      DivSmall(n, n);
      assert false;
    }
  }

  lemma DivPositive(n: nat, d: nat)
    requires 0 < d <= n
    ensures n / d >= 1
  {
    var q, r := n / d, n % d;
    assert n == q * d + r && r < d;
  }

  /** The main loop and the remainder loop together run `bursts` bursts, unless bursts is 0: then
      the controller runs 256 of them. */
  lemma BurstSplit(bursts: nat)
    ensures Iterates(MainCount(bursts) % 256) * MainCyc(bursts) + Remainder(bursts)
      == if bursts == 0 then 256 else bursts
    ensures Remainder(bursts) != 0 ==> bursts > 256
  {
  }
}
