/** Running the compiled bytes on the channel means the cyclic transfer that was asked for. */
module Pl330Correctness {
  import opened Common
  import opened Machine32
  import opened Pl330Encoding
  import opened Pl330Machine
  import opened Pl330Compiler

  // ---- counted loops ----

  function Iterate(body: seq<Instr>, d: Data, k: nat): Data
    requires Straight(body)
    decreases k
  {
    if k == 0 then d else Iterate(body, Effects(body, d), k - 1)
  }

  lemma {:induction false} IterateSplit(body: seq<Instr>, d: Data, j: nat, k: nat)
    requires Straight(body)
    ensures Iterate(body, d, j + k) == Iterate(body, Iterate(body, d, j), k)
    decreases j
  {
    if j > 0 {
      IterateSplit(body, Effects(body, d), j - 1, k);
    }
  }

  /** From the head of a loop-1 body, the channel runs the body lc1 + 1 times and falls through. */
  lemma {:induction false} RunLoop1Body(mem: seq<byte>, s: State, body: seq<Instr>)
    requires Straight(body) && |Assemble(body)| < 256 && !s.faulted
    requires At(mem, s.pc, body + [LpEnd(Always, false, true, |Assemble(body)|)])
    ensures Reaches(mem, s, s.(pc := s.pc + |Assemble(body)| + 2, lc1 := 0, d := Iterate(body, s.d, s.lc1 + 1)))
    decreases s.lc1
  {
    hide Assemble;
    hide Effects;
    hide Reaches;
    var size := |Assemble(body)|;
    var end := LpEnd(Always, false, true, size);
    var done := s.(pc := s.pc + size + 2, lc1 := 0, d := Iterate(body, s.d, s.lc1 + 1));
    AtSplit(mem, s.pc, body, [end]);
    ReachStraight(mem, s, body);
    var s1 := After(s, body, Effects(body, s.d));
    ReachLpEnd(mem, s1, true, size);
    if s.lc1 == 0 {
      assert Iterate(body, s1.d, 0) == s1.d;
    } else {
      var s2 := s1.(pc := s.pc, lc1 := s.lc1 - 1);
      RunLoop1Body(mem, s2, body);
      Then(mem, s1, s2, done);
    }
    Then(mem, s, s1, done);
  }

  lemma RunLoop1(mem: seq<byte>, s: State, count: byte, body: seq<Instr>)
    requires Straight(body) && |Assemble(body)| < 256 && !s.faulted
    requires At(mem, s.pc, LoopCode(true, count, body))
    ensures Reaches(mem, s,
      After(s, LoopCode(true, count, body), Iterate(body, s.d, Iterates(count))).(lc1 := 0))
  {
    hide Assemble;
    hide Reaches;
    hide Iterate;
    var lp := Lp(true, Iterates(count));
    var end := LpEnd(Always, false, true, |Assemble(body)|);
    assert LoopCode(true, count, body) == [lp] + (body + [end]);
    AtSplit(mem, s.pc, [lp], body + [end]);
    AssembleOne(lp);
    ReachLp(mem, s, true, Iterates(count));
    var s1 := s.(pc := s.pc + 2, lc1 := Iterates(count) - 1);
    RunLoop1Body(mem, s1, body);
    LoopLength(true, count, body);
    Then(mem, s, s1, After(s, LoopCode(true, count, body), Iterate(body, s.d, Iterates(count))).(lc1 := 0));
  }

  // ---- one period ----

  lemma StraightUnit(x: Spec)
    ensures Straight(UnitCode(x, Burst))
  {
  }

  lemma {:induction false} StraightUnits(x: Spec, n: nat)
    ensures Straight(UnitsCode(x, Burst, n))
  {
    if n > 0 { StraightUnits(x, n - 1); }
  }

  lemma StraightBursts(x: Spec, n: nat)
    ensures Straight(BurstsCode(x, n))
  {
    StraightUnits(x, n);
  }

  /** `n` bursts with the control word that stands in the channel. */
  function Bursts(x: Spec, d: Data, n: nat): Data {
    Iterate(UnitCode(x, Burst), d, n)
  }

  lemma {:induction false} UnitsEffect(x: Spec, d: Data, n: nat)
    ensures Straight(UnitsCode(x, Burst, n)) && Effects(UnitsCode(x, Burst, n), d) == Bursts(x, d, n)
    decreases n
  {
    hide UnitCode;
    StraightUnits(x, n);
    StraightUnit(x);
    if n > 0 {
      StraightUnits(x, n - 1);
      EffectsConcat(UnitCode(x, Burst), UnitsCode(x, Burst, n - 1), d);
      UnitsEffect(x, Effects(UnitCode(x, Burst), d), n - 1);
    }
  }

  lemma BurstsEffect(x: Spec, d: Data, n: nat)
    ensures Straight(BurstsCode(x, n)) && Effects(BurstsCode(x, n), d) == Bursts(x, d, n)
  {
    StraightBursts(x, n);
    StraightUnits(x, n);
    UnitsEffect(x, d, n);
    if x.involvesDevice {
      var f := [FlushP(x.Peri())];
      EffectsConcat(f, UnitsCode(x, Burst, n), d);
      assert f[1..] == [];
      assert Effects(f, d) == d;
    } else {
      assert BurstsCode(x, n) == UnitsCode(x, Burst, n);
    }
  }

  lemma {:induction false} LoopedBursts(x: Spec, d: Data, cyc: nat, k: nat)
    ensures Straight(BurstsCode(x, cyc)) && Iterate(BurstsCode(x, cyc), d, k) == Bursts(x, d, k * cyc)
    decreases k
  {
    hide BurstsCode;
    hide UnitCode;
    hide Effects;
    StraightBursts(x, cyc);
    StraightUnit(x);
    if k > 0 {
      BurstsEffect(x, d, cyc);
      LoopedBursts(x, Bursts(x, d, cyc), cyc, k - 1);
      IterateSplit(UnitCode(x, Burst), d, cyc, (k - 1) * cyc);
      assert k * cyc == cyc + (k - 1) * cyc;
    }
  }

  /** The number of full bursts a period moves: LP has no count 0, so 0 stands for 256. */
  function FullBursts(bursts: nat): nat { if bursts == 0 then 256 else bursts }

  /** What one period does: its full bursts, then one shorter burst if beats are left, then the event. */
  function Period(x: Spec, bursts: nat, ev: byte, d: Data): Data {
    var d1 := Bursts(x, d, FullBursts(bursts));
    var n := NumDregs(x);
    var d2 := if n == 0 then d1 else Bursts(x, d1.(ccr := SetBeats(x.ccr, n - 1)), 1).(ccr := x.ccr);
    d2.(trace := d2.trace + [Signal(ev % 32)])
  }

  lemma TailEffect(x: Spec, ev: byte, d: Data)
    ensures Straight(TailCode(x, ev))
    ensures Effects(TailCode(x, ev), d)
      == var n := NumDregs(x);
         var d2 := if n == 0 then d else Bursts(x, d.(ccr := SetBeats(x.ccr, n - 1)), 1).(ccr := x.ccr);
         d2.(trace := d2.trace + [Signal(ev % 32)])
  {
    var n := NumDregs(x);
    var sev := [Sev(ev % 32)];
    assert sev[1..] == [];
    if n == 0 {
      assert TailCode(x, ev) == sev;
    } else {
      var m, r := [Mov(CCR, SetBeats(x.ccr, n - 1))], [Mov(CCR, x.ccr)];
      assert m[1..] == [] && r[1..] == [];
      StraightBursts(x, 1);
      BurstsEffect(x, Effects(m, d), 1);
      EffectsConcat(m, BurstsCode(x, 1), d);
      EffectsConcat(m + BurstsCode(x, 1), r, d);
      EffectsConcat(m + BurstsCode(x, 1) + r, sev, d);
    }
  }

  function BurstLoops(x: Spec, bursts: nat): seq<Instr> {
    LoopCode(true, MainCount(bursts) % 256, BurstsCode(x, MainCyc(bursts))) + RemainderCode(x, bursts)
  }

  lemma RunRemainder(mem: seq<byte>, s: State, x: Spec, bursts: nat)
    requires !s.faulted && s.lc1 == 0 && BurstsSize(x, 1) < 256
    requires At(mem, s.pc, RemainderCode(x, bursts))
    ensures Reaches(mem, s, After(s, RemainderCode(x, bursts), Bursts(x, s.d, Remainder(bursts))))
  {
    hide Reaches;
    hide BurstsCode;
    var rest := Remainder(bursts);
    if rest == 0 {
      Stay(mem, s);
      assert Iterate(UnitCode(x, Burst), s.d, 0) == s.d;
    } else {
      StraightBursts(x, 1);
      BurstsLength(x, 1);
      RunLoop1(mem, s, rest, BurstsCode(x, 1));
      LoopedBursts(x, s.d, 1, rest);
    }
  }

  /** The two burst loops of a period together run its full bursts. */
  lemma RunBurstLoops(mem: seq<byte>, s: State, x: Spec, bursts: nat)
    requires !s.faulted && BurstsSize(x, MainCyc(bursts)) < 256
    requires At(mem, s.pc, BurstLoops(x, bursts))
    ensures Reaches(mem, s, After(s, BurstLoops(x, bursts), Bursts(x, s.d, FullBursts(bursts))).(lc1 := 0))
  {
    hide Reaches;
    hide BurstsCode;
    hide LoopCode;
    hide Iterate;
    hide Assemble;
    hide RemainderCode;
    var cyc, count := MainCyc(bursts), MainCount(bursts) % 256;
    var k := Iterates(count);
    var main := LoopCode(true, count, BurstsCode(x, cyc));
    StraightBursts(x, cyc);
    BurstsLength(x, cyc);
    AtSplit(mem, s.pc, main, RemainderCode(x, bursts));
    RunLoop1(mem, s, count, BurstsCode(x, cyc));
    LoopedBursts(x, s.d, cyc, k);
    var s1 := After(s, main, Bursts(x, s.d, k * cyc)).(lc1 := 0);
    assert BurstsSize(x, 1) < 256;
    RunRemainder(mem, s1, x, bursts);
    BurstSplit(bursts);
    IterateSplit(UnitCode(x, Burst), s.d, k * cyc, Remainder(bursts));
    Then(mem, s, s1, After(s, BurstLoops(x, bursts), Bursts(x, s.d, FullBursts(bursts))).(lc1 := 0));
  }

  lemma RunPeriod(mem: seq<byte>, s: State, x: Spec, bursts: nat, ev: byte)
    requires !s.faulted && BurstsSize(x, MainCyc(bursts)) < 256
    requires At(mem, s.pc, PeriodCode(x, bursts, ev))
    ensures Reaches(mem, s, After(s, PeriodCode(x, bursts, ev), Period(x, bursts, ev, s.d)).(lc1 := 0))
  {
    hide Reaches;
    hide BurstsCode;
    hide LoopCode;
    hide Bursts;
    hide Assemble;
    hide RemainderCode;
    hide TailCode;
    hide Effects;
    var loops := BurstLoops(x, bursts);
    AtSplit(mem, s.pc, loops, TailCode(x, ev));
    RunBurstLoops(mem, s, x, bursts);
    var s1 := After(s, loops, Bursts(x, s.d, FullBursts(bursts))).(lc1 := 0);
    TailEffect(x, ev, s1.d);
    ReachStraight(mem, s1, TailCode(x, ev));
    Then(mem, s, s1, After(s, PeriodCode(x, bursts, ev), Period(x, bursts, ev, s.d)).(lc1 := 0));
  }

  function Periods(x: Spec, bursts: nat, ev: byte, d: Data, n: nat): Data
    decreases n
  {
    if n == 0 then d else Periods(x, bursts, ev, Period(x, bursts, ev, d), n - 1)
  }

  lemma {:induction false} PeriodsSplit(x: Spec, bursts: nat, ev: byte, d: Data, j: nat, k: nat)
    ensures Periods(x, bursts, ev, d, j + k) == Periods(x, bursts, ev, Periods(x, bursts, ev, d, j), k)
    decreases j
  {
    if j > 0 {
      PeriodsSplit(x, bursts, ev, Period(x, bursts, ev, d), j - 1, k);
    }
  }

  lemma {:induction false} RunPeriods(mem: seq<byte>, s: State, x: Spec, bursts: nat, ev: byte, k: nat)
    requires !s.faulted && BurstsSize(x, MainCyc(bursts)) < 256
    requires k == 0 ==> s.lc1 == 0
    requires At(mem, s.pc, PeriodsCode(x, bursts, ev, k))
    ensures Reaches(mem, s, After(s, PeriodsCode(x, bursts, ev, k), Periods(x, bursts, ev, s.d, k)).(lc1 := 0))
    decreases k
  {
    hide Reaches;
    hide PeriodCode;
    hide Period;
    hide Assemble;
    if k == 0 {
      Stay(mem, s);
      EmptyAssembles();
    } else {
      AtSplit(mem, s.pc, PeriodCode(x, bursts, ev), PeriodsCode(x, bursts, ev, k - 1));
      RunPeriod(mem, s, x, bursts, ev);
      var s1 := After(s, PeriodCode(x, bursts, ev), Period(x, bursts, ev, s.d)).(lc1 := 0);
      RunPeriods(mem, s1, x, bursts, ev, k - 1);
      Then(mem, s, s1, After(s, PeriodsCode(x, bursts, ev, k), Periods(x, bursts, ev, s.d, k)).(lc1 := 0));
    }
  }

  // ---- the outer loop ----

  lemma {:induction false} RunLoop0Body(mem: seq<byte>, s: State, x: Spec, bursts: nat, ev: byte, k: nat)
    requires !s.faulted && k > 0 && BurstsSize(x, MainCyc(bursts)) < 256
    requires |Assemble(PeriodsCode(x, bursts, ev, k))| < 256
    requires At(mem, s.pc, PeriodsCode(x, bursts, ev, k)
      + [LpEnd(Always, false, false, |Assemble(PeriodsCode(x, bursts, ev, k))|)])
    ensures Reaches(mem, s,
      s.(pc := s.pc + |Assemble(PeriodsCode(x, bursts, ev, k))| + 2, lc0 := 0, lc1 := 0,
         d := Periods(x, bursts, ev, s.d, (s.lc0 + 1) * k)))
    decreases s.lc0
  {
    hide Reaches;
    hide PeriodsCode;
    hide Periods;
    hide Assemble;
    var body := PeriodsCode(x, bursts, ev, k);
    var size := |Assemble(body)|;
    AtSplit(mem, s.pc, body, [LpEnd(Always, false, false, size)]);
    RunPeriods(mem, s, x, bursts, ev, k);
    var s1 := After(s, body, Periods(x, bursts, ev, s.d, k)).(lc1 := 0);
    ReachLpEnd(mem, s1, false, size);
    var done := s.(pc := s.pc + size + 2, lc0 := 0, lc1 := 0, d := Periods(x, bursts, ev, s.d, (s.lc0 + 1) * k));
    if s.lc0 > 0 {
      var s2 := s1.(pc := s.pc, lc0 := s.lc0 - 1);
      RunLoop0Body(mem, s2, x, bursts, ev, k);
      PeriodsSplit(x, bursts, ev, s.d, k, s.lc0 * k);
      assert (s.lc0 + 1) * k == k + s.lc0 * k;
      Then(mem, s1, s2, done);
    } else {
      assert (s.lc0 + 1) * k == k;
    }
    Then(mem, s, s1, done);
  }

  /** The number of periods per pass: LP has no count 0, so 0 stands for 256. */
  function PassPeriods(x: Spec): nat { if x.numPeriods == 0 then 256 else x.numPeriods }

  /** All jumps of the program reach back as far as they should exactly when the longest one does. */
  predicate JumpsFit(x: Spec, bursts: nat) { PassSize(x, bursts) < 256 }

  lemma InnerJumpsFit(x: Spec, bursts: nat)
    requires JumpsFit(x, bursts)
    ensures BurstsSize(x, MainCyc(bursts)) < 256
    ensures Times(Copies(x), PeriodSize(x, bursts)) < 256
  {
    var c, r, p := Copies(x), Residue(x), PeriodSize(x, bursts);
    assert BurstsSize(x, MainCyc(bursts)) <= p;
    ScaledSum(c, r, p);
  }

  lemma ScaledSum(c: nat, r: nat, p: nat)
    requires c > 0
    ensures p <= c * p <= (c + r) * p
  {
  }

  lemma MovsEffect(d: Data, src: u32, dst: u32)
    ensures var movs := [Mov(SAR, src), Mov(DAR, dst)];
      Straight(movs) && Effects(movs, d) == d.(sar := src, dar := dst)
  {
    var movs := [Mov(SAR, src), Mov(DAR, dst)];
    var m := [Mov(DAR, dst)];
    assert movs[1..] == m && m[1..] == [];
    assert Effects(m, d.(sar := src)) == d.(sar := src, dar := dst);
  }

  function PassResult(x: Spec, bursts: nat, ev: byte, d: Data): Data {
    Periods(x, bursts, ev, d.(sar := x.srcAddr, dar := x.dstAddr), PassPeriods(x))
  }

  /** The counted outer loop, from its LP on. */
  lemma RunLoop0(mem: seq<byte>, s: State, x: Spec, bursts: nat, ev: byte)
    requires !s.faulted && JumpsFit(x, bursts)
    requires At(mem, s.pc, LoopCode(false, OuterCount(x) % 256, PeriodsCode(x, bursts, ev, Copies(x))))
    ensures var code := LoopCode(false, OuterCount(x) % 256, PeriodsCode(x, bursts, ev, Copies(x)));
      Reaches(mem, s,
        After(s, code, Periods(x, bursts, ev, s.d, Iterates(OuterCount(x) % 256) * Copies(x))).(lc0 := 0, lc1 := 0))
  {
    hide Reaches;
    hide PeriodsCode;
    hide Periods;
    hide Assemble;
    hide PeriodSize;
    var c := Copies(x);
    var k: int := Iterates(OuterCount(x) % 256);
    var body := PeriodsCode(x, bursts, ev, c);
    InnerJumpsFit(x, bursts);
    PeriodsLength(x, bursts, ev, c);
    var size := |Assemble(body)|;
    var end0 := LpEnd(Always, false, false, size);
    var code := LoopCode(false, OuterCount(x) % 256, body);
    assert code == [Lp(false, k)] + (body + [end0]);
    AtSplit(mem, s.pc, [Lp(false, k)], body + [end0]);
    AssembleOne(Lp(false, k));
    LoopLength(false, OuterCount(x) % 256, body);
    ReachLp(mem, s, false, k);
    var s1 := s.(pc := s.pc + 2, lc0 := k - 1);
    RunLoop0Body(mem, s1, x, bursts, ev, c);
    Then(mem, s, s1, After(s, code, Periods(x, bursts, ev, s.d, k * c)).(lc0 := 0, lc1 := 0));
  }

  /** One pass of the endless loop: from its head, the channel runs PassPeriods periods from the
      start addresses and is back at the head. */
  lemma RunPass(mem: seq<byte>, s: State, x: Spec, bursts: nat, ev: byte)
    requires !s.faulted && JumpsFit(x, bursts)
    requires At(mem, s.pc, CyclicCode(x, bursts, ev))
    ensures Reaches(mem, s, s.(lc0 := 0, lc1 := 0, d := PassResult(x, bursts, ev, s.d)))
  {
    hide Reaches;
    hide PeriodsCode;
    hide Periods;
    hide Assemble;
    hide LoopCode;
    hide Effects;
    hide PeriodSize;
    var movs := [Mov(SAR, x.srcAddr), Mov(DAR, x.dstAddr)];
    var rest := PeriodsCode(x, bursts, ev, Residue(x));
    var loop := LoopCode(false, OuterCount(x) % 256, PeriodsCode(x, bursts, ev, Copies(x)));
    var k := Iterates(OuterCount(x) % 256) * Copies(x);
    ProgramLength(x, bursts, ev);
    var size := PassSize(x, bursts);
    AtSplit(mem, s.pc, movs + loop + rest, [LpEnd(Always, true, true, size)]);
    AtSplit(mem, s.pc, movs + loop, rest);
    AtSplit(mem, s.pc, movs, loop);
    MovsEffect(s.d, x.srcAddr, x.dstAddr);
    ReachStraight(mem, s, movs);
    var s1 := After(s, movs, s.d.(sar := x.srcAddr, dar := x.dstAddr));
    RunLoop0(mem, s1, x, bursts, ev);
    var s2 := After(s1, loop, Periods(x, bursts, ev, s1.d, k)).(lc0 := 0, lc1 := 0);
    RunPeriods(mem, s2, x, bursts, ev, Residue(x)) by { InnerJumpsFit(x, bursts); }
    PeriodSplit(x);
    PeriodsSplit(x, bursts, ev, s1.d, k, Residue(x));
    var s3 := After(s2, rest, PassResult(x, bursts, ev, s.d));
    ReachLpFe(mem, s3, true, size);
    var s4 := s.(lc0 := 0, lc1 := 0, d := PassResult(x, bursts, ev, s.d));
    Then(mem, s2, s3, s4);
    Then(mem, s1, s2, s4);
    Then(mem, s, s1, s4);
  }
}
