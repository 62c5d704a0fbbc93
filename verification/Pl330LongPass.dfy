/** What an audio transfer does whose pass is too long for the jumps of its program: with 5120 periods of 1024
    bytes the outer loop holds 20 periods, 260 bytes, and its jump goes back by 4 of them. */
module Pl330LongPass {
  import opened Common
  import opened Machine32
  import opened Pl330Encoding
  import opened Pl330Machine
  import opened Pl330Compiler
  import opened Pl330Correctness
  import opened Pl330Meaning

  function Long(fromDevice: bool, id: byte, src: u32, dst: u32): Spec {
    AudioSpec(fromDevice, id, src, dst, 20 * 256 * 1024, 1024)
  }

  predicate IsLong(x: Spec) { IsAudio(x) && x.numPeriods == 5120 && x.periodBytes == 1024 }

  lemma LongIsLong(fromDevice: bool, id: byte, src: u32, dst: u32)
    ensures IsLong(Long(fromDevice, id, src, dst))
  {
  }

  lemma Sizes(x: Spec)
    requires IsLong(x)
    ensures Copies(x) == 20 && OuterCount(x) == 256 && Residue(x) == 0 && AudioBursts(x) == 32
    ensures MainCyc(32) == 1 && BurstsSize(x, 1) == 7 && NumDregs(x) == 0 && PeriodSize(x, 32) == 13
  {
    UnrolledIs(5120, 1, 20);
    AudioFields(x);
  }

  lemma {:induction false} LastPeriod(x: Spec, bursts: nat, ev: byte, n: nat)
    ensures PeriodsCode(x, bursts, ev, n + 1) == PeriodsCode(x, bursts, ev, n) + PeriodCode(x, bursts, ev)
  {
    hide PeriodCode;
    if n > 0 { LastPeriod(x, bursts, ev, n - 1); }
  }

  /** The last four bytes of the body are the end of the last burst loop and the signal. */
  lemma TailOfBody(mem: seq<byte>, at: nat, x: Spec)
    requires IsLong(x) && At(mem, at, PeriodsCode(x, 32, x.peripheral, 20))
    ensures |Assemble(PeriodsCode(x, 32, x.peripheral, 20))| == 260
    ensures At(mem, at + 256, [LpEnd(Always, false, true, 7)]) && At(mem, at + 258, [Sev(x.peripheral % 32)])
  {
    hide At;
    hide Assemble;
    hide BurstsCode;
    hide PeriodsCode;
    hide PeriodSize;
    Sizes(x);
    var ev := x.peripheral;
    var body := BurstsCode(x, 1);
    var lp, end, sev := [Lp(true, 32)], [LpEnd(Always, false, true, 7)], [Sev(ev % 32)];
    LastPeriod(x, 32, ev, 19);
    PeriodsLength(x, 32, ev, 19);
    PeriodsLength(x, 32, ev, 20);
    ConstantTimes(19, 13);
    ConstantTimes(20, 13);
    BurstsLength(x, 1);
    AssembleOne(Lp(true, 32));
    AssembleOne(LpEnd(Always, false, true, 7));
    assert PeriodCode(x, 32, ev) == lp + body + end + sev;
    AtSplit(mem, at, PeriodsCode(x, 32, ev, 19), lp + body + end + sev);
    AtSplit(mem, at + 247, lp + body + end, sev);
    AtSplit(mem, at + 247, lp + body, end);
    AtSplit(mem, at + 247, lp, body);
  }

  /** After the movs and one walk through the body the outer loop jumps to its last four bytes, and there the
      channel only signals. */
  lemma BodyThenSignal(mem: seq<byte>, s: State, x: Spec) returns (t: State)
    requires IsLong(x) && !s.faulted && s.d.ccr == x.ccr
    requires At(mem, s.pc, CyclicCode(x, 32, x.peripheral))
    ensures Reaches(mem, s, t) && t.d.trace == s.d.trace + PassEvents(x, 0, 20) + [Signal(x.peripheral % 32)]
  {
    hide At;
    hide Reaches;
    hide Assemble;
    hide PeriodsCode;
    hide Periods;
    hide PassEvents;
    hide Effects;
    hide PeriodSize;
    hide BurstsSize;
    hide PeriodTotal;
    Sizes(x);
    var ev := x.peripheral;
    var body := PeriodsCode(x, 32, ev, 20);
    var movs, lp := [Mov(SAR, x.srcAddr), Mov(DAR, x.dstAddr)], [Lp(false, 256)];
    var tail := CyclicCode(x, 32, ev)[|movs + lp + body|..];
    PeriodsLength(x, 32, ev, 20);
    ConstantTimes(20, 13);
    assert |Assemble(body)| == 260;
    var end0 := LpEnd(Always, false, false, 4);
    assert CyclicCode(x, 32, ev) == movs + lp + body + ([end0] + tail[1..]);
    AtSplit(mem, s.pc, movs + lp + body, [end0] + tail[1..]);
    AtSplit(mem, s.pc, movs + lp, body);
    AtSplit(mem, s.pc, movs, lp);
    MovsEffect(s.d, x.srcAddr, x.dstAddr);
    ReachStraight(mem, s, movs);
    var d0 := s.d.(sar := x.srcAddr, dar := x.dstAddr);
    var s1 := After(s, movs, d0);
    ReachLp(mem, s1, false, 256);
    var s2 := s1.(pc := s1.pc + 2, lc0 := 255);
    Then(mem, s, s1, s2);
    AssembleOne(Lp(false, 256));
    RunPeriods(mem, s2, x, 32, ev, 20);
    var s3 := After(s2, body, Periods(x, 32, ev, d0, 20)).(lc1 := 0);
    Then(mem, s, s2, s3);
    ZeroTimes(PeriodTotal(x));
    assert StandsAt(x, d0, Times(0, PeriodTotal(x)));
    PeriodsAreEvents(x, d0, 0, 20);
    t := SignalsOnly(mem, s3, x, tail);
    Then(mem, s, s3, t);
  }

  lemma SignalsOnly(mem: seq<byte>, s: State, x: Spec, tail: seq<Instr>) returns (t: State)
    requires IsLong(x) && !s.faulted && s.lc0 == 255 && s.lc1 == 0 && s.pc >= 260 && tail != []
    requires At(mem, s.pc - 260, PeriodsCode(x, 32, x.peripheral, 20))
    requires At(mem, s.pc, [LpEnd(Always, false, false, 4)] + tail[1..])
    ensures Reaches(mem, s, t) && t.d == s.d.(trace := s.d.trace + [Signal(x.peripheral % 32)])
  {
    hide At;
    hide Reaches;
    hide Assemble;
    hide PeriodsCode;
    AtSplit(mem, s.pc, [LpEnd(Always, false, false, 4)], tail[1..]);
    ReachLpEnd(mem, s, false, 4);
    var s1 := s.(pc := s.pc - 4, lc0 := 254);
    TailOfBody(mem, s.pc - 260, x);
    ReachLpEnd(mem, s1, true, 7);
    var s2 := s1.(pc := s1.pc + 2);
    Then(mem, s, s1, s2);
    ReachStep(mem, s2, Sev(x.peripheral % 32));
    t := Execute(Sev(x.peripheral % 32), s2);
    Then(mem, s, s2, t);
  }

  lemma {:induction false} PassSplit(x: Spec, k: nat, m: nat, n: nat)
    ensures PassEvents(x, k, m + n) == PassEvents(x, k, m) + PassEvents(x, k + m, n)
    decreases m
  {
    hide PeriodEvents;
    if m > 0 { PassSplit(x, k + 1, m - 1, n); }
  }

  lemma PeriodWaitsFirst(x: Spec, off: nat)
    requires IsLong(x)
    ensures |PeriodEvents(x, off)| > 0 && PeriodEvents(x, off)[0] == Wait(x.Peri())
  {
    assert BurstRun(x, off, 32) == BurstEvents(x, off, 32) + BurstRun(x, off + 32, 31);
  }

  /** The reference goes on with the next period, not with another signal. */
  lemma NotOnTrack(x: Spec, before: seq<Event>, m: nat)
    requires IsLong(x)
    ensures !(before + PassEvents(x, 0, 20) + [Signal(x.peripheral % 32)] <= before + Repeat(OnePass(x), m))
  {
    hide PassEvents;
    hide PeriodEvents;
    var done := PassEvents(x, 0, 20);
    if m > 0 {
      PassSplit(x, 0, 20, 5100);
      PeriodWaitsFirst(x, Times(20, PeriodTotal(x)));
      NextPeriod(x, 20, 5099);
      var all := before + Repeat(OnePass(x), m);
      assert Repeat(OnePass(x), m) == OnePass(x) + Repeat(OnePass(x), m - 1);
      assert all[|before| + |done|] == PassEvents(x, 20, 5100)[0] == Wait(x.Peri());
      assert (before + done + [Signal(x.peripheral % 32)])[|before| + |done|] == Signal(x.peripheral % 32);
    }
  }

  lemma NextPeriod(x: Spec, k: nat, n: nat)
    ensures PassEvents(x, k, n + 1) == PeriodEvents(x, Times(k, PeriodTotal(x))) + PassEvents(x, k + 1, n)
  {
  }

  lemma ProgramThenSignal(mem: seq<byte>, s: State, x: Spec) returns (t: State)
    requires IsLong(x) && !s.faulted && At(mem, s.pc, AudioProgram(x))
    ensures Reaches(mem, s, t) && t.d.trace == s.d.trace + PassEvents(x, 0, 20) + [Signal(x.peripheral % 32)]
  {
    hide At;
    hide Reaches;
    hide CyclicCode;
    hide PassEvents;
    Sizes(x);
    var mov := Mov(CCR, x.ccr);
    AtSplit(mem, s.pc, [mov], CyclicCode(x, 32, x.peripheral));
    AssembleOne(mov);
    ReachStep(mem, s, mov);
    var s1 := Execute(mov, s);
    t := BodyThenSignal(mem, s1, x);
    Then(mem, s, s1, t);
  }

  lemma LeavesForGood(mem: seq<byte>, s: State, n: nat, k: nat, reference: seq<Event>)
    requires k >= n && !(Run(mem, s, n).d.trace <= reference)
    ensures !(Run(mem, s, k).d.trace <= reference)
  {
    hide Step;
    RunSplit(mem, s, n, k - n);
    RunExtends(mem, Run(mem, s, n), k - n);
  }

  /** The program of such a request leaves the reference for good after its first 20 periods: it signals the
      end of a period of which no byte was moved. */
  lemma LongPassLeavesReference(mem: seq<byte>, s: State, fromDevice: bool, id: byte, src: u32, dst: u32) returns (n: nat)
    requires !s.faulted && At(mem, s.pc, AudioProgram(Long(fromDevice, id, src, dst)))
    ensures var x := Long(fromDevice, id, src, dst);
      forall k: nat, m: nat :: k >= n ==> !(Run(mem, s, k).d.trace <= s.d.trace + Repeat(OnePass(x), m))
  {
    hide Long;
    hide IsLong;
    hide At;
    hide AudioProgram;
    hide PassEvents;
    hide OnePass;
    hide Repeat;
    hide Step;
    hide Run;
    var x := Long(fromDevice, id, src, dst);
    LongIsLong(fromDevice, id, src, dst);
    var t := ProgramThenSignal(mem, s, x);
    n :| Run(mem, s, n) == t;
    forall k: nat, m: nat | k >= n
      ensures !(Run(mem, s, k).d.trace <= s.d.trace + Repeat(OnePass(x), m))
    {
      NotOnTrack(x, s.d.trace, m);
      LeavesForGood(mem, s, n, k, s.d.trace + Repeat(OnePass(x), m));
    }
  }
}
