/** What the compiled program of an audio transfer does to the outside world, said without
    reference to the program: which accesses, at which addresses, and when each event is signalled. */
module Pl330Meaning {
  import opened Common
  import opened Machine32
  import opened Pl330Encoding
  import opened Pl330Machine
  import opened Pl330Compiler
  import opened Pl330Correctness

  /** The control word of SubmitAudioDMA: bursts of 8 beats of 4 bytes, non-secure, one side incrementing. */
  function AudioCcr(fromDevice: bool): u32 {
    (if fromDevice then 0x4000 else 1) + 0x200 + 0x80_0000 + 7 * 0x10 + 7 * 0x4_0000 + 2 * 2 + 2 * 0x8000
  }

  /** Its bits: the buffer side increments and the device side does not; both sides are non-secure, neither
      privileged nor instruction accesses nor cached; bytes are not swapped. */
  lemma AudioCcrBits(fromDevice: bool)
    ensures var w: int := AudioCcr(fromDevice);
      && w % 2 == (if fromDevice then 0 else 1) && w / 0x4000 % 2 == (if fromDevice then 1 else 0)
      && w / 0x100 % 8 == 2 && w / 0x40_0000 % 8 == 2
      && w / 0x800 % 8 == 0 && w / 0x200_0000 == 0
      && w / 0x10 % 16 == 7 && w / 0x4_0000 % 16 == 7 && w / 2 % 8 == 2 && w / 0x8000 % 8 == 2
  {
    if fromDevice {
      assert AudioCcr(true) == 0x9D_4274;
    } else {
      assert AudioCcr(false) == 0x9D_0275;
    }
  }

  function AudioSpec(fromDevice: bool, id: byte, src: u32, dst: u32, len: u32, periodLen: u32): Spec
    requires periodLen > 0
  {
    Spec(AudioCcr(fromDevice), true, !fromDevice, id, len / periodLen, src, dst, periodLen)
  }

  function AudioBursts(x: Spec): nat { x.periodBytes / 4 / 8 }

  predicate IsAudio(x: Spec) { x.involvesDevice && x.ccr == AudioCcr(!x.toDevice) }

  function AudioProgram(x: Spec): seq<Instr> {
    [Mov(CCR, x.ccr)] + CyclicCode(x, AudioBursts(x), x.peripheral)
  }

  // ---- the reference: events of a transfer ----

  /** The burst `off` bytes into the buffer: wait for the peripheral, then move `len` bytes between the
      advancing buffer address and the fixed device address, acknowledging on the device side. */
  function BurstEvents(x: Spec, off: nat, len: nat): seq<Event> {
    var p := x.Peri();
    if x.toDevice then [Wait(p), Load(Wrap32(x.srcAddr + off), len, None), Store(x.dstAddr, len, Some(p))]
    else [Wait(p), Load(x.srcAddr, len, Some(p)), Store(Wrap32(x.dstAddr + off), len, None)]
  }

  function BurstRun(x: Spec, off: nat, n: nat): seq<Event>
    decreases n
  {
    if n == 0 then [] else BurstEvents(x, off, 32) + BurstRun(x, off + 32, n - 1)
  }

  function LeftBeats(x: Spec): nat { x.periodBytes / 4 % 8 }

  /** The bytes that one period really moves. */
  function PeriodTotal(x: Spec): nat { 32 * FullBursts(AudioBursts(x)) + 4 * LeftBeats(x) }

  function PeriodEvents(x: Spec, off: nat): seq<Event> {
    var n := FullBursts(AudioBursts(x));
    BurstRun(x, off, n)
    + (if LeftBeats(x) == 0 then [] else BurstEvents(x, off + 32 * n, 4 * LeftBeats(x)))
    + [Signal(x.peripheral % 32)]
  }

  /** Periods number k .. k+n-1 of a pass, each starting where the one before ended. */
  function PassEvents(x: Spec, k: nat, n: nat): seq<Event>
    decreases n
  {
    if n == 0 then [] else PeriodEvents(x, Times(k, PeriodTotal(x))) + PassEvents(x, k + 1, n - 1)
  }

  /** A period moves the bytes it was asked for exactly when it holds a burst and whole words. */
  lemma ExactPeriod(x: Spec)
    ensures PeriodTotal(x) == x.periodBytes <==> x.periodBytes >= 32 && x.periodBytes % 4 == 0
  {
    var w := x.periodBytes / 4;
    assert w == 8 * (w / 8) + w % 8;
  }

  // ---- the compiled data effects are the reference events ----

  /** The channel stands `off` bytes into the buffer with the configured control word. */
  predicate StandsAt(x: Spec, d: Data, off: nat) {
    && (x.toDevice ==> d.sar == Wrap32(x.srcAddr + off) && d.dar == x.dstAddr)
    && (!x.toDevice ==> d.sar == x.srcAddr && d.dar == Wrap32(x.dstAddr + off))
  }

  lemma AudioFields(x: Spec)
    requires IsAudio(x)
    ensures SrcInc(x.ccr) == x.toDevice && DstInc(x.ccr) == !x.toDevice
    ensures SrcBeats(x.ccr) == DstBeats(x.ccr) == 8 && SrcSize(x.ccr) == DstSize(x.ccr) == 4
    ensures NumDregs(x) == LeftBeats(x)
  {
    FieldsOf(AudioCcr(true), 4, 7, 0x142, 7, 2);
    FieldsOf(AudioCcr(false), 5, 7, 0x102, 7, 2);
  }

  lemma WrapAdd(a: int, b: int)
    ensures Wrap32(Wrap32(a) + b) == Wrap32(a + b)
  {
  }

  lemma ThreeEffects(a: Instr, b: Instr, c: Instr, d: Data)
    requires Straight([a, b, c])
    ensures Effects([a, b, c], d) == Effect(c, Effect(b, Effect(a, d)))
  {
    assert [a, b, c][1..] == [b, c] && [b, c][1..] == [c] && [c][1..] == [];
    var d2 := Effect(b, Effect(a, d));
    assert Effects([c], d2) == Effect(c, d2) by { assert Effects([], Effect(c, d2)) == Effect(c, d2); }
    assert Effects([b, c], Effect(a, d)) == Effects([c], d2);
  }

  lemma OneBurst(x: Spec, d: Data, off: nat, len: nat)
    requires x.involvesDevice && StandsAt(x, d, off)
    requires SrcLen(d.ccr) == DstLen(d.ccr) == len
    requires SrcInc(d.ccr) == x.toDevice && DstInc(d.ccr) == !x.toDevice
    ensures Straight(UnitCode(x, Burst))
    ensures var d' := Effects(UnitCode(x, Burst), d);
      StandsAt(x, d', off + len) && d'.ccr == d.ccr && d'.trace == d.trace + BurstEvents(x, off, len)
  {
    hide SrcLen;
    hide DstLen;
    hide SrcInc;
    hide DstInc;
    hide Effects;
    hide Wrap32;
    var w := Wfp(Burst, x.Peri());
    var l := if x.toDevice then Ld(Burst) else Ldp(Burst, x.Peri());
    var s := if x.toDevice then Stp(Burst, x.Peri()) else St(Burst);
    assert UnitCode(x, Burst) == [w, l, s];
    ThreeEffects(w, l, s, d);
    WrapAdd((if x.toDevice then x.srcAddr else x.dstAddr) + off, len);
    var d3 := Effect(s, Effect(l, Effect(w, d)));
    assert d3.trace == d.trace + BurstEvents(x, off, len);
  }

  lemma {:induction false} BurstsEvents(x: Spec, d: Data, off: nat, n: nat)
    requires IsAudio(x) && StandsAt(x, d, off) && d.ccr == x.ccr
    ensures var d' := Bursts(x, d, n);
      StandsAt(x, d', off + 32 * n) && d'.ccr == x.ccr && d'.trace == d.trace + BurstRun(x, off, n)
    decreases n
  {
    hide UnitCode;
    if n > 0 {
      AudioFields(x);
      OneBurst(x, d, off, 32);
      var d1 := Effects(UnitCode(x, Burst), d);
      BurstsEvents(x, d1, off + 32, n - 1);
    }
  }

  lemma PeriodIsEvents(x: Spec, d: Data, off: nat)
    requires IsAudio(x) && StandsAt(x, d, off) && d.ccr == x.ccr
    ensures var d' := Period(x, AudioBursts(x), x.peripheral, d);
      StandsAt(x, d', off + PeriodTotal(x)) && d'.ccr == x.ccr && d'.trace == d.trace + PeriodEvents(x, off)
  {
    hide UnitCode;
    hide BurstRun;
    AudioFields(x);
    var n := FullBursts(AudioBursts(x));
    BurstsEvents(x, d, off, n);
    var d1 := Bursts(x, d, n);
    var left := LeftBeats(x);
    if left > 0 {
      var c := SetBeats(x.ccr, left - 1);
      SetBeatsFields(x.ccr, left - 1);
      OneBurst(x, d1.(ccr := c), off + 32 * n, 4 * left);
      assert Iterate(UnitCode(x, Burst), Effects(UnitCode(x, Burst), d1.(ccr := c)), 0)
        == Effects(UnitCode(x, Burst), d1.(ccr := c));
    }
  }

  lemma {:induction false} PeriodsAreEvents(x: Spec, d: Data, k: nat, n: nat)
    requires IsAudio(x) && StandsAt(x, d, Times(k, PeriodTotal(x))) && d.ccr == x.ccr
    ensures var d' := Periods(x, AudioBursts(x), x.peripheral, d, n);
      && StandsAt(x, d', Times(k + n, PeriodTotal(x))) && d'.ccr == x.ccr
      && d'.trace == d.trace + PassEvents(x, k, n)
    decreases n
  {
    hide PeriodTotal;
    hide PeriodEvents;
    hide Period;
    if n > 0 {
      PeriodIsEvents(x, d, Times(k, PeriodTotal(x)));
      Distributes(k, 1, PeriodTotal(x));
      PeriodsAreEvents(x, Period(x, AudioBursts(x), x.peripheral, d), k + 1, n - 1);
    }
  }

  // ---- whole runs ----

  function Repeat(e: seq<Event>, m: nat): seq<Event> {
    if m == 0 then [] else e + Repeat(e, m - 1)
  }

  function OnePass(x: Spec): seq<Event> { PassEvents(x, 0, PassPeriods(x)) }

  /** Every pass of the endless loop produces the reference events of a pass, and the control word is
      back at its configured value. */
  lemma {:induction false} EndlessLoop(mem: seq<byte>, s: State, x: Spec, m: nat) returns (t: State)
    requires IsAudio(x) && !s.faulted && s.d.ccr == x.ccr && JumpsFit(x, AudioBursts(x))
    requires At(mem, s.pc, CyclicCode(x, AudioBursts(x), x.peripheral))
    ensures Reaches(mem, s, t) && t.pc == s.pc && !t.faulted && t.d.ccr == x.ccr
    ensures t.d.trace == s.d.trace + Repeat(OnePass(x), m)
    decreases m
  {
    hide Reaches;
    hide At;
    hide PassEvents;
    hide Periods;
    hide PassSize;
    hide CyclicCode;
    hide AudioCcr;
    hide AudioBursts;
    hide PeriodTotal;
    if m == 0 {
      t := s;
      Stay(mem, s);
    } else {
      RunPass(mem, s, x, AudioBursts(x), x.peripheral);
      var d0 := s.d.(sar := x.srcAddr, dar := x.dstAddr);
      assert StandsAt(x, d0, Times(0, PeriodTotal(x)));
      PeriodsAreEvents(x, d0, 0, PassPeriods(x));
      var s1 := s.(lc0 := 0, lc1 := 0, d := PassResult(x, AudioBursts(x), x.peripheral, s.d));
      t := EndlessLoop(mem, s1, x, m - 1);
      Then(mem, s, s1, t);
      assert s.d.trace + OnePass(x) + Repeat(OnePass(x), m - 1) == s.d.trace + Repeat(OnePass(x), m);
    }
  }

  /** The program submitted for an audio transfer, started anywhere with any registers: after any
      number of passes its events are exactly that many repetitions of the reference pass. */
  lemma AudioTransferRuns(mem: seq<byte>, s: State, x: Spec, m: nat) returns (t: State)
    requires IsAudio(x) && !s.faulted && JumpsFit(x, AudioBursts(x))
    requires At(mem, s.pc, AudioProgram(x))
    ensures Reaches(mem, s, t) && t.pc == s.pc + 6 && !t.faulted && t.d.ccr == x.ccr
    ensures t.d.trace == s.d.trace + Repeat(OnePass(x), m)
  {
    hide Reaches;
    hide OnePass;
    hide CyclicCode;
    var mov := Mov(CCR, x.ccr);
    AtSplit(mem, s.pc, [mov], CyclicCode(x, AudioBursts(x), x.peripheral));
    AssembleOne(mov);
    ReachStep(mem, s, mov);
    var s1 := Execute(mov, s);
    t := EndlessLoop(mem, s1, x, m);
    Then(mem, s, s1, t);
  }

  lemma StepExtends(mem: seq<byte>, s: State)
    ensures s.d.trace <= Step(mem, s).d.trace && |Step(mem, s).d.trace| <= |s.d.trace| + 1
  {
  }

  lemma {:induction false} RunExtends(mem: seq<byte>, s: State, n: nat)
    ensures s.d.trace <= Run(mem, s, n).d.trace && |Run(mem, s, n).d.trace| <= |s.d.trace| + n
    decreases n
  {
    if n > 0 {
      StepExtends(mem, s);
      RunExtends(mem, Step(mem, s), n - 1);
    }
  }

  lemma {:induction false} RepeatLength(e: seq<Event>, m: nat)
    requires e != []
    ensures |Repeat(e, m)| >= m
  {
    if m > 0 { RepeatLength(e, m - 1); }
  }

  /** At every moment of the run, not only between passes, what the channel has done is a beginning of
      the reference passes: it never touches another address and never signals early or late. */
  lemma AudioTransferAlwaysOnTrack(mem: seq<byte>, s: State, x: Spec, n: nat)
    requires IsAudio(x) && !s.faulted && JumpsFit(x, AudioBursts(x))
    requires At(mem, s.pc, AudioProgram(x))
    ensures Run(mem, s, n).d.trace <= s.d.trace + Repeat(OnePass(x), n)
    ensures !Run(mem, s, n).faulted
  {
    hide CyclicCode;
    hide OnePass;
    hide Step;
    var t := AudioTransferRuns(mem, s, x, n);
    var k: nat :| Run(mem, s, k) == t;
    RepeatLength(OnePass(x), n) by { PassNonempty(x); }
    RunExtends(mem, s, k);
    RunSplit(mem, s, n, k - n);
    RunExtends(mem, Run(mem, s, n), k - n);
    FaultsStay(mem, Run(mem, s, n), k - n);
  }

  /** The same for the bytes as they are submitted, at the start of the channel's buffer. */
  lemma SubmittedProgramPlays(x: Spec, rest: seq<byte>, d: Data, n: nat)
    requires IsAudio(x) && JumpsFit(x, AudioBursts(x))
    ensures var s := Run(Assemble(AudioProgram(x)) + rest, State(0, 0, 0, d, false), n);
      s.d.trace <= d.trace + Repeat(OnePass(x), n) && !s.faulted
  {
    hide Assemble;
    hide AudioProgram;
    hide JumpsFit;
    AudioTransferAlwaysOnTrack(Assemble(AudioProgram(x)) + rest, State(0, 0, 0, d, false), x, n);
  }

  lemma PassNonempty(x: Spec)
    ensures OnePass(x) != []
  {
    assert |PeriodEvents(x, Times(0, PeriodTotal(x)))| > 0;
  }

  lemma {:induction false} FaultsStay(mem: seq<byte>, s: State, n: nat)
    ensures s.faulted ==> Run(mem, s, n) == s
    decreases n
  {
    if n > 0 { FaultsStay(mem, Step(mem, s), n - 1); }
  }

  // ---- what the reference says ----

  function Signals(e: seq<Event>): nat {
    if e == [] then 0 else (if e[0].Signal? then 1 else 0) + Signals(e[1..])
  }

  /** Bytes moved over the buffer side. */
  function Moved(x: Spec, e: seq<Event>): nat {
    if e == [] then 0
    else (if (e[0].Load? && x.toDevice) || (e[0].Store? && !x.toDevice) then e[0].len else 0) + Moved(x, e[1..])
  }

  lemma {:induction false} CountsConcat(x: Spec, a: seq<Event>, b: seq<Event>)
    ensures Signals(a + b) == Signals(a) + Signals(b) && Moved(x, a + b) == Moved(x, a) + Moved(x, b)
  {
    if a == [] {
      assert a + b == b;
    } else {
      assert (a + b)[1..] == a[1..] + b;
      CountsConcat(x, a[1..], b);
    }
  }

  lemma BurstCounts(x: Spec, off: nat, len: nat)
    ensures Signals(BurstEvents(x, off, len)) == 0 && Moved(x, BurstEvents(x, off, len)) == len
  {
    var e := BurstEvents(x, off, len);
    assert e == [e[0]] + [e[1]] + [e[2]];
    CountsConcat(x, [e[0]] + [e[1]], [e[2]]);
    CountsConcat(x, [e[0]], [e[1]]);
    assert forall k :: 0 <= k < 3 ==> [e[k]][1..] == [];
  }

  lemma {:induction false} BurstRunCounts(x: Spec, off: nat, n: nat)
    ensures Signals(BurstRun(x, off, n)) == 0 && Moved(x, BurstRun(x, off, n)) == 32 * n
    decreases n
  {
    if n > 0 {
      BurstCounts(x, off, 32);
      BurstRunCounts(x, off + 32, n - 1);
      CountsConcat(x, BurstEvents(x, off, 32), BurstRun(x, off + 32, n - 1));
    }
  }

  lemma PeriodCounts(x: Spec, off: nat)
    ensures Signals(PeriodEvents(x, off)) == 1 && Moved(x, PeriodEvents(x, off)) == PeriodTotal(x)
  {
    var n := FullBursts(AudioBursts(x));
    var run := BurstRun(x, off, n);
    var left := if LeftBeats(x) == 0 then [] else BurstEvents(x, off + 32 * n, 4 * LeftBeats(x));
    var sig := [Signal(x.peripheral % 32)];
    assert sig[1..] == [];
    BurstRunCounts(x, off, n);
    BurstCounts(x, off + 32 * n, 4 * LeftBeats(x));
    CountsConcat(x, run, left);
    CountsConcat(x, run + left, sig);
  }

  /** Every pass signals once per period, and moves that many periods' bytes. */
  lemma {:induction false} PassCounts(x: Spec, k: nat, n: nat)
    ensures Signals(PassEvents(x, k, n)) == n && Moved(x, PassEvents(x, k, n)) == Times(n, PeriodTotal(x))
    decreases n
  {
    hide PeriodTotal;
    hide PeriodEvents;
    if n > 0 {
      PeriodCounts(x, Times(k, PeriodTotal(x)));
      PassCounts(x, k + 1, n - 1);
      CountsConcat(x, PeriodEvents(x, Times(k, PeriodTotal(x))), PassEvents(x, k + 1, n - 1));
      Distributes(n - 1, 1, PeriodTotal(x));
    }
  }

  /** A period of no burst moves far more than it was asked for, any other one at most that. */
  lemma PeriodTotalIs(x: Spec)
    ensures if x.periodBytes < 32 then PeriodTotal(x) >= 8192 else PeriodTotal(x) == x.periodBytes - x.periodBytes % 4
  {
    var w := x.periodBytes / 4;
    assert w == 8 * (w / 8) + w % 8;
  }

  lemma DivisionIs(len: nat, p: nat)
    requires p > 0
    ensures len == Times(len / p, p) + len % p
  {
  }

  /** A pass plays the whole buffer, with one signal for each period, if and only if the buffer holds a whole
      number of periods, at least one, and a period holds whole words, at least one burst of them. */
  lemma ExactPass(fromDevice: bool, id: byte, src: u32, dst: u32, len: u32, periodLen: u32)
    requires periodLen > 0
    ensures var x := AudioSpec(fromDevice, id, src, dst, len, periodLen);
      (Signals(OnePass(x)) == len / periodLen && Moved(x, OnePass(x)) == len)
        <==> (len >= periodLen && len % periodLen == 0 && periodLen >= 32 && periodLen % 4 == 0)
  {
    hide PeriodTotal;
    hide PassEvents;
    hide AudioCcr;
    hide Times;
    var x := AudioSpec(fromDevice, id, src, dst, len, periodLen);
    var n, total := len / periodLen, PeriodTotal(x);
    PassCounts(x, 0, PassPeriods(x));
    ExactPeriod(x);
    PeriodTotalIs(x);
    DivisionIs(len, periodLen);
    if n == 0 {
      ZeroTimes(periodLen);
    } else if total < periodLen {
      LessEach(n, total, periodLen);
    } else if total > periodLen {
      Distributes(n, 1, periodLen);
      One(periodLen);
      MuchMore(n, total, periodLen);
    } else {
      Distributes(n - 1, 1, periodLen);
      One(periodLen);
    }
  }

  lemma LessEach(n: nat, a: nat, b: nat)
    requires n > 0 && a < b
    ensures Times(n, a) < Times(n, b)
  {
    assert n * (b - a) >= 1;
  }

  lemma MuchMore(n: nat, total: nat, p: nat)
    requires n > 0 && total >= 8192 && p < 32
    ensures Times(n, total) >= Times(n, p) + p
  {
    assert n * (total - p - 32) >= 0;
  }

  // ---- the endless jump ----

  /** The endless jump lands on the head of the loop exactly when the pass is shorter than 256 bytes:
      beyond that its byte operand wraps and the channel resumes inside the program. */
  lemma EndlessJumpLands(x: Spec, bursts: nat, ev: byte, head: nat)
    ensures var code := CyclicCode(x, bursts, ev);
      var end := code[|code| - 1];
      && end.LpEnd?
      && (head + |Assemble(code)| - 2 - end.bjump == head <==> JumpsFit(x, bursts))
  {
    hide PassCode;
    hide PassSize;
    ProgramLength(x, bursts, ev);
  }

  const SLICE_BYTES: nat := 512

  /** The size of the submitted program; whenever its endless jump lands, it fits the channel's slice. */
  lemma ProgramFitsSlice(x: Spec)
    ensures |Assemble(AudioProgram(x))| == PassSize(x, AudioBursts(x)) + 8
    ensures JumpsFit(x, AudioBursts(x)) ==> |Assemble(AudioProgram(x))| <= SLICE_BYTES
  {
    hide CyclicCode;
    hide PassSize;
    ProgramLength(x, AudioBursts(x), x.peripheral);
    AssembleConcat([Mov(CCR, x.ccr)], CyclicCode(x, AudioBursts(x), x.peripheral));
    AssembleOne(Mov(CCR, x.ccr));
  }

  /** An ordinary-looking request that is too long: 20 unrolled periods without leftover beats. */
  lemma LongPassMissesItsHead()
    ensures var x := AudioSpec(false, 0, 0, 0, 20 * 256 * 1024, 1024);
      !JumpsFit(x, AudioBursts(x))
  {
    var x := AudioSpec(false, 0, 0, 0, 20 * 256 * 1024, 1024);
    assert x.numPeriods == 5120;
    UnrolledIs(5120, 1, 20);
    assert Copies(x) == 20;
    AudioFields(x);
    assert PeriodSize(x, AudioBursts(x)) == 13;
  }

  lemma UnrolledIs(n: nat, from: nat, p: nat)
    requires 0 < from <= p && n / p <= 256
    requires forall q :: from <= q < p ==> n / q > 256
    ensures Unrolled(n, from) == p
    decreases p - from
  {
    if from < p { UnrolledIs(n, from + 1, p); }
  }
}
