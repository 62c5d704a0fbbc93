/** What a submitted audio transfer does on the bus, said from the arguments of the call alone: where every
    access goes, who is asked and who is acknowledged, and when a period is signalled. */
module Pl330Play {
  import opened Common
  import opened Machine32
  import opened Pl330Encoding
  import opened Pl330Machine
  import opened Pl330Compiler
  import opened Pl330Correctness
  import opened Pl330Meaning

  /** A call: direction, channel, both addresses; the periods of a pass and the bytes of a period. */
  datatype Call = Call(fromDevice: bool, id: byte, src: u32, dst: u32, periods: nat, period: nat)

  /** How far a pass has come: bytes that have gone all the way, bytes loaded but not stored, and signals. */
  datatype Progress = Progress(done: nat, half: nat, signals: nat)

  const START: Progress := Progress(0, 0, 0)

  /** What may come next. To a device, loads go up from `src` and every store is to `dst` and acknowledged to the
      peripheral; from a device, every load is from `src` and acknowledged, and stores go up from `dst`. A period
      is signalled when its bytes have gone through, and the pass starts over after the last one. */
  predicate Fits(e: Event, c: Call, g: Progress) {
    match e
    case Wait(p) => p == c.id % 32 && g.half == 0
    case Load(addr, len, ack) =>
      && g.half == 0 && 0 < len <= 32 && g.done + len <= Times(g.signals + 1, c.period)
      && if c.fromDevice then addr == c.src && ack == Some(c.id % 32) else addr == Wrap32(c.src + g.done) && ack == None
    case Store(addr, len, ack) =>
      && g.half == len && len > 0
      && if c.fromDevice then addr == Wrap32(c.dst + g.done) && ack == None else addr == c.dst && ack == Some(c.id % 32)
    case Signal(ev) => ev == c.id % 32 && g.half == 0 && g.done == Times(g.signals + 1, c.period)
  }

  function Past(e: Event, c: Call, g: Progress): Progress {
    match e
    case Wait(_) => g
    case Load(_, len, _) => g.(half := len)
    case Store(_, len, _) => g.(done := g.done + len, half := 0)
    case Signal(_) => if g.signals + 1 == c.periods then START else g.(signals := g.signals + 1)
  }

  /** The events play the call, from some point of a pass on. */
  predicate Plays(e: seq<Event>, c: Call, g: Progress) {
    e == [] || (Fits(e[0], c, g) && Plays(e[1..], c, Past(e[0], c, g)))
  }

  function Track(e: seq<Event>, c: Call, g: Progress): Progress {
    if e == [] then g else Track(e[1..], c, Past(e[0], c, g))
  }

  lemma {:induction false} PlaysConcat(a: seq<Event>, b: seq<Event>, c: Call, g: Progress)
    ensures Plays(a + b, c, g) <==> Plays(a, c, g) && Plays(b, c, Track(a, c, g))
    ensures Track(a + b, c, g) == Track(b, c, Track(a, c, g))
  {
    hide Fits;
    if a == [] {
      assert a + b == b;
    } else {
      assert (a + b)[1..] == a[1..] + b;
      PlaysConcat(a[1..], b, c, Past(a[0], c, g));
    }
  }

  lemma PlaysPrefix(a: seq<Event>, e: seq<Event>, c: Call, g: Progress)
    requires Plays(e, c, g) && a <= e
    ensures Plays(a, c, g)
  {
    assert e == a + e[|a|..];
    PlaysConcat(a, e[|a|..], c, g);
  }

  // ---- the reference plays the call ----

  /** The reference of `x` is compiled for the call. */
  predicate For(x: Spec, c: Call) {
    && x.toDevice == !c.fromDevice && x.peripheral == c.id && x.srcAddr == c.src && x.dstAddr == c.dst
    && c.period == PeriodTotal(x) && c.periods == PassPeriods(x) && x.involvesDevice
  }

  lemma BurstPlays(x: Spec, c: Call, off: nat, len: nat, signals: nat)
    requires For(x, c) && 0 < len <= 32 && off + len <= Times(signals + 1, c.period)
    ensures Plays(BurstEvents(x, off, len), c, Progress(off, 0, signals))
    ensures Track(BurstEvents(x, off, len), c, Progress(off, 0, signals)) == Progress(off + len, 0, signals)
  {
    hide Times;
    hide PeriodTotal;
    var e := BurstEvents(x, off, len);
    var g := Progress(off, 0, signals);
    assert e == [e[0], e[1], e[2]] && e[1..] == [e[1], e[2]] && e[1..][1..] == [e[2]] && [e[2]][1..] == [];
    assert Fits(e[0], c, g) && Past(e[0], c, g) == g;
    assert Fits(e[1], c, g) && Past(e[1], c, g) == g.(half := len);
    assert Fits(e[2], c, g.(half := len)) && Past(e[2], c, g.(half := len)) == Progress(off + len, 0, signals);
    ThreePlay(e[0], e[1], e[2], c, g);
  }

  lemma ThreePlay(e0: Event, e1: Event, e2: Event, c: Call, g: Progress)
    ensures var g1 := Past(e0, c, g);
      var g2 := Past(e1, c, g1);
      && (Plays([e0, e1, e2], c, g) <==> Fits(e0, c, g) && Fits(e1, c, g1) && Fits(e2, c, g2))
      && Track([e0, e1, e2], c, g) == Past(e2, c, g2)
  {
    hide Fits;
    hide Past;
    assert [e0, e1, e2][1..] == [e1, e2] && [e1, e2][1..] == [e2] && [e2][1..] == [];
    var g1 := Past(e0, c, g);
    assert Plays([e1, e2], c, g1) <==> Fits(e1, c, g1) && Plays([e2], c, Past(e1, c, g1));
    assert Track([e1, e2], c, g1) == Track([e2], c, Past(e1, c, g1));
    assert Track([e2], c, Past(e1, c, g1)) == Track([], c, Past(e2, c, Past(e1, c, g1)));
  }

  lemma {:induction false} BurstsPlay(x: Spec, c: Call, off: nat, n: nat, signals: nat)
    requires For(x, c) && off + 32 * n <= Times(signals + 1, c.period)
    ensures Plays(BurstRun(x, off, n), c, Progress(off, 0, signals))
    ensures Track(BurstRun(x, off, n), c, Progress(off, 0, signals)) == Progress(off + 32 * n, 0, signals)
    decreases n
  {
    hide Times;
    hide For;
    hide BurstEvents;
    hide Fits;
    if n > 0 {
      BurstPlays(x, c, off, 32, signals);
      BurstsPlay(x, c, off + 32, n - 1, signals);
      PlaysConcat(BurstEvents(x, off, 32), BurstRun(x, off + 32, n - 1), c, Progress(off, 0, signals));
    }
  }

  lemma PeriodPlays(x: Spec, c: Call, k: nat)
    requires For(x, c)
    ensures var e, g := PeriodEvents(x, Times(k, c.period)), Progress(Times(k, c.period), 0, k);
      Plays(e, c, g) && Track(e, c, g) == if k + 1 == c.periods then START else Progress(Times(k + 1, c.period), 0, k + 1)
  {
    hide Times;
    hide BurstRun;
    hide BurstEvents;
    var off, n, left := Times(k, c.period), FullBursts(AudioBursts(x)), LeftBeats(x);
    var g := Progress(off, 0, k);
    var run := BurstRun(x, off, n);
    var dregs := if left == 0 then [] else BurstEvents(x, off + 32 * n, 4 * left);
    var sig := [Signal(x.peripheral % 32)];
    Distributes(k, 1, c.period);
    One(c.period);
    BurstsPlay(x, c, off, n, k);
    if left > 0 { BurstPlays(x, c, off + 32 * n, 4 * left, k); }
    PlaysConcat(run, dregs, c, g);
    PlaysConcat(run + dregs, sig, c, g);
    assert Track(run + dregs, c, g) == Progress(Times(k + 1, c.period), 0, k);
    assert sig[1..] == [];
  }

  lemma {:induction false} PeriodsPlay(x: Spec, c: Call, k: nat, n: nat)
    requires For(x, c) && n > 0 && k + n == c.periods
    ensures var e, g := PassEvents(x, k, n), Progress(Times(k, c.period), 0, k);
      Plays(e, c, g) && Track(e, c, g) == START
    decreases n
  {
    hide Times;
    hide Plays;
    hide Track;
    hide PeriodEvents;
    PeriodPlays(x, c, k);
    var rest := PassEvents(x, k + 1, n - 1);
    var g := Progress(Times(k, c.period), 0, k);
    PlaysConcat(PeriodEvents(x, Times(k, c.period)), rest, c, g);
    if n > 1 { PeriodsPlay(x, c, k + 1, n - 1); } else { NothingPlays(c, START); assert rest == []; }
  }

  lemma NothingPlays(c: Call, g: Progress)
    ensures Plays([], c, g) && Track([], c, g) == g
  {
  }

  lemma {:induction false} RepeatPlays(x: Spec, c: Call, m: nat)
    requires For(x, c)
    ensures Plays(Repeat(OnePass(x), m), c, START) && Track(Repeat(OnePass(x), m), c, START) == START
    decreases m
  {
    hide Times;
    hide Plays;
    hide Track;
    hide PassEvents;
    if m == 0 {
      NothingPlays(c, START);
    } else {
      ZeroTimes(c.period);
      PeriodsPlay(x, c, 0, PassPeriods(x));
      RepeatPlays(x, c, m - 1);
      PlaysConcat(OnePass(x), Repeat(OnePass(x), m - 1), c, START);
    }
  }

  // ---- what playing means ----

  /** On the device side, always the device's address and its peripheral; on the buffer side no peripheral is
      acknowledged. Waits and signals are the channel's own. */
  predicate Concerns(e: Event, c: Call) {
    match e
    case Wait(p) => p == c.id % 32
    case Signal(ev) => ev == c.id % 32
    case Load(addr, _, ack) => if c.fromDevice then addr == c.src && ack == Some(c.id % 32) else ack == None
    case Store(addr, _, ack) => if c.fromDevice then ack == None else addr == c.dst && ack == Some(c.id % 32)
  }

  lemma {:induction false} PlayedConcern(e: seq<Event>, c: Call, g: Progress)
    requires Plays(e, c, g)
    ensures forall x <- e :: Concerns(x, c)
  {
    if e != [] {
      PlayedConcern(e[1..], c, Past(e[0], c, g));
      assert Concerns(e[0], c);
      assert forall x <- e :: x == e[0] || x in e[1..];
    }
  }

  function Bytes(addr: nat, len: nat): (r: seq<u32>)
    ensures |r| == len
  {
    seq<u32>(len, i requires 0 <= i < len => Wrap32(addr + i))
  }

  function BufferedBy(e: Event, fromDevice: bool): seq<u32> {
    match e
    case Load(addr, len, _) => if fromDevice then [] else Bytes(addr, len)
    case Store(addr, len, _) => if fromDevice then Bytes(addr, len) else []
    case _ => []
  }

  /** The addresses of the bytes that are loaded from the buffer, or stored to it, one after the other. */
  function Buffered(e: seq<Event>, fromDevice: bool): seq<u32> {
    if e == [] then [] else BufferedBy(e[0], fromDevice) + Buffered(e[1..], fromDevice)
  }

  function Base(c: Call): u32 { if c.fromDevice then c.dst else c.src }

  function Mod(n: nat, pass: nat): nat
    requires pass > 0
  {
    n % pass
  }

  /** Byte `k` of the buffer side is byte `k` of the buffer, over and over. */
  predicate Tiles(bytes: seq<u32>, c: Call, from: nat, pass: nat)
    requires pass > 0
  {
    forall k: nat :: k < |bytes| ==> bytes[k] == Wrap32(Base(c) + Mod(from + k, pass))
  }

  /** Inside a pass. */
  predicate Inside(c: Call, g: Progress) {
    g.signals < c.periods && g.done + g.half <= Times(g.signals + 1, c.period) <= Times(c.periods, c.period)
  }

  function Position(c: Call, g: Progress): nat { if c.fromDevice then g.done else g.done + g.half }

  lemma StepInside(e: Event, c: Call, g: Progress)
    requires Fits(e, c, g) && Inside(c, g)
    ensures Inside(c, Past(e, c, g))
  {
    hide Times;
    Scale(1, c.periods, c.period);
    if e.Signal? && g.signals + 1 < c.periods {
      Scale(g.signals + 2, c.periods, c.period);
      Distributes(g.signals + 1, 1, c.period);
    }
  }

  lemma BurstTiles(c: Call, addr: u32, at: nat, len: nat, rest: seq<u32>, pass: nat)
    requires pass > 0 && at + len <= pass && addr == Wrap32(Base(c) + at) && Tiles(rest, c, at + len, pass)
    ensures Tiles(Bytes(addr, len) + rest, c, at, pass)
  {
    hide Mod;
    var all := Bytes(addr, len) + rest;
    forall k: nat | k < |all|
      ensures all[k] == Wrap32(Base(c) + Mod(at + k, pass))
    {
      if k < len {
        WrapAdd(Base(c) + at, k);
        Small(at + k, pass);
      } else {
        assert all[k] == rest[k - len];
      }
    }
  }

  lemma Small(n: nat, d: nat)
    requires n < d
    ensures Mod(n, d) == n
  {
  }

  lemma OverAgain(c: Call, bytes: seq<u32>, pass: nat)
    requires pass > 0 && Tiles(bytes, c, 0, pass)
    ensures Tiles(bytes, c, pass, pass)
  {
    hide Mod;
    forall k: nat | k < |bytes|
      ensures bytes[k] == Wrap32(Base(c) + Mod(pass + k, pass))
    {
      AddsPass(k, pass);
      assert bytes[k] == Wrap32(Base(c) + Mod(0 + k, pass));
    }
  }

  lemma AddsPass(k: nat, pass: nat)
    requires pass > 0
    ensures Mod(pass + k, pass) == Mod(k, pass)
  {
    DivisionIs(k, pass);
    DivisionIs(pass + k, pass);
    hide Times;
    var q, r := k / pass, (pass + k) / pass;
    Distributes(q, 1, pass);
    Distributes(r, 1, pass);
    Distributes(q + 1, 1, pass);
    One(pass);
    Cancel(r, q + 2, pass);
    Cancel(q + 1, r + 1, pass);
  }

  lemma StepTiles(e: Event, c: Call, g: Progress, rest: seq<u32>, pass: nat)
    requires Fits(e, c, g) && Inside(c, g) && pass == Times(c.periods, c.period) > 0
    requires Tiles(rest, c, Position(c, Past(e, c, g)), pass)
    ensures Tiles(BufferedBy(e, c.fromDevice) + rest, c, Position(c, g), pass)
  {
    hide Times;
    hide Tiles;
    hide Bytes;
    assert [] + rest == rest;
    match e
    case Load(addr, len, _) => if !c.fromDevice { BurstTiles(c, addr, g.done, len, rest, pass); }
    case Store(addr, len, _) => if c.fromDevice { BurstTiles(c, addr, g.done, len, rest, pass); }
    case Wait(_) =>
    case Signal(_) => if g.signals + 1 == c.periods { OverAgain(c, rest, pass); }
  }

  lemma {:induction false} PlayedTiles(e: seq<Event>, c: Call, g: Progress, pass: nat)
    requires Plays(e, c, g) && Inside(c, g) && pass == Times(c.periods, c.period) > 0
    ensures Tiles(Buffered(e, c.fromDevice), c, Position(c, g), pass)
  {
    hide Times;
    hide Tiles;
    hide Fits;
    hide Past;
    hide Inside;
    hide Position;
    hide BufferedBy;
    if e == [] {
      NoBytes(c, Position(c, g), pass);
    } else {
      StepInside(e[0], c, g);
      PlayedTiles(e[1..], c, Past(e[0], c, g), pass);
      StepTiles(e[0], c, g, Buffered(e[1..], c.fromDevice), pass);
    }
  }

  lemma NoBytes(c: Call, from: nat, pass: nat)
    requires pass > 0
    ensures Tiles([], c, from, pass)
  {
  }

  /** From the head of a pass on: every event is the call's own, and the buffer is gone through byte by byte from
      its start, again and again. */
  lemma PlayingMeans(e: seq<Event>, c: Call)
    requires Plays(e, c, START) && c.periods > 0 && c.period > 0
    ensures forall x <- e :: Concerns(x, c)
    ensures var pass := Times(c.periods, c.period);
      pass > 0 && forall k: nat :: k < |Buffered(e, c.fromDevice)| ==>
        Buffered(e, c.fromDevice)[k] == Wrap32((if c.fromDevice then c.dst else c.src) + k % pass)
  {
    hide Times;
    Scale(1, c.periods, c.period);
    One(c.period);
    PlayedConcern(e, c, START);
    PlayedTiles(e, c, START, Times(c.periods, c.period));
  }

  // ---- the submitted bytes ----

  /** The jumps of the program for the call reach back as far as they should. */
  predicate JumpsReach(fromDevice: bool, id: byte, src: u32, dst: u32, len: u32, periodLen: u32)
    requires periodLen > 0
  {
    var x := AudioSpec(fromDevice, id, src, dst, len, periodLen);
    JumpsFit(x, AudioBursts(x))
  }

  /** Started at the head of the buffer with any registers, whatever lies behind the program: what the channel
      does at every step plays the call. */
  ghost predicate ProgramPlays(program: seq<byte>, c: Call) {
    forall rest: seq<byte>, d: Data, n: nat :: RunPlays(program + rest, d, n, c)
  }

  predicate RunPlays(mem: seq<byte>, d: Data, n: nat, c: Call) {
    var s := Run(mem, State(0, 0, 0, d, false), n);
    !s.faulted && d.trace <= s.d.trace && Plays(s.d.trace[|d.trace|..], c, START)
  }

  lemma RunOfProgramPlays(x: Spec, c: Call, rest: seq<byte>, d: Data, n: nat)
    requires IsAudio(x) && JumpsFit(x, AudioBursts(x)) && For(x, c)
    ensures RunPlays(Assemble(AudioProgram(x)) + rest, d, n, c)
  {
    hide Assemble;
    hide AudioProgram;
    hide JumpsFit;
    hide IsAudio;
    hide For;
    hide Run;
    hide OnePass;
    SubmittedProgramPlays(x, rest, d, n);
    var mem, s := Assemble(AudioProgram(x)) + rest, State(0, 0, 0, d, false);
    RunExtends(mem, s, n);
    var t := Run(mem, s, n);
    RepeatPlays(x, c, n);
    var done := t.d.trace[|d.trace|..];
    assert done <= Repeat(OnePass(x), n) by {
      assert t.d.trace == (d.trace + Repeat(OnePass(x), n))[..|t.d.trace|];
    }
    PlaysPrefix(done, Repeat(OnePass(x), n), c, START);
  }

  /** The periods of a pass, and the bytes that each of them moves: less than one of either becomes 256. */
  function PeriodsRun(len: u32, periodLen: u32): (r: nat)
    requires periodLen > 0
    ensures r > 0
  {
    if len < periodLen then 256
    else
      AtLeastOnce(len, periodLen);
      len / periodLen
  }

  function BytesRun(periodLen: u32): nat {
    if periodLen < 32 then 8192 + (periodLen - periodLen % 4) else periodLen - periodLen % 4
  }

  /** The submitted program plays the call, period by period and over and over. */
  lemma SubmittedCallPlays(fromDevice: bool, id: byte, src: u32, dst: u32, len: u32, periodLen: u32)
    requires periodLen > 0 && JumpsReach(fromDevice, id, src, dst, len, periodLen)
    ensures ProgramPlays(Assemble(AudioProgram(AudioSpec(fromDevice, id, src, dst, len, periodLen))),
                         Call(fromDevice, id, src, dst, PeriodsRun(len, periodLen), BytesRun(periodLen)))
  {
    hide AudioProgram;
    hide Assemble;
    hide RunPlays;
    var x := AudioSpec(fromDevice, id, src, dst, len, periodLen);
    var c := Call(fromDevice, id, src, dst, PeriodsRun(len, periodLen), BytesRun(periodLen));
    SpecIsFor(fromDevice, id, src, dst, len, periodLen);
    forall rest: seq<byte>, d: Data, n: nat
      ensures RunPlays(Assemble(AudioProgram(x)) + rest, d, n, c)
    {
      hide JumpsFit;
      hide AudioSpec;
      hide For;
      hide IsAudio;
      RunOfProgramPlays(x, c, rest, d, n);
    }
  }

  lemma SpecIsFor(fromDevice: bool, id: byte, src: u32, dst: u32, len: u32, periodLen: u32)
    requires periodLen > 0
    ensures var x := AudioSpec(fromDevice, id, src, dst, len, periodLen);
      IsAudio(x) && For(x, Call(fromDevice, id, src, dst, PeriodsRun(len, periodLen), BytesRun(periodLen)))
  {
    hide PeriodTotal;
    var x := AudioSpec(fromDevice, id, src, dst, len, periodLen);
    BytesAre(x);
    if len < periodLen { Less(len, periodLen); } else { AtLeastOnce(len, periodLen); }
  }

  lemma BytesAre(x: Spec)
    ensures PeriodTotal(x) == BytesRun(x.periodBytes)
  {
    var w := x.periodBytes / 4;
    assert w == 8 * (w / 8) + w % 8;
  }

  lemma Less(len: nat, p: nat)
    requires len < p
    ensures len / p == 0
  {
  }

  /** The whole of it, from the arguments of the call: in every run of the submitted bytes the accesses, the
      acknowledgements and the signals are those of the call, and byte `k` of the buffer side is byte `k % len` of
      the buffer. */
  lemma SubmittedCallMoves(fromDevice: bool, id: byte, src: u32, dst: u32, len: u32, periodLen: u32,
                           rest: seq<byte>, d: Data, n: nat)
    requires periodLen >= 32 && periodLen % 4 == 0 && len >= periodLen && len % periodLen == 0
    requires JumpsReach(fromDevice, id, src, dst, len, periodLen)
    ensures var program := Assemble(AudioProgram(AudioSpec(fromDevice, id, src, dst, len, periodLen)));
      var trace := Run(program + rest, State(0, 0, 0, d, false), n).d.trace;
      && d.trace <= trace
      && (forall e <- trace[|d.trace|..] ::
            && (e.Wait? ==> e.peri == id % 32) && (e.Signal? ==> e.ev == id % 32)
            && (e.Load? && fromDevice ==> e.addr == src && e.ack == Some(id % 32))
            && (e.Store? && !fromDevice ==> e.addr == dst && e.ack == Some(id % 32))
            && (e.Load? && !fromDevice ==> e.ack == None) && (e.Store? && fromDevice ==> e.ack == None))
      && (forall k: nat :: k < |Buffered(trace[|d.trace|..], fromDevice)| ==>
            Buffered(trace[|d.trace|..], fromDevice)[k] == Wrap32((if fromDevice then dst else src) + k % len))
  {
    hide AudioProgram;
    hide Assemble;
    hide AudioSpec;
    hide Run;
    hide Plays;
    hide JumpsReach;
    hide Times;
    var c := Call(fromDevice, id, src, dst, PeriodsRun(len, periodLen), BytesRun(periodLen));
    var program := Assemble(AudioProgram(AudioSpec(fromDevice, id, src, dst, len, periodLen)));
    SubmittedCallPlays(fromDevice, id, src, dst, len, periodLen);
    assert RunPlays(program + rest, d, n, c);
    AtLeastOnce(len, periodLen);
    DivisionIs(len, periodLen);
    PlayingMeans(Run(program + rest, State(0, 0, 0, d, false), n).d.trace[|d.trace|..], c);
  }

  lemma AtLeastOnce(len: nat, p: nat)
    requires 0 < p <= len
    ensures len / p >= 1
  {
    DivisionIs(len, p);
    if len / p == 0 { ZeroTimes(p); }
  }
}
