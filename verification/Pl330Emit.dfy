/** The emitters of opcodes.h and the code generator of insn.c, storing bytes into the caller's
    buffer at a running offset. In a dry run nothing is stored and only the size is computed. */
module Pl330Emit {
  import opened Machine32
  import opened Pl330Encoding
  import opened Pl330Compiler
  import opened Pl330Machine
  import opened Pl330Meaning
  import opened Pl330Play

  /** `b` with the bytes `w` stored at `off`. */
  function Patch(b: seq<byte>, off: nat, w: seq<byte>): (r: seq<byte>)
    requires off + |w| <= |b|
    ensures |r| == |b|
  {
    b[..off] + w + b[off + |w|..]
  }

  lemma PatchTwice(b: seq<byte>, off: nat, v: seq<byte>, w: seq<byte>)
    requires off + |v| + |w| <= |b|
    ensures Patch(Patch(b, off, v), off + |v|, w) == Patch(b, off, v + w)
  {
    var p := Patch(b, off, v);
    assert p[..off + |v|] == b[..off] + v;
    assert p[off + |v| + |w|..] == b[off + |v| + |w|..];
  }

  /** What the buffer holds after `code` was emitted at `off`. */
  ghost function Emitted(b: seq<byte>, off: nat, dryRun: bool, code: seq<Instr>): seq<byte>
    requires dryRun || off + |Assemble(code)| <= |b|
  {
    if dryRun then b else Patch(b, off, Assemble(code))
  }

  lemma EmittedTwice(b: seq<byte>, off: nat, dryRun: bool, v: seq<Instr>, w: seq<Instr>)
    requires dryRun || off + |Assemble(v)| + |Assemble(w)| <= |b|
    ensures |Assemble(v + w)| == |Assemble(v)| + |Assemble(w)|
    ensures Emitted(Emitted(b, off, dryRun, v), off + |Assemble(v)|, dryRun, w) == Emitted(b, off, dryRun, v + w)
  {
    hide Assemble;
    AssembleConcat(v, w);
    if !dryRun { PatchTwice(b, off, Assemble(v), Assemble(w)); }
  }

  lemma EmittedNothing(b: seq<byte>, off: nat, dryRun: bool)
    requires dryRun || off <= |b|
    ensures Emitted(b, off, dryRun, []) == b
  {
  }

  method EmitFLUSHP(dryRun: bool, buf: array<byte>, off: nat, peri: byte) returns (n: nat)
    requires dryRun || off + 2 <= buf.Length
    modifies buf
    ensures n == |Assemble([FlushP(peri % 32)])| == 2
    ensures buf[..] == Emitted(old(buf[..]), off, dryRun, [FlushP(peri % 32)])
  {
    AssembleOne(FlushP(peri % 32));
    if dryRun { return 2; }
    buf[off] := 0x35;
    buf[off + 1] := peri % 32 * 8;
    return 2;
  }

  method EmitLD(dryRun: bool, buf: array<byte>, off: nat, cond: Cond) returns (n: nat)
    requires dryRun || off + 1 <= buf.Length
    modifies buf
    ensures n == |Assemble([Ld(cond)])| == 1
    ensures buf[..] == Emitted(old(buf[..]), off, dryRun, [Ld(cond)])
  {
    AssembleOne(Ld(cond));
    if dryRun { return 1; }
    buf[off] := 0x04;
    if cond == Single { buf[off] := buf[off] + 1; } else if cond == Burst { buf[off] := buf[off] + 3; }
    return 1;
  }

  method EmitST(dryRun: bool, buf: array<byte>, off: nat, cond: Cond) returns (n: nat)
    requires dryRun || off + 1 <= buf.Length
    modifies buf
    ensures n == |Assemble([St(cond)])| == 1
    ensures buf[..] == Emitted(old(buf[..]), off, dryRun, [St(cond)])
  {
    AssembleOne(St(cond));
    if dryRun { return 1; }
    buf[off] := 0x08;
    if cond == Single { buf[off] := buf[off] + 1; } else if cond == Burst { buf[off] := buf[off] + 3; }
    return 1;
  }

  method EmitLDP(dryRun: bool, buf: array<byte>, off: nat, cond: Cond, peri: byte) returns (n: nat)
    requires dryRun || off + 2 <= buf.Length
    modifies buf
    ensures n == |Assemble([Ldp(cond, peri % 32)])| == 2
    ensures buf[..] == Emitted(old(buf[..]), off, dryRun, [Ldp(cond, peri % 32)])
  {
    AssembleOne(Ldp(cond, peri % 32));
    if dryRun { return 2; }
    buf[off] := 0x25;
    if cond == Burst { buf[off] := buf[off] + 2; }
    buf[off + 1] := peri % 32 * 8;
    return 2;
  }

  method EmitSTP(dryRun: bool, buf: array<byte>, off: nat, cond: Cond, peri: byte) returns (n: nat)
    requires dryRun || off + 2 <= buf.Length
    modifies buf
    ensures n == |Assemble([Stp(cond, peri % 32)])| == 2
    ensures buf[..] == Emitted(old(buf[..]), off, dryRun, [Stp(cond, peri % 32)])
  {
    AssembleOne(Stp(cond, peri % 32));
    if dryRun { return 2; }
    buf[off] := 0x29;
    if cond == Burst { buf[off] := buf[off] + 2; }
    buf[off + 1] := peri % 32 * 8;
    return 2;
  }

  method EmitLP(dryRun: bool, buf: array<byte>, off: nat, second: bool, count: byte) returns (n: nat)
    requires dryRun || off + 2 <= buf.Length
    modifies buf
    ensures n == |Assemble([Lp(second, Iterates(count))])| == 2
    ensures buf[..] == Emitted(old(buf[..]), off, dryRun, [Lp(second, Iterates(count))])
  {
    AssembleOne(Lp(second, Iterates(count)));
    if dryRun { return 2; }
    buf[off] := 0x20;
    if second { buf[off] := buf[off] + 2; }
    buf[off + 1] := (count as int - 1) % 256;  // the controller adds 1
    return 2;
  }

  method EmitLPEND(dryRun: bool, buf: array<byte>, off: nat, cond: Cond, forever: bool, second: bool, bjump: byte)
    returns (n: nat)
    requires dryRun || off + 2 <= buf.Length
    modifies buf
    ensures n == |Assemble([LpEnd(cond, forever, second, bjump)])| == 2
    ensures buf[..] == Emitted(old(buf[..]), off, dryRun, [LpEnd(cond, forever, second, bjump)])
  {
    AssembleOne(LpEnd(cond, forever, second, bjump));
    if dryRun { return 2; }
    buf[off] := 0x28;
    if second { buf[off] := buf[off] + 4; }
    if !forever { buf[off] := buf[off] + 16; }
    if cond == Single { buf[off] := buf[off] + 1; } else if cond == Burst { buf[off] := buf[off] + 3; }
    buf[off + 1] := bjump;
    return 2;
  }

  method EmitMOV(dryRun: bool, buf: array<byte>, off: nat, dst: Reg, val: u32) returns (n: nat)
    requires dryRun || off + 6 <= buf.Length
    modifies buf
    ensures n == |Assemble([Mov(dst, val)])| == 6
    ensures buf[..] == Emitted(old(buf[..]), off, dryRun, [Mov(dst, val)])
  {
    AssembleOne(Mov(dst, val));
    if dryRun { return 6; }
    buf[off] := 0xbc;
    buf[off + 1] := RegCode(dst);
    buf[off + 2] := val % 256;
    buf[off + 3] := val / 0x100 % 256;
    buf[off + 4] := val / 0x1_0000 % 256;
    buf[off + 5] := val / 0x100_0000 % 256;
    return 6;
  }

  method EmitSEV(dryRun: bool, buf: array<byte>, off: nat, ev: byte) returns (n: nat)
    requires dryRun || off + 2 <= buf.Length
    modifies buf
    ensures n == |Assemble([Sev(ev % 32)])| == 2
    ensures buf[..] == Emitted(old(buf[..]), off, dryRun, [Sev(ev % 32)])
  {
    AssembleOne(Sev(ev % 32));
    if dryRun { return 2; }
    buf[off] := 0x34;
    buf[off + 1] := ev % 32 * 8;
    return 2;
  }

  method EmitWFP(dryRun: bool, buf: array<byte>, off: nat, cond: Cond, peri: byte) returns (n: nat)
    requires dryRun || off + 2 <= buf.Length
    modifies buf
    ensures n == |Assemble([Wfp(cond, peri % 32)])| == 2
    ensures buf[..] == Emitted(old(buf[..]), off, dryRun, [Wfp(cond, peri % 32)])
  {
    AssembleOne(Wfp(cond, peri % 32));
    if dryRun { return 2; }
    buf[off] := 0x30;
    if cond == Burst { buf[off] := buf[off] + 2; } else if cond == Always { buf[off] := buf[off] + 1; }
    buf[off + 1] := peri % 32 * 8;
    return 2;
  }

  method EmitLoad(dryRun: bool, buf: array<byte>, off: nat, cond: Cond, x: Spec) returns (n: nat)
    requires dryRun || off + |Assemble(LoadCode(x, cond))| <= buf.Length
    modifies buf
    ensures n == |Assemble(LoadCode(x, cond))|
    ensures buf[..] == Emitted(old(buf[..]), off, dryRun, LoadCode(x, cond))
  {
    if !x.involvesDevice || x.toDevice {
      n := EmitLD(dryRun, buf, off, cond);
    } else if cond == Always {
      EmittedTwice(buf[..], off, dryRun, [Ldp(Single, x.Peri())], [Ldp(Burst, x.Peri())]) by {
        AssembleConcat([Ldp(Single, x.Peri())], [Ldp(Burst, x.Peri())]);
      }
      n := EmitLDP(dryRun, buf, off, Single, x.peripheral);
      var m := EmitLDP(dryRun, buf, off + n, Burst, x.peripheral);
      n := n + m;
    } else {
      n := EmitLDP(dryRun, buf, off, cond, x.peripheral);
    }
  }

  method EmitStore(dryRun: bool, buf: array<byte>, off: nat, cond: Cond, x: Spec) returns (n: nat)
    requires dryRun || off + |Assemble(StoreCode(x, cond))| <= buf.Length
    modifies buf
    ensures n == |Assemble(StoreCode(x, cond))|
    ensures buf[..] == Emitted(old(buf[..]), off, dryRun, StoreCode(x, cond))
  {
    if !x.involvesDevice || !x.toDevice {
      n := EmitST(dryRun, buf, off, cond);
    } else if cond == Always {
      EmittedTwice(buf[..], off, dryRun, [Stp(Single, x.Peri())], [Stp(Burst, x.Peri())]) by {
        AssembleConcat([Stp(Single, x.Peri())], [Stp(Burst, x.Peri())]);
      }
      n := EmitSTP(dryRun, buf, off, Single, x.peripheral);
      var m := EmitSTP(dryRun, buf, off + n, Burst, x.peripheral);
      n := n + m;
    } else {
      n := EmitSTP(dryRun, buf, off, cond, x.peripheral);
    }
  }

  // ---- repeated code ----

  lemma {:induction false} UnitsSnoc(x: Spec, cond: Cond, k: nat)
    ensures UnitsCode(x, cond, k + 1) == UnitsCode(x, cond, k) + UnitCode(x, cond)
  {
    hide UnitCode;
    if k > 0 { UnitsSnoc(x, cond, k - 1); }
  }

  lemma {:induction false} UnitsFit(x: Spec, cond: Cond, k: nat, n: nat)
    requires k <= n
    ensures |Assemble(UnitsCode(x, cond, k))| <= |Assemble(UnitsCode(x, cond, n))|
    decreases n
  {
    hide UnitCode;
    hide Assemble;
    if k < n {
      UnitsFit(x, cond, k, n - 1);
      UnitsSnoc(x, cond, n - 1);
      AssembleConcat(UnitsCode(x, cond, n - 1), UnitCode(x, cond));
    }
  }

  lemma {:induction false} PeriodsSnoc(x: Spec, bursts: nat, ev: byte, k: nat)
    ensures PeriodsCode(x, bursts, ev, k + 1) == PeriodsCode(x, bursts, ev, k) + PeriodCode(x, bursts, ev)
  {
    hide PeriodCode;
    if k > 0 { PeriodsSnoc(x, bursts, ev, k - 1); }
  }

  lemma {:induction false} PeriodsFit(x: Spec, bursts: nat, ev: byte, k: nat, n: nat)
    requires k <= n
    ensures |Assemble(PeriodsCode(x, bursts, ev, k))| <= |Assemble(PeriodsCode(x, bursts, ev, n))|
    decreases n
  {
    hide PeriodCode;
    hide Assemble;
    if k < n {
      PeriodsFit(x, bursts, ev, k, n - 1);
      PeriodsSnoc(x, bursts, ev, n - 1);
      AssembleConcat(PeriodsCode(x, bursts, ev, n - 1), PeriodCode(x, bursts, ev));
    }
  }

  /** One burst of either kind. */
  method EmitUnit(dryRun: bool, buf: array<byte>, off: nat, cond: Cond, x: Spec) returns (n: nat)
    requires dryRun || off + |Assemble(UnitCode(x, cond))| <= buf.Length
    modifies buf
    ensures n == |Assemble(UnitCode(x, cond))|
    ensures buf[..] == Emitted(old(buf[..]), off, dryRun, UnitCode(x, cond))
  {
    hide Assemble;
    hide LoadCode;
    hide StoreCode;
    hide Emitted;
    ghost var b := buf[..];
    if x.involvesDevice {
      ghost var w, l, s := [Wfp(cond, x.Peri())], LoadCode(x, cond), StoreCode(x, cond);
      AssembleConcat(w + l, s);
      AssembleConcat(w, l);
      AssembleOne(w[0]);
      n := EmitWFP(dryRun, buf, off, cond, x.peripheral);
      var m := EmitLoad(dryRun, buf, off + n, cond, x);
      EmittedTwice(b, off, dryRun, w, l);
      n := n + m;
      m := EmitStore(dryRun, buf, off + n, cond, x);
      EmittedTwice(b, off, dryRun, w + l, s);
      n := n + m;
    } else {
      assert UnitCode(x, cond) == [Ld(Always)] + [St(Always)];
      AssembleConcat([Ld(Always)], [St(Always)]);
      AssembleOne(Ld(Always));
      AssembleOne(St(Always));
      n := EmitLD(dryRun, buf, off, Always);
      var m := EmitST(dryRun, buf, off + n, Always);
      EmittedTwice(b, off, dryRun, [Ld(Always)], [St(Always)]);
      n := n + m;
    }
  }

  /** FLUSHP clears stale requests before the first WFP; then `cyc` bursts. */
  method Bursts(dryRun: bool, buf: array<byte>, off: nat, x: Spec, cyc: nat) returns (n: nat)
    requires dryRun || off + |Assemble(BurstsCode(x, cyc))| <= buf.Length
    modifies buf
    ensures n == |Assemble(BurstsCode(x, cyc))|
    ensures buf[..] == Emitted(old(buf[..]), off, dryRun, BurstsCode(x, cyc))
  {
    hide Assemble;
    hide UnitCode;
    hide Emitted;
    ghost var b := buf[..];
    ghost var head := if x.involvesDevice then [FlushP(x.Peri())] else [];
    AssembleConcat(head, UnitsCode(x, Burst, cyc));
    n := 0;
    if x.involvesDevice {
      AssembleOne(head[0]);
      n := EmitFLUSHP(dryRun, buf, off, x.peripheral);
    } else {
      EmptyAssembles();
      EmittedNothing(b, off, dryRun);
    }
    assert head + UnitsCode(x, Burst, 0) == head;
    var i := 0;
    while i < cyc
      invariant 0 <= i <= cyc
      invariant |Assemble(head + UnitsCode(x, Burst, i))| == n <= |Assemble(BurstsCode(x, cyc))|
      invariant buf[..] == Emitted(b, off, dryRun, head + UnitsCode(x, Burst, i))
    {
      UnitsFit(x, Burst, i + 1, cyc);
      UnitsSnoc(x, Burst, i);
      AssembleConcat(head, UnitsCode(x, Burst, i));
      AssembleConcat(head, UnitsCode(x, Burst, i + 1));
      AssembleConcat(UnitsCode(x, Burst, i), UnitCode(x, Burst));
      assert head + UnitsCode(x, Burst, i) + UnitCode(x, Burst) == head + UnitsCode(x, Burst, i + 1);
      var m := EmitUnit(dryRun, buf, off + n, Burst, x);
      EmittedTwice(b, off, dryRun, head + UnitsCode(x, Burst, i), UnitCode(x, Burst));
      n := n + m;
      i := i + 1;
    }
  }

  /** A reduced-length burst for the beats that do not fill one. */
  method Dregs(dryRun: bool, buf: array<byte>, off: nat, x: Spec, transferLength: nat) returns (n: nat)
    requires transferLength <= 16
    requires dryRun || off + |Assemble(DregsCode(x, transferLength))| <= buf.Length
    modifies buf
    ensures n == |Assemble(DregsCode(x, transferLength))|
    ensures buf[..] == Emitted(old(buf[..]), off, dryRun, DregsCode(x, transferLength))
  {
    hide Assemble;
    hide BurstsCode;
    hide Emitted;
    hide SetBeats;
    ghost var b := buf[..];
    n := 0;
    if transferLength == 0 {
      EmptyAssembles();
      EmittedNothing(b, off, dryRun);
      return;
    }
    var ccr := SetBeats(x.ccr, transferLength - 1);
    AssembleConcat([Mov(CCR, ccr)], BurstsCode(x, 1));
    AssembleOne(Mov(CCR, ccr));
    n := EmitMOV(dryRun, buf, off, CCR, ccr);
    var m := Bursts(dryRun, buf, off + n, x, 1);
    EmittedTwice(b, off, dryRun, [Mov(CCR, ccr)], BurstsCode(x, 1));
    n := n + m;
  }

  /** A loop over bursts on counter 1. */
  method BurstLoop(dryRun: bool, buf: array<byte>, off: nat, x: Spec, count: byte, cyc: nat) returns (n: nat)
    requires dryRun || off + |Assemble(LoopCode(true, count, BurstsCode(x, cyc)))| <= buf.Length
    modifies buf
    ensures n == |Assemble(LoopCode(true, count, BurstsCode(x, cyc)))|
    ensures buf[..] == Emitted(old(buf[..]), off, dryRun, LoopCode(true, count, BurstsCode(x, cyc)))
  {
    hide Assemble;
    hide BurstsCode;
    hide Emitted;
    ghost var b := buf[..];
    ghost var lp, body := [Lp(true, Iterates(count))], BurstsCode(x, cyc);
    ghost var end := [LpEnd(Always, false, true, |Assemble(body)| % 256)];
    AssembleConcat(lp + body, end);
    AssembleConcat(lp, body);
    AssembleOne(end[0]);
    n := EmitLP(dryRun, buf, off, true, count);
    var ljmp1 := n;
    var m := Bursts(dryRun, buf, off + n, x, cyc);
    EmittedTwice(b, off, dryRun, lp, body);
    n := n + m;
    m := EmitLPEND(dryRun, buf, off + n, Always, false, true, (n - ljmp1) % 256);
    EmittedTwice(b, off, dryRun, lp + body, end);
    n := n + m;
  }

  /** The code of one period. */
  method EmitPeriod(dryRun: bool, buf: array<byte>, off: nat, x: Spec, bursts: u32, ev: byte) returns (n: nat)
    requires dryRun || off + |Assemble(PeriodCode(x, bursts, ev))| <= buf.Length
    modifies buf
    ensures n == |Assemble(PeriodCode(x, bursts, ev))|
    ensures buf[..] == Emitted(old(buf[..]), off, dryRun, PeriodCode(x, bursts, ev))
  {
    hide Assemble;
    hide LoopCode;
    hide DregsCode;
    hide BurstsCode;
    hide Emitted;
    ghost var b := buf[..];
    var lcnt1, cyc := bursts as int, 1;
    if bursts > 256 {
      lcnt1, cyc := 256, bursts / 256;
    }
    ghost var main := LoopCode(true, MainCount(bursts) % 256, BurstsCode(x, MainCyc(bursts)));
    ghost var rest, tail := RemainderCode(x, bursts), TailCode(x, ev);
    AssembleConcat(main + rest, tail);
    AssembleConcat(main, rest);
    n := BurstLoop(dryRun, buf, off, x, lcnt1 % 256, cyc);

    lcnt1 := bursts - lcnt1 * cyc;
    if lcnt1 != 0 {
      var m := BurstLoop(dryRun, buf, off + n, x, lcnt1 % 256, 1);
      EmittedTwice(b, off, dryRun, main, rest);
      n := n + m;
    } else {
      assert main + rest == main;
    }
    var m := EmitTail(dryRun, buf, off + n, x, ev);
    EmittedTwice(b, off, dryRun, main + rest, tail);
    n := n + m;
  }

  method EmitTail(dryRun: bool, buf: array<byte>, off: nat, x: Spec, ev: byte) returns (n: nat)
    requires dryRun || off + |Assemble(TailCode(x, ev))| <= buf.Length
    modifies buf
    ensures n == |Assemble(TailCode(x, ev))|
    ensures buf[..] == Emitted(old(buf[..]), off, dryRun, TailCode(x, ev))
  {
    hide Assemble;
    hide DregsCode;
    hide Emitted;
    ghost var b := buf[..];
    ghost var sev := [Sev(ev % 32)];
    var numDregs := x.periodBytes / SrcSize(x.ccr) % SrcBeats(x.ccr);
    n := 0;
    if numDregs != 0 {
      ghost var d, m := DregsCode(x, numDregs), [Mov(CCR, x.ccr)];
      AssembleConcat(d + m, sev);
      AssembleConcat(d, m);
      AssembleOne(m[0]);
      AssembleOne(sev[0]);
      n := Dregs(dryRun, buf, off, x, numDregs);
      var k := EmitMOV(dryRun, buf, off + n, CCR, x.ccr);
      EmittedTwice(b, off, dryRun, d, m);
      n := n + k;
      k := EmitSEV(dryRun, buf, off + n, ev);
      EmittedTwice(b, off, dryRun, d + m, sev);
      n := n + k;
    } else {
      assert TailCode(x, ev) == sev;
      AssembleOne(sev[0]);
      n := EmitSEV(dryRun, buf, off, ev);
    }
  }

  method EmitPeriods(dryRun: bool, buf: array<byte>, off: nat, x: Spec, bursts: u32, ev: byte, count: nat) returns (n: nat)
    requires dryRun || off + |Assemble(PeriodsCode(x, bursts, ev, count))| <= buf.Length
    modifies buf
    ensures n == |Assemble(PeriodsCode(x, bursts, ev, count))|
    ensures buf[..] == Emitted(old(buf[..]), off, dryRun, PeriodsCode(x, bursts, ev, count))
  {
    hide Assemble;
    hide PeriodCode;
    hide Emitted;
    ghost var b := buf[..];
    n := 0;
    EmptyAssembles();
    EmittedNothing(b, off, dryRun);
    for i := 0 to count
      invariant n == |Assemble(PeriodsCode(x, bursts, ev, i))| <= |Assemble(PeriodsCode(x, bursts, ev, count))|
      invariant buf[..] == Emitted(b, off, dryRun, PeriodsCode(x, bursts, ev, i))
    {
      PeriodsFit(x, bursts, ev, i + 1, count);
      PeriodsSnoc(x, bursts, ev, i);
      AssembleConcat(PeriodsCode(x, bursts, ev, i), PeriodCode(x, bursts, ev));
      var m := EmitPeriod(dryRun, buf, off + n, x, bursts, ev);
      EmittedTwice(b, off, dryRun, PeriodsCode(x, bursts, ev, i), PeriodCode(x, bursts, ev));
      n := n + m;
    }
  }

  /** The counted loop over the unrolled periods, on counter 0. */
  method OuterLoop(dryRun: bool, buf: array<byte>, off: nat, x: Spec, bursts: u32, ev: byte, count: byte, periods: nat)
    returns (n: nat)
    requires dryRun || off + |Assemble(LoopCode(false, count, PeriodsCode(x, bursts, ev, periods)))| <= buf.Length
    modifies buf
    ensures n == |Assemble(LoopCode(false, count, PeriodsCode(x, bursts, ev, periods)))|
    ensures buf[..] == Emitted(old(buf[..]), off, dryRun, LoopCode(false, count, PeriodsCode(x, bursts, ev, periods)))
  {
    hide Assemble;
    hide PeriodsCode;
    hide Emitted;
    ghost var b := buf[..];
    ghost var lp, body := [Lp(false, Iterates(count))], PeriodsCode(x, bursts, ev, periods);
    ghost var end := [LpEnd(Always, false, false, |Assemble(body)| % 256)];
    AssembleConcat(lp + body, end);
    AssembleConcat(lp, body);
    AssembleOne(end[0]);
    n := EmitLP(dryRun, buf, off, false, count);
    var ljmp0 := n;
    var m := EmitPeriods(dryRun, buf, off + n, x, bursts, ev, periods);
    EmittedTwice(b, off, dryRun, lp, body);
    n := n + m;
    m := EmitLPEND(dryRun, buf, off + n, Always, false, false, (n - ljmp0) % 256);
    EmittedTwice(b, off, dryRun, lp + body, end);
    n := n + m;
  }

  /** The least number of unrolled periods that brings the outer count down to 256. */
  method SplitPeriods(numPeriods: u32) returns (lcnt0: nat, periods: nat)
    ensures periods == Unrolled(numPeriods, 1) && lcnt0 == numPeriods / periods <= 256
  {
    lcnt0, periods := numPeriods, 1;
    while lcnt0 > 256
      invariant periods > 0 && lcnt0 == numPeriods / periods
      invariant Unrolled(numPeriods, 1) == Unrolled(numPeriods, periods)
      decreases numPeriods - periods
    {
      if periods >= numPeriods { DivSmall(numPeriods, periods); }
      periods := periods + 1;
      lcnt0 := numPeriods / periods;
    }
  }

  /** The endless program: addresses, the counted outer loop, the residue, and the jump back. */
  method LoopCyclic(dryRun: bool, buf: array<byte>, off: nat, x: Spec, bursts: u32, ev: byte) returns (n: nat)
    requires dryRun || off + |Assemble(CyclicCode(x, bursts, ev))| <= buf.Length
    modifies buf
    ensures n == |Assemble(CyclicCode(x, bursts, ev))|
    ensures buf[..] == Emitted(old(buf[..]), off, dryRun, CyclicCode(x, bursts, ev))
  {
    hide Assemble;
    hide PeriodsCode;
    hide Emitted;
    hide LoopCode;
    ghost var b := buf[..];
    var lcnt0, periods := SplitPeriods(x.numPeriods);
    var residue := x.numPeriods % periods;

    ghost var loop := LoopCode(false, lcnt0 % 256, PeriodsCode(x, bursts, ev, periods));
    ghost var rest := PeriodsCode(x, bursts, ev, residue);
    ghost var m1, m2 := [Mov(SAR, x.srcAddr)], [Mov(DAR, x.dstAddr)];
    ghost var end := [LpEnd(Always, true, true, |Assemble(PassCode(x, bursts, ev))| % 256)];
    assert PassCode(x, bursts, ev) == m1 + m2 + loop + rest;
    AssembleConcat(PassCode(x, bursts, ev), end);
    AssembleConcat(m1 + m2 + loop, rest);
    AssembleConcat(m1 + m2, loop);
    AssembleConcat(m1, m2);
    AssembleOne(m1[0]);
    AssembleOne(m2[0]);
    AssembleOne(end[0]);

    n := EmitMOV(dryRun, buf, off, SAR, x.srcAddr);
    var k := EmitMOV(dryRun, buf, off + n, DAR, x.dstAddr);
    EmittedTwice(b, off, dryRun, m1, m2);
    n := n + k;
    k := OuterLoop(dryRun, buf, off + n, x, bursts, ev, lcnt0 % 256, periods);
    EmittedTwice(b, off, dryRun, m1 + m2, loop);
    n := n + k;
    k := EmitPeriods(dryRun, buf, off + n, x, bursts, ev, residue);
    EmittedTwice(b, off, dryRun, m1 + m2 + loop, rest);
    n := n + k;
    k := EmitLPEND(dryRun, buf, off + n, Always, true, true, n % 256);
    EmittedTwice(b, off, dryRun, PassCode(x, bursts, ev), end);
    n := n + k;
  }

  /** Compiles an audio transfer into the channel's slice. */
  method SubmitAudioDMA(buf: array<byte>, id: byte, fromDevice: bool, src: u32, dst: u32, len: u32, periodLen: u32)
    returns (n: nat, ghost x: Spec)
    requires periodLen > 0
    requires |Assemble(AudioProgram(AudioSpec(fromDevice, id, src, dst, len, periodLen)))| <= buf.Length
    modifies buf
    ensures x == AudioSpec(fromDevice, id, src, dst, len, periodLen)
    ensures n == |Assemble(AudioProgram(x))|
    ensures buf[..] == Assemble(AudioProgram(x)) + old(buf[..])[n..]
    ensures JumpsReach(fromDevice, id, src, dst, len, periodLen) ==>
      ProgramPlays(buf[..n], Call(fromDevice, id, src, dst, PeriodsRun(len, periodLen), BytesRun(periodLen)))
  {
    hide Assemble;
    hide CyclicCode;
    hide ProgramPlays;
    var spec := AudioSpec(fromDevice, id, src, dst, len, periodLen);
    x := spec;
    ghost var b := buf[..];
    ghost var mov, cyc := [Mov(CCR, spec.ccr)], CyclicCode(x, AudioBursts(x), id);
    AssembleConcat(mov, cyc);
    AssembleOne(mov[0]);
    n := EmitMOV(false, buf, 0, CCR, spec.ccr);
    var bursts := periodLen / 4 / 8;
    var k := LoopCyclic(false, buf, n, spec, bursts, id);
    EmittedTwice(b, 0, false, mov, cyc);
    n := n + k;
    if JumpsReach(fromDevice, id, src, dst, len, periodLen) {
      SubmittedCallPlays(fromDevice, id, src, dst, len, periodLen);
      assert buf[..n] == Assemble(AudioProgram(x));
    }
  }
}
