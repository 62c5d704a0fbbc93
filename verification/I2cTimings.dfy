/** The clock dividers of the RK3x I2C controller. All arithmetic is on 32-bit unsigned words and wraps;
    outside a range of clocks it does, and the results are then worthless. */
module I2cTimings {
  import opened Common
  import opened Machine32

  const MAX_STANDARD_MODE_FREQ: nat := 100_000
  const MAX_FAST_MODE_FREQ: nat := 400_000
  const MAX_FAST_MODE_PLUS_FREQ: nat := 1_000_000

  /** i2c_spec_values, as far as they are used. */
  datatype Spec = Spec(minLowNs: nat, minHighNs: nat, minSetupStartNs: nat, maxDataHoldNs: nat, minDataSetupNs: nat,
                       minSetupStopNs: nat)

  const STANDARD: Spec := Spec(4700, 4000, 4700, 3450, 250, 4000)
  const FAST: Spec := Spec(1300, 600, 600, 900, 100, 600)
  const FAST_PLUS: Spec := Spec(500, 260, 260, 400, 50, 260)

  function GetSpec(speed: nat): Spec {
    if speed <= MAX_STANDARD_MODE_FREQ then STANDARD
    else if speed <= MAX_FAST_MODE_FREQ then FAST
    else FAST_PLUS
  }

  function Rise(busFreqHz: nat): nat {
    if busFreqHz <= MAX_STANDARD_MODE_FREQ then 1000 else if busFreqHz <= MAX_FAST_MODE_FREQ then 300 else 120
  }

  function Fall(busFreqHz: nat): nat { if busFreqHz <= MAX_FAST_MODE_FREQ then 300 else 120 }

  function Clamped(busFreqHz: nat): (r: nat)
    ensures 1000 <= r <= MAX_FAST_MODE_PLUS_FREQ
  {
    if busFreqHz > MAX_FAST_MODE_PLUS_FREQ then MAX_FAST_MODE_PLUS_FREQ else if busFreqHz < 1000 then 1000 else busFreqHz
  }

  /** A frequency that the controller supports is left alone, any other one becomes the nearest that it does. */
  lemma ClampedIs(busFreqHz: nat)
    ensures 1_000 <= busFreqHz <= 1_000_000 ==> Clamped(busFreqHz) == busFreqHz
    ensures busFreqHz < 1_000 ==> Clamped(busFreqHz) == 1_000
    ensures busFreqHz > 1_000_000 ==> Clamped(busFreqHz) == 1_000_000
  {
  }

  // ---- the calculation on 32-bit words ----

  /** DIV_ROUND_UP: the sum may wrap. */
  function DivUp(n: u32, d: u32): (r: u32)
    requires d > 0
  {
    Wrap32(n + d - 1) / d
  }

  function Sub(a: u32, b: u32): u32 { Wrap32(a - b) }

  function Mul(a: u32, b: u32): u32 { Wrap32(Times(a, b)) }

  /** The least divider that the minimal time `ns` asks for. */
  function MinDiv(khz: u32, ns: u32): (r: u32)
    ensures 1 <= r <= 537
  {
    var d := DivUp(Mul(khz, ns), 8_000_000);
    if d < 1 then 2 else d
  }

  /** A product that wraps around to nothing still leaves a clock. */
  lemma WrappedMinimum()
    ensures MinDiv(0x10_0000, 0x1000) == 2
  {
    assert Times(0x10_0000, 0x1000) == TWO_32;
  }

  datatype Divs = Divs(low: u32, high: u32)

  /** The dividers, before the decrement: the minima, or what the frequency asks for, shared out. */
  function CalcDivs(minTotal: u32, minLow: u32, minHigh: u32): Divs
    requires minLow + minHigh < TWO_32 && minLow >= 1
  {
    var minForHold := minLow + minHigh;
    if minForHold >= minTotal then Divs(minLow, minHigh)
    else
      var extra := minTotal - minForHold;
      var extraLow := DivUp(Mul(minLow, extra), minForHold);
      Divs(Wrap32(minLow + extraLow), Wrap32(minHigh + Sub(extra, extraLow)))
  }

  /** Data hold and set-up times in ns with update configuration `cfg`. */
  function HoldNs(khz: u32, low: u32, cfg: u32): u32
    requires khz > 0
  {
    DivUp(Mul(Wrap32(Mul(cfg, low) + 1), 1_000_000), khz)
  }

  function SetupNs(khz: u32, low: u32, cfg: u32): u32
    requires khz > 0
  {
    DivUp(Mul(Wrap32(Mul(Sub(8, cfg), low) + 1), 1_000_000), khz)
  }

  predicate SdaFits(khz: u32, low: u32, cfg: u32, spec: Spec)
    requires khz > 0
  {
    HoldNs(khz, low, cfg) < spec.maxDataHoldNs && SetupNs(khz, low, cfg) > spec.minDataSetupNs
  }

  /** What the search ends with: the largest configuration up to 3 that fits, or 0. */
  function SdaCfg(khz: u32, low: u32, spec: Spec): (r: nat)
    requires khz > 0
    ensures r <= 3 && (r > 0 ==> SdaFits(khz, low, r, spec)) && forall c: nat :: r < c <= 3 ==> !SdaFits(khz, low, c, spec)
  {
    if SdaFits(khz, low, 3, spec) then 3 else if SdaFits(khz, low, 2, spec) then 2 else if SdaFits(khz, low, 1, spec) then 1 else 0
  }

  /** START and STOP set-up configuration. */
  function StpCfg(khz: u32, ns: u32, high: u32): u32
    requires Mul(8_000_000, high) > 0
  {
    DivUp(Sub(Mul(khz, ns), 1_000_000), Mul(8_000_000, high))
  }

  /** The tuning word, from configurations already decremented. */
  function Tuning(sda: bv32, sta: bv32, sto: bv32): bv32 { (sda << 8) | (sta << 12) | (sto << 14) }

  /** REG_CON_TUNING_MASK covers bits 15 to 8. */
  predicate InTuningBits(w: bv32) { w & 0xFFFF_00FF == 0 }

  /** `--x` as it is shifted into its field; the values in use are written out. */
  function Decremented(x: u32): bv32 {
    if x == 0 then 0xFFFF_FFFF
    else if x == 1 then 0
    else if x == 2 then 1
    else if x == 3 then 2
    else (x - 1) as bv32
  }

  // ---- the whole calculation ----

  /** Clock rates whose number of kHz does not come out as zero. */
  type Clock = c: nat | 0 < c <= 0xFFFF_FC18 witness 1

  function Khz(clkRate: Clock): (r: u32)
    ensures 0 < r <= 4_294_967 && clkRate <= 1000 * r <= clkRate + 999
  {
    DivUp(clkRate, 1000)
  }

  /** A bus frequency, clamped, and the rise and fall times. */
  datatype Bus = Bus(freqHz: nat, riseNs: u32, fallNs: u32)

  predicate IsClamped(b: Bus) { 1000 <= b.freqHz <= MAX_FAST_MODE_PLUS_FREQ }

  function MinTotal(clkRate: Clock, b: Bus): u32
    requires IsClamped(b)
  {
    DivUp(Khz(clkRate), b.freqHz / 1000 * 8)
  }

  function MinLow(clkRate: Clock, b: Bus): u32 { MinDiv(Khz(clkRate), Wrap32(b.fallNs + GetSpec(b.freqHz).minLowNs)) }

  function MinHigh(clkRate: Clock, b: Bus): u32 { MinDiv(Khz(clkRate), Wrap32(b.riseNs + GetSpec(b.freqHz).minHighNs)) }

  function AllDivs(clkRate: Clock, b: Bus): Divs
    requires IsClamped(b)
  {
    CalcDivs(MinTotal(clkRate, b), MinLow(clkRate, b), MinHigh(clkRate, b))
  }

  lemma RoundsUp(n: u32, d: u32)
    requires d > 0 && n + d - 1 < TWO_32
    ensures n <= Times(DivUp(n, d), d) <= n + d - 1
  {
    var m := n + d - 1;
    assert m == d * (m / d) + m % d;
  }

  lemma MulExact(a: u32, b: u32)
    requires Times(a, b) < TWO_32
    ensures Mul(a, b) == Times(a, b)
  {
    hide Times;
  }

  lemma Share(minLow: nat, d: nat, extra: nat, share: nat)
    requires minLow <= d && Times(share, d) <= Times(minLow, extra) + d - 1
    ensures share <= extra
  {
    hide Times;
    Scale(minLow, d, extra);
    Commutes(d, extra);
    Distributes(extra, 1, d);
    One(d);
    Cancel(share, extra + 1, d);
  }

  lemma ProductIsSmall(a: nat, b: nat)
    requires a <= 537 && b <= 4_294_967
    ensures Times(a, b) <= 2_306_397_279
  {
    Scale(a, 537, b);
  }

  lemma NoWrap(x: nat)
    requires x < TWO_32
    ensures Wrap32(x) == x
  {
  }

  /** The share of the low phase is a part of what is shared out, and nothing wraps in sharing it. */
  lemma ShareFits(minTotal: u32, minLow: u32, minHigh: u32)
    requires minTotal <= 4_294_967 && 1 <= minLow <= 537 && 1 <= minHigh <= 537
    ensures var r := CalcDivs(minTotal, minLow, minHigh);
      && r.low >= minLow && r.high >= minHigh
      && r.low + r.high == if minLow + minHigh >= minTotal then minLow + minHigh else minTotal
  {
    hide DivUp;
    hide Mul;
    hide Times;
    hide Wrap32;
    if minLow + minHigh < minTotal {
      var d, extra := minLow + minHigh, minTotal - (minLow + minHigh);
      var extraLow: u32 := DivUp(Mul(minLow, extra), d);
      ExtraLowFits(minLow, d, extra);
      NoWrap(minLow + extraLow);
      NoWrap(extra - extraLow);
      NoWrap(minHigh + (extra - extraLow));
    }
  }

  lemma ExtraLowFits(minLow: u32, d: u32, extra: u32)
    requires extra <= 4_294_967 && 1 <= minLow <= 537 && minLow <= d <= 1_074
    ensures DivUp(Mul(minLow, extra), d) <= extra
  {
    hide DivUp;
    hide Mul;
    hide Times;
    ProductIsSmall(minLow, extra);
    MulExact(minLow, extra);
    RoundsUp(Times(minLow, extra), d);
    Share(minLow, d, extra, DivUp(Times(minLow, extra), d));
  }

  lemma TotalIsSmall(clkRate: Clock, b: Bus)
    requires IsClamped(b)
    ensures MinTotal(clkRate, b) <= Khz(clkRate)
  {
    hide Times;
    hide DivUp;
    var d, khz := b.freqHz / 1000 * 8, Khz(clkRate);
    RoundsUp(khz, d);
    One(khz);
    Scale(1, d, khz);
    Commutes(d, khz);
    Distributes(khz, 1, d);
    One(d);
    Cancel(MinTotal(clkRate, b), khz + 1, d);
  }

  /** 15625 is odd, 4350265 its inverse modulo 2^23. */
  lemma NotEqual(high: nat, k: int)
    requires 1 <= high < 0x80_0000
    ensures 15_625 * high != 0x80_0000 * k
  {
    var q := 4_350_265 * k - 8_103 * high;
    assert 15_625 * high == 0x80_0000 * k ==> high == 0x80_0000 * q;
  }

  lemma NotAMultiple(high: nat)
    requires 1 <= high < 0x80_0000
    ensures Mul(8_000_000, high) > 0
  {
    var n := 8_000_000 * high;
    var k := n / TWO_32;
    NotEqual(high, k);
    assert n == 512 * (15_625 * high) && TWO_32 * k == 512 * (0x80_0000 * k);
    assert n % TWO_32 == n - TWO_32 * k;
  }

  /** The dividers never wrap, whatever the clock; the later divisions by the high one are possible. */
  lemma DivsAreExact(clkRate: Clock, b: Bus)
    requires IsClamped(b)
    ensures var r, low, high := AllDivs(clkRate, b), MinLow(clkRate, b), MinHigh(clkRate, b);
      && r.low >= low && r.high >= high && Mul(8_000_000, r.high) > 0
      && r.low + r.high == if low + high >= MinTotal(clkRate, b) then low + high else MinTotal(clkRate, b)
  {
    TotalIsSmall(clkRate, b);
    ShareFits(MinTotal(clkRate, b), MinLow(clkRate, b), MinHigh(clkRate, b));
    NotAMultiple(AllDivs(clkRate, b).high);
  }

  // ---- the tuning word ----

  function StartCfg(clkRate: Clock, b: Bus): u32
    requires IsClamped(b)
  {
    DivsAreExact(clkRate, b);
    StpCfg(Khz(clkRate), Wrap32(b.riseNs + GetSpec(b.freqHz).minSetupStartNs), AllDivs(clkRate, b).high)
  }

  function StopCfg(clkRate: Clock, b: Bus): u32
    requires IsClamped(b)
  {
    DivsAreExact(clkRate, b);
    StpCfg(Khz(clkRate), Wrap32(b.riseNs + GetSpec(b.freqHz).minSetupStopNs), AllDivs(clkRate, b).high)
  }

  function UpdateCfg(clkRate: Clock, b: Bus): (r: nat)
    requires IsClamped(b)
    ensures r <= 3
  {
    SdaCfg(Khz(clkRate), AllDivs(clkRate, b).low, GetSpec(b.freqHz))
  }

  function TuningOf(clkRate: Clock, b: Bus): bv32
    requires IsClamped(b)
  {
    Tuning(Decremented(UpdateCfg(clkRate, b)), Decremented(StartCfg(clkRate, b)), Decremented(StopCfg(clkRate, b)))
  }

  /** Small fields keep out of each other's way, and inside the tuning bits. */
  lemma FieldsAreApart(sda: bv32, sta: bv32, sto: bv32)
    requires sda <= 2 && sta <= 1 && sto <= 1
    ensures var w := Tuning(sda, sta, sto);
      InTuningBits(w) && (w >> 8) & 0xF == sda && (w >> 12) & 0x3 == sta && w >> 14 == sto
  {
  }

  lemma SmallDecrement(x: u32)
    requires 1 <= x <= 3
    ensures Decremented(x) == if x == 1 then 0 else if x == 2 then 1 else 2
  {
  }

  /** Any configuration but 0 loses one. */
  lemma DecrementIs(x: u32)
    requires x > 0
    ensures Decremented(x) == (x - 1) as bv32
  {
  }

  /** The fields of the word are the configurations less one. */
  lemma SmallFieldsHold(sda: u32, sta: u32, sto: u32)
    requires 1 <= sda <= 3 && 1 <= sta <= 2 && 1 <= sto <= 2
    ensures var w := Tuning(Decremented(sda), Decremented(sta), Decremented(sto));
      && InTuningBits(w) && (w >> 8) & 0xF == Decremented(sda)
      && (w >> 12) & 0x3 == Decremented(sta) && w >> 14 == Decremented(sto)
  {
    hide Decremented;
    SmallDecrement(sda);
    SmallDecrement(sta);
    SmallDecrement(sto);
    FieldsAreApart(Decremented(sda), Decremented(sta), Decremented(sto));
  }

  /** A search that finds nothing leaves 0, and the decrement spreads ones over the whole word. */
  lemma NothingFoundSpoils(sta: bv32, sto: bv32)
    ensures !InTuningBits(Tuning(Decremented(0), sta, sto))
  {
    assert Decremented(0) == 0xFFFF_FFFF;
  }

  class Timings {
    var busFreqHz: nat
    var sclRiseNs: nat
    var sclFallNs: nat

    constructor (busFreqHz: nat)
      ensures this.busFreqHz == busFreqHz
    {
      this.busFreqHz, sclRiseNs, sclFallNs := busFreqHz, 0, 0;
    }

    /** updateClockSettings, as far as the calculation uses it. */
    method UpdateClockSettings()
      modifies this`sclRiseNs, this`sclFallNs
      ensures sclRiseNs == Rise(busFreqHz) && sclFallNs == Fall(busFreqHz)
    {
      var defaultVal := if busFreqHz <= MAX_STANDARD_MODE_FREQ then 1000 else if busFreqHz <= MAX_FAST_MODE_FREQ then 300 else 120;
      sclRiseNs := defaultVal;
      defaultVal := if busFreqHz <= MAX_FAST_MODE_FREQ then 300 else 120;
      sclFallNs := defaultVal;
    }

    /** The dividers before the decrement. */
    static method DivideTime(minTotalDiv: u32, minLowDiv: u32, minHighDiv: u32) returns (low: u32, high: u32)
      requires minLowDiv + minHighDiv < TWO_32 && minLowDiv >= 1
      ensures Divs(low, high) == CalcDivs(minTotalDiv, minLowDiv, minHighDiv)
    {
      var minDivForHold := minLowDiv + minHighDiv;
      if minDivForHold >= minTotalDiv {
        low, high := minLowDiv, minHighDiv;
      } else {
        var extraDiv: u32 := minTotalDiv - minDivForHold;
        var extraLowDiv := DivUp(Mul(minLowDiv, extraDiv), minDivForHold);
        low := Wrap32(minLowDiv + extraLowDiv);
        high := Wrap32(minHighDiv + Sub(extraDiv, extraLowDiv));
      }
    }

    /** The search for the data update configuration, downward from 3. */
    static method SearchUpdateCfg(khz: u32, low: u32, spec: Spec) returns (cfg: u32)
      requires khz > 0
      ensures cfg == SdaCfg(khz, low, spec)
    {
      hide DivUp;
      hide Mul;
      cfg := 3;
      while cfg > 0
        invariant cfg <= 3
        invariant forall c: nat :: cfg < c <= 3 ==> !SdaFits(khz, low, c, spec)
      {
        if SdaFits(khz, low, cfg, spec) { break; }
        cfg := cfg - 1;
      }
    }

    /** rk3x_i2c_v1_calc_timings. */
    method CalcTimings(clkRate: Clock) returns (ok: bool, divLow: u32, divHigh: u32, tuning: bv32)
      requires sclRiseNs < TWO_32 && sclFallNs < TWO_32
      modifies this`busFreqHz
      ensures busFreqHz == Clamped(old(busFreqHz))
      ensures var divs := AllDivs(clkRate, Bus(busFreqHz, sclRiseNs, sclFallNs));
        && (ok <==> divs.low <= 0x1_0000 && divs.high <= 0x1_0000)
        && divLow == (if divs.low <= 0x1_0000 then divs.low - 1 else 0xFFFF)
        && divHigh == (if divs.high <= 0x1_0000 then divs.high - 1 else 0xFFFF)
      ensures tuning == TuningOf(clkRate, Bus(busFreqHz, sclRiseNs, sclFallNs))
    {
      hide DivUp;
      hide Mul;
      hide Tuning;
      hide Decremented;
      hide CalcDivs;
      hide SdaCfg;
      hide MinDiv;
      hide StpCfg;
      hide GetSpec;
      hide Khz;
      if busFreqHz > MAX_FAST_MODE_PLUS_FREQ { busFreqHz := MAX_FAST_MODE_PLUS_FREQ; }
      if busFreqHz < 1000 { busFreqHz := 1000; }
      ghost var b := Bus(busFreqHz, sclRiseNs, sclFallNs);
      var spec := GetSpec(busFreqHz);
      var clkRateKhz: u32 := Khz(clkRate);
      var sclRateKhz := busFreqHz / 1000;
      var minTotalDiv := DivUp(clkRateKhz, sclRateKhz * 8);
      var minHighDiv := MinDiv(clkRateKhz, Wrap32(sclRiseNs + spec.minHighNs));
      var minLowDiv := MinDiv(clkRateKhz, Wrap32(sclFallNs + spec.minLowNs));
      DivsAreExact(clkRate, b);
      var low, high := DivideTime(minTotalDiv, minLowDiv, minHighDiv);
      var sdaUpdateCfg := SearchUpdateCfg(clkRateKhz, low, spec);
      var stpStaCfg := StpCfg(clkRateKhz, Wrap32(sclRiseNs + spec.minSetupStartNs), high);
      var stpStoCfg := StpCfg(clkRateKhz, Wrap32(sclRiseNs + spec.minSetupStopNs), high);
      tuning := Tuning(Decremented(sdaUpdateCfg), Decremented(stpStaCfg), Decremented(stpStoCfg));
      divLow, divHigh, ok := low - 1, high - 1, true;
      if divLow > 0xFFFF { divLow, ok := 0xFFFF, false; }
      if divHigh > 0xFFFF { divHigh, ok := 0xFFFF, false; }
    }
  }
}
