/** In a range of clocks nothing in the I2C timing calculation wraps, and the result meets the
    requirements of the bus specification (UM10204, section 6.1). */
module I2cTimingsMeetSpec {
  import opened Common
  import opened Machine32
  import opened I2cTimings

  /** A clamped bus frequency with the rise and fall times set for it. */
  predicate IsSet(b: Bus) { IsClamped(b) && b.riseNs == Rise(b.freqHz) && b.fallNs == Fall(b.freqHz) }

  /** Rounding up to the minima of the low and high time does not wrap. */
  predicate MinimaFit(clkRate: Clock, b: Bus) {
    IsSet(b) && Khz(clkRate) * LowNs(b) + 7_999_999 < TWO_32 && Khz(clkRate) * HighNs(b) + 7_999_999 < TWO_32
  }

  /** Nothing wraps at all: not the data times for 7 times the low divider, nor the set-up times for 8 times
      the high one. */
  predicate InRange(clkRate: Clock, b: Bus) {
    && IsSet(b) && 3_000_000 <= clkRate <= 390_000_000 && AllDivs(clkRate, b).low <= 488
    && 8_000_000 * AllDivs(clkRate, b).high + Khz(clkRate) * StartNs(b) <= 4_290_000_000
    && 8_000_000 * AllDivs(clkRate, b).high + Khz(clkRate) * StopNs(b) <= 4_290_000_000
  }

  function LowNs(b: Bus): nat { b.fallNs + GetSpec(b.freqHz).minLowNs }
  function HighNs(b: Bus): nat { b.riseNs + GetSpec(b.freqHz).minHighNs }
  function StartNs(b: Bus): nat { b.riseNs + GetSpec(b.freqHz).minSetupStartNs }
  function StopNs(b: Bus): nat { b.riseNs + GetSpec(b.freqHz).minSetupStopNs }

  /** The times by mode, in ns. */
  lemma Modes(b: Bus)
    requires IsSet(b)
    ensures if b.freqHz <= MAX_STANDARD_MODE_FREQ then LowNs(b) == 5_000 && HighNs(b) == 5_000 && StartNs(b) == 5_700 && StopNs(b) == 5_000
            else if b.freqHz <= MAX_FAST_MODE_FREQ then LowNs(b) == 1_600 && HighNs(b) == 900 && StartNs(b) == 900 && StopNs(b) == 900
            else LowNs(b) == 620 && HighNs(b) == 380 && StartNs(b) == 380 && StopNs(b) == 380
  {
  }

  /** The limits on the data times by mode, in ns: the longest hold time and the shortest set-up time. */
  lemma DataTimes(freqHz: nat)
    ensures var spec := GetSpec(freqHz);
      if freqHz <= 100_000 then spec.maxDataHoldNs == 3_450 && spec.minDataSetupNs == 250
      else if freqHz <= 400_000 then spec.maxDataHoldNs == 900 && spec.minDataSetupNs == 100
      else spec.maxDataHoldNs == 400 && spec.minDataSetupNs == 50
  {
  }

  lemma MinDivIs(khz: u32, ns: u32)
    requires khz * ns + 7_999_999 < TWO_32 && khz * ns >= 1
    ensures Times(khz, ns) <= 8_000_000 * MinDiv(khz, ns) <= Times(khz, ns) + 7_999_999
  {
    hide DivUp;
    hide Times;
    hide Mul;
    ConstantTimes(khz, ns);
    MulExact(khz, ns);
    RoundsUp(Times(khz, ns), 8_000_000);
    ConstantTimes(DivUp(Times(khz, ns), 8_000_000), 8_000_000);
  }

  /** The divider that the frequency asks for. */
  lemma MinTotalIs(clkRate: Clock, b: Bus)
    requires IsClamped(b)
    ensures var khz, total := Khz(clkRate), MinTotal(clkRate, b);
      && khz <= Times(total, b.freqHz / 1000 * 8) && total >= 1 && (b.freqHz >= 100_000 ==> 800 * total <= khz + 799)
  {
    hide DivUp;
    hide Times;
    var khz, d, total := Khz(clkRate), b.freqHz / 1000 * 8, MinTotal(clkRate, b);
    RoundsUp(khz, d);
    if total == 0 { ZeroTimes(d); }
    if b.freqHz >= 100_000 {
      Distributes(total - 1, 1, d);
      One(d);
      Scale(800, d, total - 1);
      Commutes(800, total - 1);
      Commutes(d, total - 1);
      ConstantTimes(800, total - 1);
    }
  }

  /** What is known of the minima: exact by the times asked for. */
  lemma MinimaAre(clkRate: Clock, b: Bus)
    requires MinimaFit(clkRate, b)
    ensures var khz, low, high := Khz(clkRate), MinLow(clkRate, b), MinHigh(clkRate, b);
      && khz * LowNs(b) <= 8_000_000 * low <= khz * LowNs(b) + 7_999_999
      && khz * HighNs(b) <= 8_000_000 * high <= khz * HighNs(b) + 7_999_999
  {
    hide Times;
    hide MinDiv;
    var khz := Khz(clkRate);
    Modes(b);
    AtLeastOne(khz, LowNs(b));
    AtLeastOne(khz, HighNs(b));
    MinDivIs(khz, LowNs(b));
    MinDivIs(khz, HighNs(b));
    ConstantTimes(khz, LowNs(b));
    ConstantTimes(khz, HighNs(b));
  }

  lemma AtLeastOne(khz: nat, ns: nat)
    requires khz >= 1 && ns >= 1
    ensures khz * ns >= 1
  {
  }

  /** In the usual range of clocks the minima fit. */
  lemma UsualMinimaFit(clkRate: Clock, b: Bus)
    requires IsSet(b) && 3_000_000 <= clkRate <= 390_000_000
    ensures 3_000 <= Khz(clkRate) <= 390_000 && MinimaFit(clkRate, b)
  {
    Modes(b);
  }

  /** The dividers are exact: both minima are met, and together they are what the frequency asks for. */
  lemma DivsMeetMinima(clkRate: Clock, b: Bus)
    requires MinimaFit(clkRate, b)
    ensures var khz, divs := Khz(clkRate), AllDivs(clkRate, b);
      && khz * LowNs(b) <= 8_000_000 * divs.low && khz * HighNs(b) <= 8_000_000 * divs.high
      && khz <= Times(divs.low + divs.high, b.freqHz / 1000 * 8)
  {
    hide Times;
    hide MinLow;
    hide MinHigh;
    hide MinTotal;
    hide AllDivs;
    hide LowNs;
    hide HighNs;
    hide Khz;
    DivsAreExact(clkRate, b);
    MinimaAre(clkRate, b);
    MinTotalIs(clkRate, b);
    Scale(MinTotal(clkRate, b), AllDivs(clkRate, b).low + AllDivs(clkRate, b).high, b.freqHz / 1000 * 8);
  }

  datatype Sizes = Sizes(khz: nat, minLow: nat, minHigh: nat, total: nat, low: nat, high: nat)

  /** The linear facts about a clock and its dividers. */
  predicate Sized(z: Sizes, lowNs: nat, highNs: nat) {
    && 3_000 <= z.khz <= 390_000 && 800 * z.total <= z.khz + 799
    && z.khz * lowNs <= 8_000_000 * z.minLow <= z.khz * lowNs + 7_999_999
    && z.khz * highNs <= 8_000_000 * z.minHigh <= z.khz * highNs + 7_999_999
    && z.low >= z.minLow && z.high >= z.minHigh
    && z.low + z.high == if z.minLow + z.minHigh >= z.total then z.minLow + z.minHigh else z.total
  }

  lemma SizedStandard(z: Sizes)
    requires Sized(z, 5_000, 5_000)
    ensures 1 <= z.low && 1 <= z.high && z.low + z.high <= 489 && 8_000_000 * z.high + 5_700 * z.khz <= 4_290_000_000
  {
  }

  lemma SizedFast(z: Sizes)
    requires Sized(z, 1_600, 900)
    ensures 1 <= z.low && 1 <= z.high && z.low + z.high <= 489 && 8_000_000 * z.high + 900 * z.khz <= 4_290_000_000
  {
  }

  lemma SizedFastPlus(z: Sizes)
    requires Sized(z, 620, 380)
    ensures 1 <= z.low && 1 <= z.high && z.low + z.high <= 489 && 8_000_000 * z.high + 380 * z.khz <= 4_290_000_000
  {
  }

  /** From 100 kHz on the dividers are small, whatever the clock. */
  lemma FastIsInRange(clkRate: Clock, b: Bus)
    requires IsSet(b) && 3_000_000 <= clkRate <= 390_000_000 && b.freqHz >= 100_000
    ensures InRange(clkRate, b)
  {
    UsualMinimaFit(clkRate, b);
    hide Times;
    hide MinLow;
    hide MinHigh;
    hide MinTotal;
    hide AllDivs;
    hide LowNs;
    hide HighNs;
    hide StartNs;
    hide StopNs;
    hide Khz;
    DivsAreExact(clkRate, b);
    MinimaAre(clkRate, b);
    MinTotalIs(clkRate, b);
    Modes(b);
    var divs := AllDivs(clkRate, b);
    var z := Sizes(Khz(clkRate), MinLow(clkRate, b), MinHigh(clkRate, b), MinTotal(clkRate, b), divs.low, divs.high);
    if b.freqHz <= MAX_STANDARD_MODE_FREQ {
      SizedStandard(z);
    } else if b.freqHz <= MAX_FAST_MODE_FREQ {
      SizedFast(z);
    } else {
      SizedFastPlus(z);
    }
  }

  // ---- START and STOP set-up ----

  /** `8h * u + 1` clocks are at least `ns`, and no smaller `u` would do. */
  predicate SetupMet(khz: nat, ns: nat, high: nat, u: nat) {
    && khz * ns <= Times(u, 8_000_000 * high) + 1_000_000
    && (u >= 1 ==> Times(u - 1, 8_000_000 * high) + 1_000_000 < khz * ns)
  }

  lemma StpCfgIs(khz: u32, ns: u32, high: u32, highNs: nat)
    requires 3_000 <= khz && 380 <= ns <= 5_700 && high >= 1 && 8_000_000 * high + khz * ns <= 4_290_000_000
    requires khz * highNs <= 8_000_000 * high && khz * ns <= 2 * (khz * highNs)
    requires 1_000_000 < khz * ns && Mul(8_000_000, high) > 0
    ensures 1 <= StpCfg(khz, ns, high) <= 2 && SetupMet(khz, ns, high, StpCfg(khz, ns, high))
  {
    hide DivUp;
    hide Times;
    hide Mul;
    var d, n := 8_000_000 * high, khz * ns - 1_000_000;
    ConstantTimes(8_000_000, high);
    MulExact(8_000_000, high);
    ConstantTimes(khz, ns);
    MulExact(khz, ns);
    RoundsUp(n, d);
    var u := DivUp(n, d);
    if u == 0 { ZeroTimes(d); }
    Distributes(u - 1, 1, d);
    One(d);
    Distributes(1, 2, d);
    Distributes(1, 1, d);
    Cancel(u, 3, d);
  }

  lemma LongEnough(khz: nat, ns: nat)
    requires 3_000 <= khz && 380 <= ns
    ensures 1_000_000 < khz * ns
  {
    assert khz * ns >= 3_000 * ns;
  }

  lemma TwiceHigh(khz: nat, ns: nat, highNs: nat)
    requires ns <= 2 * highNs
    ensures khz * ns <= 2 * (khz * highNs)
  {
    assert khz * (2 * highNs - ns) >= 0;
  }

  lemma SetupsAreMet(clkRate: Clock, b: Bus)
    requires InRange(clkRate, b)
    ensures var khz, high, u, p := Khz(clkRate), AllDivs(clkRate, b).high, StartCfg(clkRate, b), StopCfg(clkRate, b);
      1 <= u <= 2 && 1 <= p <= 2 && SetupMet(khz, StartNs(b), high, u) && SetupMet(khz, StopNs(b), high, p)
  {
    hide Times;
    hide MinLow;
    hide MinHigh;
    hide MinTotal;
    hide AllDivs;
    hide Khz;
    hide SetupMet;
    hide StpCfg;
    hide Mul;
    var khz, high := Khz(clkRate), AllDivs(clkRate, b).high;
    DivsAreExact(clkRate, b);
    UsualMinimaFit(clkRate, b);
    DivsMeetMinima(clkRate, b);
    Modes(b);
    LongEnough(khz, StartNs(b));
    LongEnough(khz, StopNs(b));
    TwiceHigh(khz, StartNs(b), HighNs(b));
    TwiceHigh(khz, StopNs(b), HighNs(b));
    StpCfgIs(khz, StartNs(b), high, HighNs(b));
    StpCfgIs(khz, StopNs(b), high, HighNs(b));
  }

  // ---- data hold and set-up ----

  lemma Mono(n: u32, m: u32, d: u32)
    requires d > 0 && n <= m && m + d - 1 < TWO_32
    ensures DivUp(n, d) <= DivUp(m, d)
  {
    hide DivUp;
    hide Times;
    RoundsUp(n, d);
    RoundsUp(m, d);
    Distributes(DivUp(m, d), 1, d);
    One(d);
    Cancel(DivUp(n, d), DivUp(m, d) + 1, d);
  }

  lemma ClocksAre(k: u32, low: u32)
    requires k <= 7 && low <= 488
    ensures Mul(Wrap32(Mul(k, low) + 1), 1_000_000) == (Times(k, low) + 1) * 1_000_000 <= 3_417_000_000
  {
    hide Times;
    hide Mul;
    Scale(k, 7, low);
    ConstantTimes(7, low);
    MulExact(k, low);
    var clocks := Times(k, low) + 1;
    ConstantTimes(clocks, 1_000_000);
    MulExact(clocks, 1_000_000);
  }

  lemma NsIs(khz: u32, low: u32, cfg: u32)
    requires 3_000 <= khz <= 390_000 && low <= 488 && 1 <= cfg <= 3
    ensures (Times(cfg, low) + 1) * 1_000_000 <= 3_417_000_000 && (Times(8 - cfg, low) + 1) * 1_000_000 <= 3_417_000_000
    ensures HoldNs(khz, low, cfg) == DivUp((Times(cfg, low) + 1) * 1_000_000, khz)
    ensures SetupNs(khz, low, cfg) == DivUp((Times(8 - cfg, low) + 1) * 1_000_000, khz)
  {
    hide DivUp;
    hide Times;
    hide Mul;
    ClocksAre(cfg, low);
    ClocksAre(8 - cfg, low);
  }

  /** The search looks for the largest configuration that fits, but it finds one if and only if 1 fits. */
  lemma SearchFinds(khz: u32, low: u32, spec: Spec)
    requires 3_000 <= khz <= 390_000 && low <= 488
    ensures SdaCfg(khz, low, spec) >= 1 <==> SdaFits(khz, low, 1, spec)
  {
    hide DivUp;
    hide Times;
    hide HoldNs;
    hide SetupNs;
    var c := SdaCfg(khz, low, spec);
    if c >= 1 {
      NsIs(khz, low, c);
      NsIs(khz, low, 1);
      Scale(1, c, low);
      Scale(8 - c, 7, low);
      Mono((Times(1, low) + 1) * 1_000_000, (Times(c, low) + 1) * 1_000_000, khz);
      Mono((Times(8 - c, low) + 1) * 1_000_000, (Times(7, low) + 1) * 1_000_000, khz);
    }
  }

  /** The hold time `s * low + 1` clocks is below the maximum and the set-up time `(8 - s) * low + 1`
      clocks above the minimum. */
  predicate DataMet(khz: nat, low: nat, s: nat, spec: Spec)
    requires s <= 8
  {
    && (Times(s, low) + 1) * 1_000_000 < Times(spec.maxDataHoldNs, khz)
    && (Times(8 - s, low) + 1) * 1_000_000 > Times(spec.minDataSetupNs, khz)
  }

  lemma FittingIsMet(khz: u32, low: u32, s: u32, spec: Spec)
    requires 3_000 <= khz <= 390_000 && low <= 488 && 1 <= s <= 3 && SdaFits(khz, low, s, spec)
    ensures DataMet(khz, low, s, spec)
  {
    hide DivUp;
    hide Times;
    hide HoldNs;
    hide SetupNs;
    NsIs(khz, low, s);
    var hold: nat, setup: nat := HoldNs(khz, low, s), SetupNs(khz, low, s);
    RoundsUp((Times(s, low) + 1) * 1_000_000, khz);
    RoundsUp((Times(8 - s, low) + 1) * 1_000_000, khz);
    Distributes(hold, 1, khz);
    One(khz);
    Scale(hold + 1, spec.maxDataHoldNs, khz);
    Distributes(setup - 1, 1, khz);
    Scale(spec.minDataSetupNs, setup - 1, khz);
  }

  // ---- the main results ----

  /** Whatever the bus, as long as its minima do not wrap: SCL is never faster than requested, and the low and
      high times meet the specification with rise and fall times. */
  lemma TimingsMeetSpec(clkRate: Clock, b: Bus)
    requires MinimaFit(clkRate, b)
    ensures var divs := AllDivs(clkRate, b);
      && clkRate <= Times(divs.low + divs.high, 8 * b.freqHz)
      && clkRate * LowNs(b) <= 8_000_000_000 * divs.low && clkRate * HighNs(b) <= 8_000_000_000 * divs.high
  {
    hide AllDivs;
    hide Times;
    hide LowNs;
    hide HighNs;
    var divs, khz := AllDivs(clkRate, b), Khz(clkRate);
    DivsMeetMinima(clkRate, b);
    Kilo(clkRate, khz, LowNs(b));
    Kilo(clkRate, khz, HighNs(b));
    KiloFrequency(clkRate, khz, divs.low + divs.high, b.freqHz);
  }

  lemma Kilo(clkRate: nat, khz: nat, ns: nat)
    requires clkRate <= 1000 * khz
    ensures clkRate * ns <= 1000 * (khz * ns)
  {
    assert (1000 * khz - clkRate) * ns >= 0;
  }

  lemma KiloFrequency(clkRate: nat, khz: nat, total: nat, freqHz: nat)
    requires clkRate <= 1000 * khz && khz <= Times(total, freqHz / 1000 * 8)
    ensures clkRate <= Times(total, 8 * freqHz)
  {
    var d := freqHz / 1000 * 8;
    Scale(1000 * d, 8 * freqHz, total);
    Commutes(1000 * d, total);
    Commutes(8 * freqHz, total);
    assert Times(total, 1000 * d) == 1000 * Times(total, d);
  }

  /** In range, the first data configuration fits if and only if its hold time is short enough. */
  lemma FirstFits(clkRate: Clock, b: Bus)
    requires InRange(clkRate, b)
    ensures var khz, low, spec := Khz(clkRate), AllDivs(clkRate, b).low, GetSpec(b.freqHz);
      SdaFits(khz, low, 1, spec) <==> (low + 1) * 1_000_000 <= (spec.maxDataHoldNs - 1) * khz
  {
    hide DivUp;
    hide Times;
    hide HoldNs;
    hide SetupNs;
    hide AllDivs;
    hide LowNs;
    hide Khz;
    var khz, low, spec := Khz(clkRate), AllDivs(clkRate, b).low, GetSpec(b.freqHz);
    UsualMinimaFit(clkRate, b);
    DivsMeetMinima(clkRate, b);
    Modes(b);
    NsIs(khz, low, 1);
    One(low);
    ConstantTimes(7, low);
    RoundedBelow((low + 1) * 1_000_000, khz, spec.maxDataHoldNs);
    RoundsUp((7 * low + 1) * 1_000_000, khz);
    AboveNs(SetupNs(khz, low, 1), spec.minDataSetupNs, khz, (7 * low + 1) * 1_000_000);
  }

  lemma RoundedBelow(n: u32, d: u32, max: nat)
    requires d > 0 && n + d - 1 < TWO_32 && max >= 1
    ensures DivUp(n, d) < max <==> n <= (max - 1) * d
  {
    hide DivUp;
    hide Times;
    var q: nat := DivUp(n, d);
    RoundsUp(n, d);
    ConstantTimes(max - 1, d);
    if q < max { Scale(q, max - 1, d); }
    if n <= (max - 1) * d {
      Distributes(max - 1, 1, d);
      One(d);
      Cancel(q, max, d);
    }
  }

  /** In range, the tuning word stays in its bits if and only if the hold time of the smallest data
      configuration, `low + 1` clocks, is below the maximum; the data times are then met and the
      configurations are in their fields. */
  lemma TuningStaysInBits(clkRate: Clock, b: Bus)
    requires InRange(clkRate, b)
    ensures var khz, low, spec := Khz(clkRate), AllDivs(clkRate, b).low, GetSpec(b.freqHz);
      InTuningBits(TuningOf(clkRate, b)) <==> (low + 1) * 1_000_000 <= (spec.maxDataHoldNs - 1) * khz
    ensures var w, s := TuningOf(clkRate, b), UpdateCfg(clkRate, b);
      InTuningBits(w) ==> (&& s >= 1 && DataMet(Khz(clkRate), AllDivs(clkRate, b).low, s, GetSpec(b.freqHz))
                           && (w >> 8) & 0xF == Decremented(s) && (w >> 12) & 0x3 == Decremented(StartCfg(clkRate, b))
                           && w >> 14 == Decremented(StopCfg(clkRate, b)))
  {
    hide AllDivs;
    hide StartCfg;
    hide StopCfg;
    hide SetupMet;
    hide Decremented;
    hide Tuning;
    hide InTuningBits;
    hide SdaCfg;
    hide SdaFits;
    hide DataMet;
    UsualMinimaFit(clkRate, b);
    SetupsAreMet(clkRate, b);
    FirstFits(clkRate, b);
    var khz, low, s := Khz(clkRate), AllDivs(clkRate, b).low, UpdateCfg(clkRate, b);
    SearchFinds(khz, low, GetSpec(b.freqHz));
    if s >= 1 {
      SmallFieldsHold(s, StartCfg(clkRate, b), StopCfg(clkRate, b));
      FittingIsMet(khz, low, s, GetSpec(b.freqHz));
    } else {
      NothingFoundSpoils(Decremented(StartCfg(clkRate, b)), Decremented(StopCfg(clkRate, b)));
    }
  }

  // ---- which clocks are in range ----

  /** In standard mode both minima are the same and the time is shared evenly, so how large the dividers
      become can be told from the clock and the bus. */
  lemma EvenShare(clkRate: Clock, b: Bus)
    requires IsSet(b) && b.freqHz <= MAX_STANDARD_MODE_FREQ && 3_000_000 <= clkRate <= 390_000_000
    ensures var divs, total := AllDivs(clkRate, b), MinTotal(clkRate, b);
      divs.high <= divs.low <= divs.high + 1 && (divs.low + divs.high == total || divs.low + divs.high <= 488)
  {
    hide MinTotal;
    hide DivUp;
    hide Times;
    hide Mul;
    hide LowNs;
    hide HighNs;
    var min, total := MinLow(clkRate, b), MinTotal(clkRate, b);
    UsualMinimaFit(clkRate, b);
    MinimaAre(clkRate, b);
    Modes(b);
    DivsAreExact(clkRate, b);
    TotalIsSmall(clkRate, b);
    if 2 * min < total {
      var extra := total - 2 * min;
      ProductIsSmall(min, extra);
      MulExact(min, extra);
      RoundsUp(Times(min, extra), 2 * min);
      HalfOf(min, extra, DivUp(Times(min, extra), 2 * min));
    }
  }

  lemma HalfOf(min: nat, extra: nat, half: nat)
    requires min >= 1 && Times(min, extra) <= Times(half, 2 * min) <= Times(min, extra) + 2 * min - 1
    ensures extra <= 2 * half <= extra + 1
  {
    hide Times;
    Commutes(min, extra);
    Commutes(half, 2 * min);
    DoubleTimes(min, half);
    if 2 * half < extra { Scale(2 * half + 1, extra, min); Distributes(2 * half, 1, min); One(min); }
    if 2 * half > extra + 1 { Scale(extra + 2, 2 * half, min); Distributes(extra, 2, min); Distributes(1, 1, min); One(min); }
  }

  lemma DoubleTimes(min: nat, half: nat)
    ensures Times(2 * min, half) == Times(2 * half, min)
  {
  }

  /** A slower bus is in range as long as the divider that its frequency asks for is not too large. */
  lemma SlowIsInRange(clkRate: Clock, b: Bus)
    requires IsSet(b) && b.freqHz <= MAX_STANDARD_MODE_FREQ && 3_000_000 <= clkRate <= 390_000_000
    requires MinTotal(clkRate, b) <= 976 && 4_000_000 * MinTotal(clkRate, b) + 5_700 * Khz(clkRate) <= 4_290_000_000
    ensures InRange(clkRate, b)
  {
    hide AllDivs;
    hide MinTotal;
    hide Khz;
    EvenShare(clkRate, b);
    UsualMinimaFit(clkRate, b);
    Modes(b);
  }

  /** The low divider at a standard speed is the minimal one: the bus could not go faster anyway. */
  lemma StandardLow(clkRate: Clock, b: Bus)
    requires InRange(clkRate, b) && b.freqHz in {100_000, 400_000, 1_000_000}
    ensures var khz, low := Khz(clkRate), AllDivs(clkRate, b).low;
      low <= 488 && 3_000 <= khz <= 390_000 && khz * LowNs(b) <= 8_000_000 * low <= khz * LowNs(b) + 7_999_999
  {
    hide AllDivs;
    hide MinLow;
    hide MinHigh;
    hide LowNs;
    hide HighNs;
    hide Khz;
    UsualMinimaFit(clkRate, b);
    MinimaAre(clkRate, b);
    Modes(b);
    StandardTotal(clkRate, b);
    MinimaSuffice(clkRate, b);
  }

  lemma MinimaSuffice(clkRate: Clock, b: Bus)
    requires IsClamped(b) && MinLow(clkRate, b) + MinHigh(clkRate, b) >= MinTotal(clkRate, b)
    ensures AllDivs(clkRate, b).low == MinLow(clkRate, b)
  {
    hide MinLow;
    hide MinHigh;
    hide MinTotal;
  }

  lemma StandardTotal(clkRate: Clock, b: Bus)
    requires InRange(clkRate, b) && b.freqHz in {100_000, 400_000, 1_000_000}
    ensures MinLow(clkRate, b) + MinHigh(clkRate, b) >= MinTotal(clkRate, b)
  {
    hide MinLow;
    hide MinHigh;
    hide LowNs;
    hide HighNs;
    hide Khz;
    hide DivUp;
    hide Times;
    hide MinTotal;
    hide MinimaFit;
    UsualMinimaFit(clkRate, b);
    MinimaAre(clkRate, b);
    Modes(b);
    StandardTotalIs(clkRate, b);
    var khz, sum := Khz(clkRate), MinLow(clkRate, b) + MinHigh(clkRate, b);
    if b.freqHz == 100_000 {
      assert khz <= 800 * sum;
    } else if b.freqHz == 400_000 {
      assert khz <= 3_200 * sum;
    } else {
      assert khz <= 8_000 * sum;
    }
  }

  lemma StandardTotalIs(clkRate: Clock, b: Bus)
    requires IsClamped(b) && b.freqHz in {100_000, 400_000, 1_000_000}
    ensures var khz, total := Khz(clkRate), MinTotal(clkRate, b);
      if b.freqHz == 100_000 then 800 * total <= khz + 799
      else if b.freqHz == 400_000 then 3_200 * total <= khz + 3_199
      else 8_000 * total <= khz + 7_999
  {
    hide Khz;
    hide DivUp;
    hide Times;
    var khz, d, total := Khz(clkRate), b.freqHz / 1000 * 8, MinTotal(clkRate, b);
    RoundsUp(khz, d);
    ConstantTimes(total, d);
  }

  /** At the standard speeds, from 25 MHz of input clock up, the search stops at once at 3, so the tuning
      word is good. */
  lemma StandardSpeedsTune(clkRate: Clock, b: Bus)
    requires IsSet(b) && 25_000_000 <= clkRate <= 390_000_000 && b.freqHz in {100_000, 400_000, 1_000_000}
    ensures UpdateCfg(clkRate, b) == 3 && InTuningBits(TuningOf(clkRate, b))
  {
    hide AllDivs;
    hide LowNs;
    hide Khz;
    hide TuningOf;
    hide InTuningBits;
    hide HoldNs;
    hide SetupNs;
    var khz, low := Khz(clkRate), AllDivs(clkRate, b).low;
    KhzIs(clkRate);
    FastIsInRange(clkRate, b);
    StandardLow(clkRate, b);
    Modes(b);
    StandardFits(khz, low, LowNs(b), GetSpec(b.freqHz));
    TuningStaysInBits(clkRate, b);
    SearchFinds(khz, low, GetSpec(b.freqHz));
  }

  lemma KhzIs(clkRate: Clock)
    ensures clkRate <= 1000 * Khz(clkRate)
  {
  }

  lemma StandardFits(khz: u32, low: u32, lowNs: nat, spec: Spec)
    requires 25_000 <= khz <= 390_000 && low <= 488 && khz * lowNs <= 8_000_000 * low <= khz * lowNs + 7_999_999
    requires (spec == STANDARD && lowNs == 5_000) || (spec == FAST && lowNs == 1_600) || (spec == FAST_PLUS && lowNs == 620)
    ensures SdaFits(khz, low, 3, spec)
  {
    hide DivUp;
    hide Times;
    hide HoldNs;
    hide SetupNs;
    NsIs(khz, low, 3);
    ConstantTimes(3, low);
    ConstantTimes(5, low);
    var hold: nat, setup: nat := HoldNs(khz, low, 3), SetupNs(khz, low, 3);
    RoundsUp((3 * low + 1) * 1_000_000, khz);
    RoundsUp((5 * low + 1) * 1_000_000, khz);
    BelowNs(hold, spec.maxDataHoldNs, khz, (3 * low + 1) * 1_000_000);
    AboveNs(setup, spec.minDataSetupNs, khz, (5 * low + 1) * 1_000_000);
  }

  lemma BelowNs(ns: nat, max: nat, khz: nat, clocks: nat)
    requires Times(ns, khz) <= clocks + khz - 1 && clocks + khz - 1 < max * khz
    ensures ns < max
  {
    hide Times;
    ConstantTimes(max, khz);
    Cancel(ns, max, khz);
  }

  lemma AboveNs(ns: nat, min: nat, khz: nat, clocks: nat)
    requires clocks <= Times(ns, khz) && min * khz < clocks
    ensures ns > min
  {
    hide Times;
    ConstantTimes(min, khz);
    Cancel(min, ns, khz);
  }

  const SLOW: Bus := Bus(10_000, 1_000, 300)

  lemma DivUpIs(n: u32, d: u32, r: u32)
    requires d > 0 && n + d - 1 < TWO_32 && n <= Times(r, d) <= n + d - 1
    ensures DivUp(n, d) == r
  {
    hide DivUp;
    hide Times;
    var q: nat := DivUp(n, d);
    RoundsUp(n, d);
    Distributes(q, 1, d);
    Distributes(r, 1, d);
    One(d);
    Cancel(q, r + 1, d);
    Cancel(r, q + 1, d);
  }

  lemma SlowMinDiv()
    ensures MinDiv(50_000, 5_000) == 32
  {
    hide DivUp;
    hide Mul;
    MulExact(50_000, 5_000);
    DivUpIs(250_000_000, 8_000_000, 32);
  }

  lemma SlowShare()
    ensures CalcDivs(625, 32, 32) == Divs(313, 312)
  {
    hide DivUp;
    hide Mul;
    MulExact(32, 561);
    DivUpIs(17_952, 64, 281);
  }

  lemma SlowDivs()
    ensures IsClamped(SLOW) && AllDivs(50_000_000, SLOW) == Divs(313, 312) && Khz(50_000_000) == 50_000
  {
    hide DivUp;
    hide MinDiv;
    hide CalcDivs;
    DivUpIs(50_000_000, 1_000, 50_000);
    DivUpIs(50_000, 80, 625);
    SlowMinDiv();
    SlowShare();
  }

  /** A slow bus has such a long low time that no data configuration fits: here 10 kHz from 50 MHz, with 314
      clocks of hold time where 172 would be short enough. The tuning word then overwrites bits outside its own. */
  lemma SlowBusSpoilsTuning()
    ensures SLOW == Bus(10_000, Rise(10_000), Fall(10_000)) && InRange(50_000_000, SLOW)
    ensures !InTuningBits(TuningOf(50_000_000, SLOW))
  {
    hide InTuningBits;
    hide AllDivs;
    hide TuningOf;
    hide Khz;
    SlowDivs();
    Modes(SLOW);
    TuningStaysInBits(50_000_000, SLOW);
  }
}
