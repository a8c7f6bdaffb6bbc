/** The counter sampler of the energy harness: the two masked energy-status readings taken at
    one instant, the raw delta between two readings of one counter with its wrap-around
    branch, the sample in joules that a pair of snapshots yields, and the sample sequence a
    chain of readings produces when each reading becomes the baseline of the next. */
module CounterSampler {
  import opened EnergyRegisters

  /** The two energy domains the harness reads. */
  datatype Domain = Package | Dram

  /** The raw 64-bit values of MSR_PKG_ENERGY_STATUS and MSR_DRAM_ENERGY_STATUS at one read. */
  datatype Reading = Reading(pkg: RawReading, dram: RawReading)

  /** A pair of masked readings: `pkg_before, dram_before` or `pkg_now, dram_now`. */
  datatype Snapshot = Snapshot(pkg: Counter, dram: Counter)

  /** One sample: the package and DRAM energy in joules since the previous snapshot. */
  datatype EnergySample = EnergySample(pkg: real, dram: real)

  function Count(s: Snapshot, d: Domain): (r: Counter)
  {
    match d
    case Package => s.pkg
    case Dram => s.dram
  }

  function Energy(x: EnergySample, d: Domain): (r: real)
  {
    match d
    case Package => x.pkg
    case Dram => x.dram
  }

  /** Both readings reduced to their low 32 bits, as every energy read does. */
  function Snap(r: Reading): (s: Snapshot)
  {
    Snapshot(LowWord(r.pkg), LowWord(r.dram))
  }

  /** The raw count between two readings of one counter: `now - before`, or, when the reading
      went down, `0xFFFFFFFF - before + now`. */
  function RawDelta(before: Counter, now: Counter): (d: nat)
    ensures d <= MaxCount
  {
    if now < before then MaxCount - before + now else now - before
  }

  /** The count a 32-bit counter advanced by, modulo `2 ** 32`. */
  function ModularDelta(before: Counter, now: Counter): (d: nat)
    ensures d <= MaxCount
  {
    (now - before) % (MaxCount + 1)
  }

  /** Without a wrap the raw delta is the true advance; across a wrap it is one count short
      of it, because the step from 0xFFFFFFFF to 0 is not counted. */
  lemma RawDeltaVersusModular(before: Counter, now: Counter)
    ensures now >= before ==> RawDelta(before, now) == ModularDelta(before, now)
    ensures now < before ==> RawDelta(before, now) + 1 == ModularDelta(before, now)
  {
    if now < before {
      assert (now - before) % (MaxCount + 1) == now - before + MaxCount + 1;
    }
  }

  /** The delta is zero exactly when the reading did not move, or when it went from
      0xFFFFFFFF to 0. */
  lemma RawDeltaZero(before: Counter, now: Counter)
    ensures RawDelta(before, now) == 0 <==> now == before || (before == MaxCount && now == 0)
  {
  }

  /** `count * unit`, written as repeated addition so that sums of scaled counts stay
      linear for the solver; `ScaledIsProduct` ties it to the product. */
  function Scaled(count: nat, unit: real): (r: real)
  {
    if count == 0 then 0.0 else Scaled(count - 1, unit) + unit
  }

  lemma {:induction false} ScaledIsProduct(count: nat, unit: real)
    ensures Scaled(count, unit) == count as real * unit
  {
    if count > 0 {
      ScaledIsProduct(count - 1, unit);
      assert (count - 1) as real * unit + unit == count as real * unit;
    }
  }

  /** Scaling distributes over the sum of two counts. */
  lemma {:induction false} ScaleAdd(a: nat, b: nat, unit: real)
    ensures Scaled(a + b, unit) == Scaled(a, unit) + Scaled(b, unit)
    decreases b
  {
    if b > 0 {
      ScaleAdd(a, b - 1, unit);
    }
  }

  /** Scaling by a non-negative unit keeps the order of counts. */
  lemma {:induction false} ScaleMonotone(a: nat, b: nat, unit: real)
    requires a <= b && unit >= 0.0
    ensures 0.0 <= Scaled(a, unit) <= Scaled(b, unit)
    decreases b
  {
    if a < b {
      ScaleMonotone(a, b - 1, unit);
    } else if a > 0 {
      ScaleMonotone(a - 1, a - 1, unit);
    }
  }

  /** The joules drawn between two snapshots: each raw delta times the energy unit. */
  function SampleOf(unit: real, before: Snapshot, now: Snapshot): (x: EnergySample)
    ensures x.pkg == RawDelta(before.pkg, now.pkg) as real * unit
    ensures x.dram == RawDelta(before.dram, now.dram) as real * unit
  {
    ScaledIsProduct(RawDelta(before.pkg, now.pkg), unit);
    ScaledIsProduct(RawDelta(before.dram, now.dram), unit);
    EnergySample(Scaled(RawDelta(before.pkg, now.pkg), unit),
                 Scaled(RawDelta(before.dram, now.dram), unit))
  }

  /** A sample is non-negative and at most `0xFFFFFFFF` units in either domain. */
  lemma SampleBounds(unit: real, before: Snapshot, now: Snapshot, d: Domain)
    requires unit >= 0.0
    ensures 0.0 <= Energy(SampleOf(unit, before, now), d) <= MaxCount as real * unit
  {
    var raw := RawDelta(Count(before, d), Count(now, d));
    assert Energy(SampleOf(unit, before, now), d) == Scaled(raw, unit);
    ScaleMonotone(raw, MaxCount, unit);
    ScaledIsProduct(MaxCount, unit);
  }

  /** `sum(sample[i] for sample in samples)`, added left to right. */
  function Total(samples: seq<EnergySample>, d: Domain): (r: real)
    ensures (forall i | 0 <= i < |samples| :: Energy(samples[i], d) >= 0.0) ==> r >= 0.0
  {
    if |samples| == 0 then 0.0
    else Total(samples[..|samples| - 1], d) + Energy(samples[|samples| - 1], d)
  }

  lemma TotalAppend(samples: seq<EnergySample>, x: EnergySample, d: Domain)
    ensures Total(samples + [x], d) == Total(samples, d) + Energy(x, d)
  {
    assert (samples + [x])[..|samples|] == samples;
  }

  /** Three package samples of 1.0, 2.0 and 1.5 joules total 4.5 joules. */
  lemma TotalExample()
    ensures Total([EnergySample(1.0, 0.0), EnergySample(2.0, 0.0), EnergySample(1.5, 0.0)],
                  Package) == 4.5
  {
    var s := [EnergySample(1.0, 0.0), EnergySample(2.0, 0.0), EnergySample(1.5, 0.0)];
    assert s[..2][..1][..0] == [];
    assert Total(s[..2][..1], Package) == 1.0;
    assert Total(s[..2], Package) == 3.0;
  }

  /** The baseline after sampling `readings` in turn from `base`. */
  function Last(base: Snapshot, readings: seq<Reading>): (r: Snapshot)
  {
    if |readings| == 0 then base else Snap(readings[|readings| - 1])
  }

  /** The samples taken at `readings` in turn, each against the previous reading, the first
      against `base`. */
  function Chain(unit: real, base: Snapshot, readings: seq<Reading>): (samples: seq<EnergySample>)
    ensures |samples| == |readings|
  {
    if |readings| == 0 then []
    else
      var prior := readings[..|readings| - 1];
      Chain(unit, base, prior) + [SampleOf(unit, Last(base, prior), Snap(readings[|readings| - 1]))]
  }

  lemma ChainAppend(unit: real, base: Snapshot, readings: seq<Reading>, r: Reading)
    ensures Chain(unit, base, readings + [r])
         == Chain(unit, base, readings) + [SampleOf(unit, Last(base, readings), Snap(r))]
    ensures Last(base, readings + [r]) == Snap(r)
  {
    assert (readings + [r])[..|readings|] == readings;
  }

  /** The sum of the raw deltas along a chain of readings. */
  function RawTotal(base: Snapshot, readings: seq<Reading>, d: Domain): (r: nat)
  {
    if |readings| == 0 then 0
    else
      var prior := readings[..|readings| - 1];
      RawTotal(base, prior, d)
        + RawDelta(Count(Last(base, prior), d), Count(Snap(readings[|readings| - 1]), d))
  }

  /** The number of steps along a chain where the reading went down. */
  function Wraps(base: Snapshot, readings: seq<Reading>, d: Domain): (r: nat)
  {
    if |readings| == 0 then 0
    else
      var prior := readings[..|readings| - 1];
      Wraps(base, prior, d)
        + (if Count(Snap(readings[|readings| - 1]), d) < Count(Last(base, prior), d) then 1 else 0)
  }

  /** The energy a chain of samples sums to is the unit times the summed raw deltas. */
  lemma {:induction false} ChainTotal(unit: real, base: Snapshot, readings: seq<Reading>, d: Domain)
    ensures Total(Chain(unit, base, readings), d) == Scaled(RawTotal(base, readings, d), unit)
  {
    if |readings| > 0 {
      var prior := readings[..|readings| - 1];
      var r := readings[|readings| - 1];
      var x := SampleOf(unit, Last(base, prior), Snap(r));
      var raw := RawDelta(Count(Last(base, prior), d), Count(Snap(r), d));
      assert Chain(unit, base, readings) == Chain(unit, base, prior) + [x];
      TotalAppend(Chain(unit, base, prior), x, d);
      assert Energy(x, d) == Scaled(raw, unit);
      assert RawTotal(base, readings, d) == RawTotal(base, prior, d) + raw;
      ChainTotal(unit, base, prior, d);
      ScaleAdd(RawTotal(base, prior, d), raw, unit);
    }
  }

  /** Because each reading becomes the next baseline, the raw deltas telescope: they sum to
      the last reading minus the first, plus 0xFFFFFFFF for every wrap. */
  lemma {:induction false} RawTotalTelescopes(base: Snapshot, readings: seq<Reading>, d: Domain)
    ensures RawTotal(base, readings, d) + Count(base, d)
         == Count(Last(base, readings), d) + MaxCount * Wraps(base, readings, d)
  {
    if |readings| > 0 {
      RawTotalTelescopes(base, readings[..|readings| - 1], d);
    }
  }

  /** With no wrap along the chain, the energy of all samples is the unit times the last
      reading minus the baseline. */
  lemma ChainWithoutWraps(unit: real, base: Snapshot, readings: seq<Reading>, d: Domain)
    requires Wraps(base, readings, d) == 0
    ensures Count(base, d) <= Count(Last(base, readings), d)
    ensures Total(Chain(unit, base, readings), d)
         == Scaled(Count(Last(base, readings), d) - Count(base, d), unit)
  {
    ChainTotal(unit, base, readings, d);
    RawTotalTelescopes(base, readings, d);
  }

  /** The samples of a chain never sum to a negative energy. */
  lemma ChainNonNegative(unit: real, base: Snapshot, readings: seq<Reading>, d: Domain)
    requires unit >= 0.0
    ensures Total(Chain(unit, base, readings), d) >= 0.0
  {
    ChainTotal(unit, base, readings, d);
    ScaleMonotone(0, RawTotal(base, readings, d), unit);
  }
}
