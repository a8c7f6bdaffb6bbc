/** One energy-measurement session (`EnergyMeasurement`): it reads the energy unit once,
    takes a baseline snapshot at `start`, appends one sample per `sample` call with the
    baseline moved to the new snapshot, and sums the samples at `stop`. `MonitorProcess` runs
    one external process to completion, sampling once per poll that finds it still running.

    Register reads, the clock and the process are not executed here: each method receives
    the values they would have produced (a `Reading`, a clock value, a `Run`). */
module EnergySession {
  import opened Wrappers
  import opened EnergyRegisters
  import opened CounterSampler

  /** What `stop` returns: the elapsed time and the summed energy per domain and in total. */
  datatype Measurement = Measurement(duration: real, pkgEnergy: real, dramEnergy: real,
                                     totalEnergy: real)

  /** What `monitor_process` returns: the measurement, the command, and the process's exit
      status and decoded output. */
  datatype MonitorResult = MonitorResult(measurement: Measurement, command: string,
                                         returnCode: int, stdout: string, stderr: string)

  /** What the outside world does during one monitored run: the clock at `start` and at
      `stop`, the energy reads at `start`, at each poll that finds the process running and
      at `stop`, and the process's exit status and output. */
  datatype Run = Run(startClock: real, baseline: Reading, polls: seq<Reading>, final: Reading,
                     stopClock: real, returnCode: int, stdout: string, stderr: string)

  /** The record `stop` builds from the samples and the two clock values. */
  function Summary(samples: seq<EnergySample>, startClock: real, stopClock: real): (m: Measurement)
    ensures m.duration == stopClock - startClock
    ensures m.totalEnergy == m.pkgEnergy + m.dramEnergy
    ensures (forall i | 0 <= i < |samples| :: samples[i].pkg >= 0.0 && samples[i].dram >= 0.0)
            ==> 0.0 <= m.pkgEnergy && 0.0 <= m.dramEnergy
  {
    var pkg := Total(samples, Package);
    var dram := Total(samples, Dram);
    Measurement(stopClock - startClock, pkg, dram, pkg + dram)
  }

  /** The samples one monitored run collects: one per running poll, then the final one. */
  function RunSamples(unit: real, run: Run): (samples: seq<EnergySample>)
    ensures |samples| == |run.polls| + 1
  {
    Chain(unit, Snap(run.baseline), run.polls + [run.final])
  }

  /** The result of monitoring one run with a session whose energy unit is `unit`. */
  function Outcome(unit: real, command: string, run: Run): (r: MonitorResult)
    ensures r.command == command && r.returnCode == run.returnCode
    ensures r.stdout == run.stdout && r.stderr == run.stderr
    ensures r.measurement.duration == run.stopClock - run.startClock
    ensures r.measurement.totalEnergy == r.measurement.pkgEnergy + r.measurement.dramEnergy
  {
    MonitorResult(Summary(RunSamples(unit, run), run.startClock, run.stopClock),
                  command, run.returnCode, run.stdout, run.stderr)
  }

  /** No run reports negative energy, and the total is the sum of the two domains. */
  lemma OutcomeNonNegative(unit: real, command: string, run: Run)
    requires unit >= 0.0
    ensures var m := Outcome(unit, command, run).measurement;
      0.0 <= m.pkgEnergy && 0.0 <= m.dramEnergy
      && m.totalEnergy == m.pkgEnergy + m.dramEnergy && m.totalEnergy >= 0.0
  {
    var base := Snap(run.baseline);
    ChainNonNegative(unit, base, run.polls + [run.final], Package);
    ChainNonNegative(unit, base, run.polls + [run.final], Dram);
  }

  /** When no package reading of the run went below its predecessor, the package energy is
      the unit times the final reading minus the baseline: the baselines chain, so the
      intermediate polls cancel out. */
  lemma OutcomeWithoutWraps(unit: real, command: string, run: Run)
    requires Wraps(Snap(run.baseline), run.polls + [run.final], Package) == 0
    ensures Snap(run.baseline).pkg <= Snap(run.final).pkg
    ensures Outcome(unit, command, run).measurement.pkgEnergy
         == Scaled(Snap(run.final).pkg - Snap(run.baseline).pkg, unit)
  {
    var readings := run.polls + [run.final];
    assert readings[|readings| - 1] == run.final;
    ChainWithoutWraps(unit, Snap(run.baseline), readings, Package);
  }

  class EnergyMeasurement {
    var cpu: int
    var sampleRate: real
    /** The samples since `start`, oldest first. */
    var samples: seq<EnergySample>
    /** Joules per count, read once when the session is created. */
    var energyUnit: real
    var startTime: Option<real>
    var endTime: Option<real>
    var totalEnergy: real
    /** `pkg_before, dram_before`: the snapshot the next sample is measured against. */
    var before: Option<Snapshot>

    /** `__init__`: the fields start empty and the energy unit comes from the power-unit
        register `powerUnit`. */
    constructor (cpu: int, sampleRate: real, powerUnit: bv64)
      ensures this.cpu == cpu && this.sampleRate == sampleRate
      ensures energyUnit == EnergyUnit(powerUnit) && 0.0 < energyUnit <= 1.0
      ensures samples == [] && startTime == None && endTime == None
      ensures totalEnergy == 0.0 && before == None
    {
      this.cpu := cpu;
      this.sampleRate := sampleRate;
      samples := [];
      energyUnit := EnergyUnit(powerUnit);
      startTime := None;
      endTime := None;
      totalEnergy := 0.0;
      before := None;
    }

    /** `start`: record the clock and the baseline snapshot and empty the samples. */
    method Start(clock: real, reading: Reading)
      modifies this
      ensures startTime == Some(clock) && before == Some(Snap(reading)) && samples == []
      ensures cpu == old(cpu) && sampleRate == old(sampleRate) && energyUnit == old(energyUnit)
      ensures endTime == old(endTime) && totalEnergy == old(totalEnergy)
    {
      startTime := Some(clock);
      before := Some(Snap(reading));
      samples := [];
    }

    /** `sample`: append the energy since the baseline, then make the new snapshot the
        baseline. Called only after `start` has set the baseline. */
    method Sample(reading: Reading)
      requires before.Some?
      modifies this
      ensures samples == old(samples) + [SampleOf(energyUnit, old(before.value), Snap(reading))]
      ensures before == Some(Snap(reading))
      ensures cpu == old(cpu) && sampleRate == old(sampleRate) && energyUnit == old(energyUnit)
      ensures startTime == old(startTime) && endTime == old(endTime)
      ensures totalEnergy == old(totalEnergy)
    {
      var now := Snap(reading);
      var pkgEnergy: real;
      var dramEnergy: real;
      if now.pkg < before.value.pkg {
        pkgEnergy := Scaled(MaxCount - before.value.pkg + now.pkg, energyUnit);
      } else {
        pkgEnergy := Scaled(now.pkg - before.value.pkg, energyUnit);
      }
      if now.dram < before.value.dram {
        dramEnergy := Scaled(MaxCount - before.value.dram + now.dram, energyUnit);
      } else {
        dramEnergy := Scaled(now.dram - before.value.dram, energyUnit);
      }
      samples := samples + [EnergySample(pkgEnergy, dramEnergy)];
      before := Some(now);
    }

    /** `stop`: take the final sample, record the clock, and sum the samples per domain. */
    method Stop(clock: real, reading: Reading) returns (m: Measurement)
      requires before.Some? && startTime.Some?
      modifies this
      ensures samples == old(samples) + [SampleOf(energyUnit, old(before.value), Snap(reading))]
      ensures m == Summary(samples, old(startTime.value), clock)
      ensures totalEnergy == m.totalEnergy && endTime == Some(clock)
      ensures before == Some(Snap(reading)) && startTime == old(startTime)
      ensures cpu == old(cpu) && sampleRate == old(sampleRate) && energyUnit == old(energyUnit)
    {
      endTime := Some(clock);
      Sample(reading);
      var pkgTotal := Total(samples, Package);
      var dramTotal := Total(samples, Dram);
      totalEnergy := pkgTotal + dramTotal;
      m := Measurement(clock - startTime.value, pkgTotal, dramTotal, totalEnergy);
    }

    /** `monitor_process`: start, sample once for every poll that finds the process still
        running, then stop, and attach the command and the process's exit status and
        output. The samples are exactly one per running poll plus the final one. */
    method MonitorProcess(command: string, run: Run) returns (r: MonitorResult)
      modifies this
      ensures r == Outcome(energyUnit, command, run)
      ensures samples == RunSamples(energyUnit, run) && |samples| == |run.polls| + 1
      ensures r.returnCode == run.returnCode && r.stdout == run.stdout && r.stderr == run.stderr
      ensures startTime == Some(run.startClock) && endTime == Some(run.stopClock)
      ensures before == Some(Snap(run.final)) && totalEnergy == r.measurement.totalEnergy
      ensures cpu == old(cpu) && sampleRate == old(sampleRate) && energyUnit == old(energyUnit)
    {
      Start(run.startClock, run.baseline);
      ghost var base := Snap(run.baseline);
      var i := 0;
      while i < |run.polls|
        invariant 0 <= i <= |run.polls|
        invariant samples == Chain(energyUnit, base, run.polls[..i])
        invariant before == Some(Last(base, run.polls[..i]))
        invariant startTime == Some(run.startClock)
        invariant cpu == old(cpu) && sampleRate == old(sampleRate)
        invariant energyUnit == old(energyUnit)
      {
        ChainAppend(energyUnit, base, run.polls[..i], run.polls[i]);
        assert run.polls[..i + 1] == run.polls[..i] + [run.polls[i]];
        Sample(run.polls[i]);
        i := i + 1;
      }
      assert run.polls[..i] == run.polls;
      ChainAppend(energyUnit, base, run.polls, run.final);
      var m := Stop(run.stopClock, run.final);
      r := MonitorResult(m, command, run.returnCode, run.stdout, run.stderr);
    }
  }
}
