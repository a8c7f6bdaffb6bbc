/** `run_benchmark`: the shell command for a benchmark in one language (with the Java class
    name derived from the hyphenated benchmark name), the repeated monitored runs, and their
    reduction to means and population variances. */
module RunAggregator {
  import opened Wrappers
  import opened CounterSampler
  import opened Statistics
  import opened EnergySession

  /** The languages the harness knows, in the order of its language list. */
  const Languages: seq<string> := ["c", "python", "javascript", "java", "rust"]

  /** The directory that holds one benchmark's sources. */
  function BenchmarkDir(benchmark: string): (r: string)
  {
    "cd /home/ubuntu/benchmarks/" + benchmark + " && "
  }

  /** The build-and-run steps of the command for `benchmark` in `language`, between the
      change of directory and the parameters; `None` for a language the harness does not
      know. */
  function Steps(benchmark: string, language: string): (steps: Option<string>)
    ensures steps.None? <==> language !in Languages
  {
    if language == "c" then
      Some("gcc -O3 -o " + benchmark + " " + benchmark + ".c && ./" + benchmark + " ")
    else if language == "python" then
      Some("python3 " + benchmark + ".py ")
    else if language == "javascript" then
      Some("node " + benchmark + ".js ")
    else if language == "java" then
      var className := JavaClassName(benchmark);
      Some("javac " + className + ".java && java " + className + " ")
    else if language == "rust" then
      Some("rustc -O " + benchmark + ".rs && ./" + benchmark + " ")
    else
      None
  }

  /** The shell command that builds and runs `benchmark` in `language` with `params`, or
      `None` for a language the harness does not know. */
  function Command(benchmark: string, language: string, params: string): (cmd: Option<string>)
    ensures cmd.None? <==> language !in Languages
  {
    match Steps(benchmark, language)
    case None => None
    case Some(steps) => Some(BenchmarkDir(benchmark) + steps + params)
  }

  /** Every known language's command first enters the benchmark's directory and ends with
      the benchmark's parameters. */
  lemma CommandLayout(benchmark: string, language: string, params: string)
    requires language in Languages
    ensures var cmd := Command(benchmark, language, params).value;
      |BenchmarkDir(benchmark)| + |params| <= |cmd|
      && cmd[..|BenchmarkDir(benchmark)|] == BenchmarkDir(benchmark)
      && cmd[|cmd| - |params|..] == params
  {
    var dir := BenchmarkDir(benchmark);
    var cmd := dir + Steps(benchmark, language).value + params;
    assert cmd[..|dir|] == dir;
    assert cmd[|cmd| - |params|..] == params;
  }

  /** `s.split(sep)`: the pieces between separators, empty ones included. */
  function Split(s: string, sep: char): (pieces: seq<string>)
    ensures |pieces| >= 1
    ensures forall k :: 0 <= k < |pieces| ==> sep !in pieces[k]
  {
    if |s| == 0 then [""]
    else
      var rest := Split(s[1..], sep);
      if s[0] == sep then [""] + rest
      else [[s[0]] + rest[0]] + rest[1..]
  }

  /** `sep.join(pieces)`. */
  function Join(pieces: seq<string>, sep: char): (r: string)
    requires |pieces| >= 1
  {
    if |pieces| == 1 then pieces[0] else pieces[0] + [sep] + Join(pieces[1..], sep)
  }

  /** Joining the pieces of a split with the same separator gives the string back. */
  lemma {:induction false} JoinSplit(s: string, sep: char)
    ensures Join(Split(s, sep), sep) == s
  {
    if |s| > 0 {
      var rest := Split(s[1..], sep);
      JoinSplit(s[1..], sep);
      if s[0] == sep {
        assert Split(s, sep)[1..] == rest;
      } else {
        var pieces := Split(s, sep);
        assert pieces[1..] == rest[1..];
        if |rest| == 1 {
          assert Join(pieces, sep) == [s[0]] + rest[0];
        } else {
          assert Join(rest, sep) == rest[0] + [sep] + Join(rest[1..], sep);
          assert Join(pieces, sep) == [s[0]] + rest[0] + [sep] + Join(rest[1..], sep);
        }
        assert s == [s[0]] + s[1..];
      }
    }
  }

  /** The number of occurrences of `c` in `s`. */
  function Occurrences(s: string, c: char): (r: nat)
  {
    if |s| == 0 then 0 else (if s[0] == c then 1 else 0) + Occurrences(s[1..], c)
  }

  /** Every separator ends one piece: there is one piece more than separators. */
  lemma {:induction false} SplitCount(s: string, sep: char)
    ensures |Split(s, sep)| == Occurrences(s, sep) + 1
  {
    if |s| > 0 {
      SplitCount(s[1..], sep);
    }
  }

  function Upper(c: char): (r: char)
  {
    if 'a' <= c <= 'z' then (c as int - 32) as char else c
  }

  function Lower(c: char): (r: char)
  {
    if 'A' <= c <= 'Z' then (c as int + 32) as char else c
  }

  function LowerAll(s: string): (r: string)
    ensures |r| == |s|
    ensures forall k :: 0 <= k < |s| ==> r[k] == Lower(s[k])
  {
    if |s| == 0 then "" else [Lower(s[0])] + LowerAll(s[1..])
  }

  /** `word.capitalize()` on ASCII letters: the first character upper case, the rest lower
      case. */
  function Capitalize(word: string): (r: string)
    ensures |r| == |word|
    ensures |word| > 0 ==> r[0] == Upper(word[0])
    ensures forall k :: 0 < k < |word| ==> r[k] == Lower(word[k])
  {
    if |word| == 0 then "" else [Upper(word[0])] + LowerAll(word[1..])
  }

  /** `''.join(word.capitalize() for word in words)`. */
  function CapitalizeAll(words: seq<string>): (r: string)
  {
    if |words| == 0 then "" else Capitalize(words[0]) + CapitalizeAll(words[1..])
  }

  /** The Java class of a benchmark: its hyphen-separated words, capitalized and joined.
      It is the benchmark name with its hyphens dropped: no hyphen is left, and it is
      exactly one character shorter per hyphen. */
  function JavaClassName(benchmark: string): (name: string)
    ensures '-' !in name
    ensures |name| == |benchmark| - Occurrences(benchmark, '-')
  {
    CapitalizeAllShape(Split(benchmark, '-'));
    SplitLengths(benchmark, '-');
    CapitalizeAll(Split(benchmark, '-'))
  }

  /** Capitalizing never lengthens a word or introduces a hyphen. */
  lemma {:induction false} CapitalizeAllShape(words: seq<string>)
    requires forall k :: 0 <= k < |words| ==> '-' !in words[k]
    ensures '-' !in CapitalizeAll(words)
    ensures |CapitalizeAll(words)| == SumLengths(words)
  {
    if |words| > 0 {
      CapitalizeAllShape(words[1..]);
      var w := words[0];
      var c := Capitalize(w);
      forall k | 0 <= k < |w|
        ensures c[k] != '-'
      {
        assert w[k] != '-';
      }
    }
  }

  function SumLengths(words: seq<string>): (r: nat)
  {
    if |words| == 0 then 0 else |words[0]| + SumLengths(words[1..])
  }

  /** A split loses exactly the separators. */
  lemma {:induction false} SplitLengths(s: string, sep: char)
    ensures SumLengths(Split(s, sep)) + Occurrences(s, sep) == |s|
  {
    if |s| > 0 {
      SplitLengths(s[1..], sep);
      var rest := Split(s[1..], sep);
      if s[0] != sep {
        var pieces := Split(s, sep);
        assert pieces[1..] == rest[1..];
        assert SumLengths(rest) == |rest[0]| + SumLengths(rest[1..]);
      }
    }
  }

  /** A string without the separator splits into itself alone. */
  lemma {:induction false} SplitWithoutSeparator(s: string, sep: char)
    requires sep !in s
    ensures Split(s, sep) == [s]
  {
    if |s| > 0 {
      SplitWithoutSeparator(s[1..], sep);
      assert s == [s[0]] + s[1..];
    }
  }

  /** A two-word benchmark name gives its two words capitalized, without the hyphen. */
  lemma JavaClassNameOfTwoWords(first: string, second: string)
    requires '-' !in first && '-' !in second
    ensures JavaClassName(first + "-" + second) == Capitalize(first) + Capitalize(second)
  {
    var tail := "-" + second;
    SplitWithoutSeparator(second, '-');
    assert tail[1..] == second;
    assert Split(tail, '-') == ["", second];
    SplitPrefix(first, tail, '-');
    assert first + "-" + second == first + tail;
    assert first + "" == first;
    assert Split(first + tail, '-') == [first, second];
    assert CapitalizeAll([first, second][1..]) == Capitalize(second) + CapitalizeAll([]);
  }

  /** "n-body" is compiled as class `NBody`. */
  lemma JavaClassNameOfNBody()
    ensures JavaClassName("n-body") == "NBody"
  {
  }

  /** A separator-free prefix joins the first piece of what follows it. */
  lemma {:induction false} SplitPrefix(word: string, rest: string, sep: char)
    requires sep !in word
    ensures var pieces := Split(rest, sep);
      Split(word + rest, sep) == [word + pieces[0]] + pieces[1..]
  {
    var pieces := Split(rest, sep);
    if |word| == 0 {
      assert word + rest == rest;
      assert word + pieces[0] == pieces[0];
      assert pieces == [pieces[0]] + pieces[1..];
    } else {
      var tail := Split(word[1..] + rest, sep);
      assert tail == [word[1..] + pieces[0]] + pieces[1..] by {
        SplitPrefix(word[1..], rest, sep);
      }
      assert Split(word + rest, sep) == [[word[0]] + tail[0]] + tail[1..] by {
        assert (word + rest)[1..] == word[1..] + rest;
        assert (word + rest)[0] == word[0] != sep;
      }
      assert [word[0]] + (word[1..] + pieces[0]) == word + pieces[0];
    }
  }

  /** The reduction of the runs, as `run_benchmark` builds it; the standard deviations are
      kept squared (see `Variance`). */
  datatype Aggregate = Aggregate(
    benchmark: string, language: string, params: string, iterations: int,
    avgDuration: Stat, avgPkgEnergy: Stat, avgDramEnergy: Stat, avgTotalEnergy: Stat,
    varDuration: Stat, varTotalEnergy: Stat)

  function Durations(results: seq<MonitorResult>): (xs: seq<real>)
    ensures |xs| == |results|
  {
    seq(|results|, k requires 0 <= k < |results| => results[k].measurement.duration)
  }

  function PkgEnergies(results: seq<MonitorResult>): (xs: seq<real>)
    ensures |xs| == |results|
  {
    seq(|results|, k requires 0 <= k < |results| => results[k].measurement.pkgEnergy)
  }

  function DramEnergies(results: seq<MonitorResult>): (xs: seq<real>)
    ensures |xs| == |results|
  {
    seq(|results|, k requires 0 <= k < |results| => results[k].measurement.dramEnergy)
  }

  function TotalEnergies(results: seq<MonitorResult>): (xs: seq<real>)
    ensures |xs| == |results|
  {
    seq(|results|, k requires 0 <= k < |results| => results[k].measurement.totalEnergy)
  }

  /** The aggregate record built from the collected results. */
  function Reduce(benchmark: string, language: string, params: string, iterations: int,
                  results: seq<MonitorResult>): (r: Aggregate)
  {
    Aggregate(benchmark, language, params, iterations,
              Mean(Durations(results)), Mean(PkgEnergies(results)),
              Mean(DramEnergies(results)), Mean(TotalEnergies(results)),
              Variance(Durations(results)), Variance(TotalEnergies(results)))
  }

  /** What one iteration of the loop sees: the power-unit register read by the fresh
      session and the run it monitors. */
  datatype Iteration = Iteration(powerUnit: bv64, run: Run)

  /** How many times `range(iterations)` runs. */
  function Repeats(iterations: int): (r: nat)
  {
    if iterations < 0 then 0 else iterations
  }

  /** The results of the iterations, each monitored by a fresh session. */
  function Outcomes(command: string, env: seq<Iteration>): (results: seq<MonitorResult>)
    ensures |results| == |env|
  {
    seq(|env|, k requires 0 <= k < |env| =>
      Outcome(EnergyRegisters.EnergyUnit(env[k].powerUnit), command, env[k].run))
  }

  /** `run_benchmark`: `None` for an unknown language; otherwise one fresh session per
      iteration, each monitoring the command once, and the means and variances over
      exactly those results. */
  method RunBenchmark(benchmark: string, language: string, params: string, iterations: int,
                      env: seq<Iteration>)
      returns (r: Option<Aggregate>)
    requires |env| == Repeats(iterations)
    ensures r.None? <==> language !in Languages
    ensures r.Some? ==>
      r.value == Reduce(benchmark, language, params, iterations,
                        Outcomes(Command(benchmark, language, params).value, env))
  {
    var cmd := Command(benchmark, language, params);
    if cmd.None? {
      return None;
    }
    var results: seq<MonitorResult> := [];
    for i := 0 to Repeats(iterations)
      invariant results == Outcomes(cmd.value, env[..i])
    {
      var measurement := new EnergyMeasurement(0, 1.0, env[i].powerUnit);
      var result := measurement.MonitorProcess(cmd.value, env[i].run);
      results := results + [result];
    }
    assert env[..|env|] == env;
    r := Some(Reduce(benchmark, language, params, iterations, results));
  }

  /** The average total energy of the runs is non-negative; with no iteration it is
      `NaN`. */
  lemma AverageEnergyBounds(command: string, env: seq<Iteration>)
    ensures |env| == 0 ==> Mean(TotalEnergies(Outcomes(command, env))) == NaN
    ensures |env| > 0 ==> Mean(TotalEnergies(Outcomes(command, env))).value >= 0.0
  {
    var results := Outcomes(command, env);
    var totals := TotalEnergies(results);
    if |env| > 0 {
      var hi := Largest(totals);
      forall k | 0 <= k < |totals|
        ensures 0.0 <= totals[k] <= hi
      {
        OutcomeNonNegative(EnergyRegisters.EnergyUnit(env[k].powerUnit), command, env[k].run);
      }
      MeanBounds(totals, 0.0, hi);
    }
  }

  function Largest(xs: seq<real>): (m: real)
    requires |xs| > 0
    ensures forall k :: 0 <= k < |xs| ==> xs[k] <= m
  {
    if |xs| == 1 then xs[0]
    else
      var rest := Largest(xs[1..]);
      assert forall k :: 1 <= k < |xs| ==> xs[k] == xs[1..][k - 1];
      if xs[0] > rest then xs[0] else rest
  }
}
