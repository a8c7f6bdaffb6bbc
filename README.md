# Energy-measurement harness and benchmark kernels, in Dafny

This project models three parts of a repository that compares the energy use of programming
languages. Each part is modelled and proved in Dafny.

- **The measurement harness** (`scripts/measure_energy.py`):
  - It reads the Energy Status Units field (bits 12:8) of the RAPL power-unit register and turns it into a scale of `0.5 ** exp` joules per count.
  - It keeps the low 32 bits of the package and DRAM energy-status registers.
  - It turns two readings into a sample of joules, with an explicit branch for a counter that went down.
  - A session object (`EnergyMeasurement`) does `start`, `sample` and `stop`.
  - `monitor_process` samples once per poll that finds the process running.
  - `run_benchmark` builds the shell command for a language, including the Java class name. It then runs a fresh session per iteration and reduces the results to means and population variances.
- **binary-trees** (C, Rust, Java, JavaScript and Python versions): the tree builder, the checker and the depth schedule of `main`.
- **mandelbrot** (Java, Rust, JavaScript and Python versions):
  - The escape loop, over exact reals.
  - The bit packing of each row into the raw raster of a Netpbm PBM `P4` image.

Modules, one per file:

| module | file | what it holds |
|---|---|---|
| `Wrappers` | `wrappers.dfy` | `Option` |
| `Powers` | `powers.dfy` | `Pow2` and its laws |
| `EnergyRegisters` | `energy_registers.dfy` | the unit exponent, the energy unit, the low-word mask |
| `CounterSampler` | `counter_sampler.dfy` | raw deltas, samples, chains of samples and their sums |
| `Statistics` | `statistics.dfy` | mean and population variance, `NaN` on an empty list |
| `EnergySession` | `energy_session.dfy` | the `EnergyMeasurement` class and `monitor_process` |
| `RunAggregator` | `run_aggregator.dfy` | command dispatch, Java class names, `run_benchmark` |
| `BinaryTrees` | `binary_trees.dfy` | nodes, `make_tree`, `check_tree`, Rust's `check` |
| `BinaryTreesMain` | `binary_trees_main.dfy` | the `main` schedule of every version |
| `MandelbrotEscape` | `mandelbrot_escape.dfy` | the escape loops (test-then-step and step-then-test) |
| `PbmRaster` | `pbm_raster.dfy` | the PBM raster layout and its reader's view |
| `MandelbrotPack` | `mandelbrot_pack.dfy` | the two packers, the image loops and the buffer lengths |

How the parts are modelled:

- **Outside inputs.** Register reads, clock values and process polls are inputs:
  - a `Reading` per energy read;
  - a `Run` per monitored process, holding the clock values, the baseline read, one read per running poll, the final read, the exit status and the output.
- **The session.** `EnergyMeasurement` is a class whose methods update its fields in place.
  - `MonitorProcess` is a `while` loop over the polls.
  - Each method is proved against the specification functions `SampleOf`, `Chain`, `Total`, `Summary` and `Outcome`.
  - The lemmas in `CounterSampler` state what those functions promise.
- **The mandelbrot packers.** The Java, Rust and JavaScript loops fill an `array<Byte>` at `dataIndex`. The Python loop appends to a sequence. Both are proved to produce `Raster(Rows(size))`, the PBM raster of the image, for a non-negative `size`. The raster's layout is proved bit by bit, and reading it back gives the image (`UnpackRaster`).

## Model

| member | source | states |
|---|---|---|
| EnergyRegisters.UnitExponent | scripts/measure_energy.py:61 | the exponent `(reg & 0x1F00) >> 8` lies in `[0, 31]` |
| EnergyRegisters.UnitExponentOfField | scripts/measure_energy.py:61 | a 5-bit field placed at bits 12:8 is read back unchanged |
| EnergyRegisters.UnitExponentFieldOnly | scripts/measure_energy.py:61 | two registers give the same exponent iff they agree on bits 12:8 |
| EnergyRegisters.HalfPow | scripts/measure_energy.py:62 | `0.5 ** e` lies in `(0, 1]` |
| EnergyRegisters.HalfPowInverse | scripts/measure_energy.py:62 | `0.5 ** e * 2 ** e == 1` |
| EnergyRegisters.HalfPowDecreasing | scripts/measure_energy.py:62 | a larger exponent gives a smaller or equal unit |
| EnergyRegisters.EnergyUnit | scripts/measure_energy.py:58-62 | the unit lies in `(0, 1]` and is the reciprocal of `2 ** exponent` |
| EnergyRegisters.EnergyUnitFloor | scripts/measure_energy.py:58-62 | no register gives a unit below `2 ** -31` joules |
| EnergyRegisters.EnergyUnitOfFourteen | scripts/measure_energy.py:58-62 | register `0xA0E03` has exponent 14 and unit `1/16384` joules |
| EnergyRegisters.LowWord | scripts/measure_energy.py:67-68 | the masked value is at most 0xFFFFFFFF and at most the reading; it equals a reading that already fits in 32 bits and differs from any reading by a multiple of `2 ** 32` |
| EnergyRegisters.LowWordKeepsLow | scripts/measure_energy.py:65-69 | masking keeps a 32-bit reading and drops any high word |
| CounterSampler.RawDelta | scripts/measure_energy.py:83-91 | the raw count between two masked readings lies in `[0, 0xFFFFFFFF]` |
| CounterSampler.RawDeltaVersusModular | scripts/measure_energy.py:83-91 | without a wrap the raw delta is the true advance mod `2 ** 32`; across a wrap it is exactly one count less |
| CounterSampler.RawDeltaZero | scripts/measure_energy.py:83-86 | the delta is zero iff the reading did not move, or it went from `0xFFFFFFFF` to 0 |
| CounterSampler.ScaledIsProduct | scripts/measure_energy.py:84 | the scaled count equals `count * energy_unit` |
| CounterSampler.ScaleAdd | scripts/measure_energy.py:102-103 | scaling distributes over adding counts |
| CounterSampler.ScaleMonotone | scripts/measure_energy.py:84-91 | with a non-negative unit, scaling is non-negative and keeps the order of counts |
| CounterSampler.SampleOf | scripts/measure_energy.py:82-91 | each domain's energy is its raw delta times the energy unit |
| CounterSampler.SampleBounds | scripts/measure_energy.py:82-91 | each sample's energy lies in `[0, 0xFFFFFFFF * unit]` in both domains |
| CounterSampler.Total | scripts/measure_energy.py:102-103 | the sum of non-negative sample energies is non-negative |
| CounterSampler.TotalAppend | scripts/measure_energy.py:102-103 | the sum over one more sample is the old sum plus that sample |
| CounterSampler.TotalExample | scripts/measure_energy.py:102 | samples 1.0, 2.0 and 1.5 sum to 4.5 |
| CounterSampler.Chain | scripts/measure_energy.py:78-94 | sampling a sequence of readings in turn yields one sample per reading |
| CounterSampler.ChainAppend | scripts/measure_energy.py:93-94 | one more reading appends one sample measured against the previous reading, and that reading becomes the baseline |
| CounterSampler.ChainTotal | scripts/measure_energy.py:93-103 | a chain's summed energy is the unit times its summed raw deltas |
| CounterSampler.RawTotalTelescopes | scripts/measure_energy.py:83-94 | because baselines chain, the raw deltas sum to the last reading minus the first, plus `0xFFFFFFFF` per wrap |
| CounterSampler.ChainWithoutWraps | scripts/measure_energy.py:71-94 | with no reading below its predecessor, the summed energy is the unit times (last reading minus baseline) |
| CounterSampler.ChainNonNegative | scripts/measure_energy.py:82-103 | a chain never sums to negative energy |
| Statistics.Mean | scripts/measure_energy.py:179-182 | `np.mean` is `NaN` iff the list is empty; otherwise mean times length is the sum |
| Statistics.SquaredDeviation | scripts/measure_energy.py:183-184 | the summed squared deviation is non-negative |
| Statistics.Variance | scripts/measure_energy.py:183-184 | `np.std ** 2` is `NaN` iff the list is empty; otherwise it is non-negative |
| Statistics.SumBounds | scripts/measure_energy.py:179-182 | values in `[lo, hi]` sum to within `[n * lo, n * hi]` |
| Statistics.MeanBounds | scripts/measure_energy.py:179-182 | the mean of values in `[lo, hi]` lies in `[lo, hi]` |
| Statistics.SquaredDeviationOfEqual | scripts/measure_energy.py:183-184 | values equal to the centre deviate by zero |
| Statistics.ConstantStatistics | scripts/measure_energy.py:179-184 | a constant list has that constant as its mean and variance zero |
| Statistics.MeanVarianceExample | scripts/measure_energy.py:179-184 | 10, 12 and 11 have mean 11 and population variance 2/3 |
| EnergySession.Summary | scripts/measure_energy.py:96-111 | the duration is the clock difference, `total_energy` is package plus DRAM, and non-negative samples give non-negative domain totals |
| EnergySession.Outcome | scripts/measure_energy.py:134-142 | the result carries the command, the exit status and both outputs unchanged, with the duration the clock difference and the total package plus DRAM |
| EnergySession.RunSamples | scripts/measure_energy.py:118-134 | a monitored run collects one sample per running poll plus the final one |
| EnergySession.OutcomeNonNegative | scripts/measure_energy.py:102-110 | the reported package, DRAM and total energies are non-negative, and the total is their sum |
| EnergySession.OutcomeWithoutWraps | scripts/measure_energy.py:118-134 | with no package wrap during a run, the package energy is the unit times (final reading minus baseline) |
| EnergySession.EnergyMeasurement.constructor | scripts/measure_energy.py:25-45 | the fields start empty, and the energy unit comes from the power-unit register |
| EnergySession.EnergyMeasurement.Start | scripts/measure_energy.py:71-76 | records the clock and the baseline snapshot, empties the samples, and changes nothing else |
| EnergySession.EnergyMeasurement.Sample | scripts/measure_energy.py:78-94 | appends exactly the sample against the old baseline, keeps the earlier samples, makes the new snapshot the baseline, and changes nothing else |
| EnergySession.EnergyMeasurement.Stop | scripts/measure_energy.py:96-111 | takes one more sample; the result's totals are the sums over all samples; `total_energy` is package plus DRAM; the duration is the clock difference |
| EnergySession.EnergyMeasurement.MonitorProcess | scripts/measure_energy.py:113-142 | the result is `Outcome` of the run; the samples are exactly `RunSamples`, `polls + 1` of them; the exit status and output are carried through |
| RunAggregator.Steps | scripts/measure_energy.py:149-163 | there are build-and-run steps iff the language is one of c, python, javascript, java or rust |
| RunAggregator.Command | scripts/measure_energy.py:149-163 | there is a command iff the language is supported |
| RunAggregator.CommandLayout | scripts/measure_energy.py:149-160 | every command starts by entering the benchmark's directory and ends with the parameters |
| RunAggregator.Split | scripts/measure_energy.py:157 | `split('-')` yields at least one piece, and no piece contains the separator |
| RunAggregator.JoinSplit | scripts/measure_energy.py:157 | joining the pieces of a split with the separator gives the string back |
| RunAggregator.SplitCount | scripts/measure_energy.py:157 | a split has one piece more than the string has separators |
| RunAggregator.LowerAll | scripts/measure_energy.py:157 | lowers each character in place and keeps the length |
| RunAggregator.Capitalize | scripts/measure_energy.py:157 | `capitalize()` keeps the length, upper-cases the first character and lower-cases the rest |
| RunAggregator.CapitalizeAllShape | scripts/measure_energy.py:157 | joining capitalised hyphen-free words adds no hyphen and keeps the total length |
| RunAggregator.SplitLengths | scripts/measure_energy.py:157 | a split loses exactly the separators |
| RunAggregator.JavaClassName | scripts/measure_energy.py:157 | the class name has no hyphen and is one character shorter than the benchmark name per hyphen |
| RunAggregator.SplitWithoutSeparator | scripts/measure_energy.py:157 | a string without the separator splits into itself |
| RunAggregator.SplitPrefix | scripts/measure_energy.py:157 | a hyphen-free prefix joins the first piece of the split |
| RunAggregator.JavaClassNameOfTwoWords | scripts/measure_energy.py:157 | `a-b` becomes `Capitalize(a) + Capitalize(b)` |
| RunAggregator.JavaClassNameOfNBody | scripts/measure_energy.py:156-158 | `n-body` becomes class `NBody` |
| RunAggregator.Outcomes | scripts/measure_energy.py:166-170 | one result per iteration |
| RunAggregator.RunBenchmark | scripts/measure_energy.py:144-188 | `None` iff the language is unsupported; otherwise the aggregate is the means and variances over exactly one fresh session per iteration, each monitoring the command once |
| RunAggregator.AverageEnergyBounds | scripts/measure_energy.py:179-182 | the average total energy is `NaN` with no iteration and non-negative otherwise |
| BinaryTrees.NewLeaf | benchmarks/binary-trees/binary_trees.rs:15-21 | `Node::new` is a full tree of height 0 whose check is its item; it is the perfect tree of depth 0 iff the item is 0 |
| BinaryTrees.NewWithChildren | benchmarks/binary-trees/binary_trees.rs:23-29 | `Node::new_with_children` is full iff both children are, is one taller than its taller child, and is perfect of depth `d > 0` when both children are perfect of depth `d - 1` |
| BinaryTrees.MakeTree | benchmarks/binary-trees/binary_trees.c:18-32 | `make_tree(d)` is a perfect tree of height `max(d, 0)` with item `d - k` at distance `k` and leaves of item 0; the Rust, Java, JavaScript and Python `make_tree` build the same tree |
| BinaryTrees.PerfectIsFull | benchmarks/binary-trees/binary_trees.c:21-29 | a perfect tree has two children or none at every node, and its height is `h` |
| BinaryTrees.FullIsCheckable | benchmarks/binary-trees/binary_trees.c:34-39 | on such trees the left-only NULL test never dereferences a missing right child |
| BinaryTrees.CheckTree | benchmarks/binary-trees/binary_trees.c:34-39 | on a full tree, the NULL-test-on-the-left `check_tree` returns what Rust's `check` returns; the Java, JavaScript and Python `check_tree` are the same function |
| BinaryTrees.Check | benchmarks/binary-trees/binary_trees.rs:31-37 | Rust's `check` returns a value iff the tree is full, and reaches `unreachable!()` on any other tree |
| BinaryTrees.MakeTreeIsFull | benchmarks/binary-trees/BinaryTrees.java:24-35 | every tree `makeTree` builds has `left == null` iff `right == null`, so `checkTree`'s single test is sound (likewise in the C, JavaScript and Python versions) |
| BinaryTrees.CheckPerfect | benchmarks/binary-trees/binary_trees.c:34-39 | the check of a perfect tree of height `h` is `h` |
| BinaryTrees.CheckMakeTree | benchmarks/binary-trees/binary_trees.c:34-39 | `check_tree(make_tree(d)) == max(d, 0)`; the Java, JavaScript and Python `check_tree` are the same function |
| BinaryTrees.RustCheckMakeTree | benchmarks/binary-trees/binary_trees.rs:31-45 | `make_tree(d).check() == max(d, 0)`, never panicking |
| BinaryTreesMain.MaxDepth | benchmarks/binary-trees/binary_trees.c:52 | `max_depth` is `max(min_depth + 2, n)` |
| BinaryTreesMain.CheckBound | benchmarks/binary-trees/binary_trees.c:66-73 | the largest per-depth check is at `min_depth`, at most `2 ** (max_depth + 2)` |
| BinaryTreesMain.FitsInt32Below | benchmarks/binary-trees/binary_trees.c:66 | `1 << e` fits a signed 32-bit int for `e <= 30` |
| BinaryTreesMain.Run | benchmarks/binary-trees/binary_trees.c:49-85 | the stretch depth is `max_depth + 1`; depths run `4, 6, ...` up to `max_depth`; each has `2 ** (max_depth - depth + 4)` trees and a summed check of iterations times depth; every value fits `int` for `n <= 28`; the Rust and Java `main` follow the same schedule |
| BinaryTreesMain.Int32CheckOverflowsAt29 | benchmarks/binary-trees/binary_trees.c:66-71 | at `n = 29` the depth-4 batch's check is `2 ** 31`, so `n <= 28` is the exact range where the 32-bit sums are exact |
| BinaryTreesMain.RunJs | benchmarks/binary-trees/binary_trees.js:32-60 | the same schedule for `n <= 30`, with every `1 << (maxDepth - depth + minDepth)` a positive 32-bit value; the summed checks are doubles and do not wrap |
| BinaryTreesMain.MakeCheck | benchmarks/binary-trees/binary_trees.py:29-34 | `make_check(depth, iterations)` is `max(iterations, 0) * max(depth, 0)` |
| BinaryTreesMain.RunPy | benchmarks/binary-trees/binary_trees.py:37-51 | the same schedule for any `n` and `min_depth`, with every batch at least `2 ** min_depth` trees |
| MandelbrotEscape.EscapeFrom | benchmarks/mandelbrot/Mandelbrot.java:31-36 | the first escaped iteration from `k` on, or 50: nothing before it escaped |
| MandelbrotEscape.EscapeTest | benchmarks/mandelbrot/Mandelbrot.java:29-36 | the test-then-step loop runs at most 50 times, stops at the first escaped point, and yields the pixel; the Rust `while` and JavaScript `for` loops are the same |
| MandelbrotEscape.EscapeTestPy | benchmarks/mandelbrot/mandelbrot.py:24-31 | the step-then-test loop with `break` yields the same pixel as the test-then-step loop |
| PbmRaster.Acc | benchmarks/mandelbrot/mandelbrot.py:33 | the accumulator of `n` shifted-in bits is below `2 ** n` |
| PbmRaster.RowBytes | benchmarks/mandelbrot/Mandelbrot.java:18-56 | a row packs into `(width + 7) / 8` bytes |
| PbmRaster.PixelByte | benchmarks/mandelbrot/Mandelbrot.java:46 | the byte of pixel `(x, y)` lies inside the buffer |
| PbmRaster.AccZeros | benchmarks/mandelbrot/mandelbrot.py:42 | shifting in `n` zero bits is `bits << n` |
| PbmRaster.ShlBelow | benchmarks/mandelbrot/mandelbrot.py:33-43 | a `b`-bit value shifted by `n` has `b + n` bits |
| PbmRaster.ShlFitsByte | benchmarks/mandelbrot/mandelbrot.py:41-43 | the padded value `bits << (8 - bit_num)` is below 256, so `append` accepts it |
| PbmRaster.ShiftOnce | benchmarks/mandelbrot/Mandelbrot.java:38-43 | with fewer than 8 bits in it, one more shift into a byte loses nothing |
| PbmRaster.PadExact | benchmarks/mandelbrot/Mandelbrot.java:50 | the 8-bit padding shift equals the unbounded one |
| PbmRaster.ShlGrows | benchmarks/mandelbrot/mandelbrot.py:42 | a left shift never makes a value smaller |
| PbmRaster.Shl8Exact | benchmarks/mandelbrot/mandelbrot.rs:55 | an 8-bit shift whose result fits a byte equals the unbounded shift |
| PbmRaster.AccBit | benchmarks/mandelbrot/mandelbrot.py:33 | the `i`-th bit shifted in sits at bit `n - 1 - i` |
| PbmRaster.PackByteBit | benchmarks/mandelbrot/Mandelbrot.java:38-46 | pixel `i` of a group lands on bit `7 - i` of its byte |
| PbmRaster.PackBytePadding | benchmarks/mandelbrot/Mandelbrot.java:49-53 | the unused low bits of a partial byte are zero |
| PbmRaster.RowBytesBit | benchmarks/mandelbrot/mandelbrot.rs:42-53 | pixel `x` is bit `7 - x % 8` of the row's byte `x / 8` |
| PbmRaster.RowBytesFull | benchmarks/mandelbrot/Mandelbrot.java:45-49 | when the width is a multiple of 8, every byte is a full group and no padding happens |
| PbmRaster.RowBytesPadding | benchmarks/mandelbrot/mandelbrot.js:45-50 | a row ending mid-byte has its `8 - width % 8` low bits zero |
| PbmRaster.RasterLength | benchmarks/mandelbrot/Mandelbrot.java:15 | `h` rows of width `w` take `h * ((w + 7) / 8)` bytes |
| PbmRaster.RasterRow | benchmarks/mandelbrot/Mandelbrot.java:18-56 | row `y` occupies bytes `y * ((w + 7) / 8)` up to the next row |
| PbmRaster.RasterPixel | benchmarks/mandelbrot/Mandelbrot.java:38-48 | pixel `(x, y)` is bit `7 - x % 8` of byte `y * ((w + 7) / 8) + x / 8` |
| PbmRaster.Unpack | benchmarks/mandelbrot/Mandelbrot.java:15 | a reader of a buffer of that size sees `height` rows of `width` pixels |
| PbmRaster.UnpackRow | benchmarks/mandelbrot/Mandelbrot.java:18-56 | the reader recovers each packed row |
| PbmRaster.UnpackRaster | benchmarks/mandelbrot/Mandelbrot.java:18-56 | reading a packed raster back gives exactly the image that was packed |
| MandelbrotPack.Row | benchmarks/mandelbrot/Mandelbrot.java:22-41 | a row holds `size` pixels |
| MandelbrotPack.Rows | benchmarks/mandelbrot/Mandelbrot.java:18-22 | an image holds `size` rows of `size` pixels |
| MandelbrotPack.PixelTest | benchmarks/mandelbrot/Mandelbrot.java:23-41 | the point `2x/size - 1.5 + (2y/size - 1) i` and its escape loop give the pixel |
| MandelbrotPack.PixelTestPy | benchmarks/mandelbrot/mandelbrot.py:20-33 | the Python point and escape loop give the same pixel |
| MandelbrotPack.ImagePixel | benchmarks/mandelbrot/Mandelbrot.java:15-48 | the image is `(size + 7) / 8 * size` bytes, and pixel `(x, y)`'s bit is set iff the point stays inside the limit |
| MandelbrotPack.RasterStep | benchmarks/mandelbrot/Mandelbrot.java:18-56 | each row extends the raster by its bytes, which stay inside the buffer |
| MandelbrotPack.ShiftIn | benchmarks/mandelbrot/Mandelbrot.java:38-43 | shifting a pixel into an accumulator below 128 loses nothing and sets the low bit for a pixel inside the set |
| MandelbrotPack.FlushFull | benchmarks/mandelbrot/Mandelbrot.java:45-48 | eight pixels flush as the row's next byte |
| MandelbrotPack.FlushPartial | benchmarks/mandelbrot/Mandelbrot.java:49-53 | the final partial group, shifted by `8 - bitIndex`, is the row's last byte and fits in 8 bits |
| MandelbrotPack.PyShiftKeeps | benchmarks/mandelbrot/mandelbrot.py:33-34 | a pixel that completes no byte keeps the packer invariant |
| MandelbrotPack.PyFlushKeeps | benchmarks/mandelbrot/mandelbrot.py:36-39 | the eighth pixel appends the row's next byte and resets `bits` and `bit_num` |
| MandelbrotPack.PyStep | benchmarks/mandelbrot/mandelbrot.py:33-39 | every pixel keeps the packer invariant |
| MandelbrotPack.PyStart | benchmarks/mandelbrot/mandelbrot.py:16-17 | the invariant holds before the first pixel |
| MandelbrotPack.PackedPyState | benchmarks/mandelbrot/mandelbrot.py:19-39 | after `x` pixels the flushed bytes are the row's first bytes and `bits` holds the `bit_num < 8` pixels since |
| MandelbrotPack.PackedPyBounds | benchmarks/mandelbrot/mandelbrot.py:33-39 | at each pixel start `bits < 2 ** bit_num <= 128`, so every appended value is below 256 |
| MandelbrotPack.PackedPyAcc | benchmarks/mandelbrot/mandelbrot.py:33-34 | `bits < 2 ** bit_num` |
| MandelbrotPack.PackedPyNext | benchmarks/mandelbrot/mandelbrot.py:33-39 | a pixel either appends a byte below 256 and resets, or stays in the accumulator |
| MandelbrotPack.PyFinishes | benchmarks/mandelbrot/mandelbrot.py:41-43 | after the row, the padding completes exactly the row's bytes |
| MandelbrotPack.PyFinishPartial | benchmarks/mandelbrot/mandelbrot.py:41-43 | a partial last byte padded by `8 - bit_num` is the row's last byte |
| MandelbrotPack.PackedPyRow | benchmarks/mandelbrot/mandelbrot.py:15-43 | the Python row loop and its padding give exactly the row's bytes |
| MandelbrotPack.StepAgrees | benchmarks/mandelbrot/Mandelbrot.java:38-48 | with the accumulator below 128, the 8-bit step of a pixel that is not the row's last matches the unbounded one |
| MandelbrotPack.LastStepAgrees | benchmarks/mandelbrot/Mandelbrot.java:49-53 | the 8-bit last-pixel flush matches the unbounded packer's last pixel and padding |
| MandelbrotPack.Packed8AgreesPy | benchmarks/mandelbrot/Mandelbrot.java:22-55 | before a row's last pixel, the Java packer and the Python packer are in the same state |
| MandelbrotPack.Packed8Last | benchmarks/mandelbrot/Mandelbrot.java:49-54 | the Java row loop ends with the bytes of the Python loop and its padding |
| MandelbrotPack.Packed8Row | benchmarks/mandelbrot/Mandelbrot.java:22-55 | the Java row loop writes exactly the row's bytes |
| MandelbrotPack.Packed8Bounds | benchmarks/mandelbrot/Mandelbrot.java:43-54 | `bitIndex` stays in `[0, 8)` with the accumulator below 128, and a row never writes more than `(size + 7) / 8` bytes |
| MandelbrotPack.Packed8Next | benchmarks/mandelbrot/Mandelbrot.java:38-54 | a pixel flushes a full byte and resets, or flushes the shifted partial byte on the row's last pixel and resets, or stays in the accumulator |
| MandelbrotPack.PackRaster | benchmarks/mandelbrot/Mandelbrot.java:15-56 | the zeroed buffer of the computed length ends holding exactly the image's raster for `size >= 0` and stays all zero for a negative `size`; the Rust `main` and the JavaScript `mandelbrot(size)` repeat this loop |
| MandelbrotPack.PackRow | benchmarks/mandelbrot/Mandelbrot.java:19-55 | one row advances `dataIndex` by exactly `(size + 7) / 8`, writes the row's bytes there, and keeps the bytes before and after them; likewise the Rust and JavaScript row loops |
| MandelbrotPack.PackRasterPy | benchmarks/mandelbrot/mandelbrot.py:12-45 | the returned bytes are exactly the image's raster, `size * ((size + 7) / 8)` of them, and empty for a negative `size` |
| MandelbrotPack.PackRowPy | benchmarks/mandelbrot/mandelbrot.py:16-43 | one row appends exactly the row's bytes |
| MandelbrotPack.JavaBufferLength | benchmarks/mandelbrot/Mandelbrot.java:15 | with `int` truncating division and `-131071 <= size <= 131071`, `(size + 7) / 8 * size` is non-negative, below `2 ** 31`, and one row of bytes per row for `size >= 0` |
| MandelbrotPack.CeilDiv8 | benchmarks/mandelbrot/mandelbrot.js:11 | `Math.ceil(size / 8)` is the least `r` with `size <= 8 * r` |
| MandelbrotPack.JsBufferLength | benchmarks/mandelbrot/mandelbrot.js:11 | `Math.ceil(size / 8) * size` is never negative and, for `size >= 0`, is the Java and Rust length |
| MandelbrotPack.CeilDiv8IsBytesPerRow | benchmarks/mandelbrot/mandelbrot.js:11 | `Math.ceil(size / 8)` is the `(size + 7) / 8` of Java and Rust |

## Left out

- MSR access (`_read_msr`, the existence check of the `msr` device file, `sys.exit`) is I/O. Each register read is a method input: a `bv64` for the power-unit register and a `Reading` of two 64-bit values for the energy registers. The `msr_file` path string is not kept.
- `subprocess.Popen`, `poll`, `communicate`, `time.time` and `time.sleep` are process and clock I/O. A `Run` supplies the clock values, one energy read per poll that finds the process running, the final read, the exit status and the decoded output. The local `start_time`/`end_time` of `monitor_process` are never used and are not modelled.
- All `print` output of the harness and the benchmarks, the `P4` header, and the stdout writes are output only.
- `save_results` and `main`'s argument parsing and filtering are file I/O and CLI. Their language list is `RunAggregator.Languages`.
- The `timestamp` field of the aggregate is wall-clock time. It is not modelled.
- Floating point: energies, means and the mandelbrot escape loop use exact `real`s, not IEEE doubles. Rounding and overflow to infinity are not modelled.
- Statistics.Variance: `np.std` is kept squared, because its square root has no exact counterpart in `real`. The variance is not proved positive for lists whose values differ; the model proves only that it is non-negative and zero for a constant list.
- Calling `sample` or `stop` before `start`: in Python this fails on `None` arithmetic. `Sample` and `Stop` require `start` to have set the baseline.
- EnergyRegisters.LowWord: `& 0xFFFFFFFF` on a non-negative reading is written as the remainder modulo `2 ** 32`. That is its value for non-negative integers. The contract states the remainder; the bitwise form itself is not stated.
- CounterSampler.RawDelta: the wrap formula `0xFFFFFFFF - before + now` is modelled as written. `RawDeltaVersusModular` states that it is one count short of the true advance.
- RunAggregator.Capitalize: Python's `str.capitalize` is modelled on ASCII letters only. Unicode title-casing is not.
- BinaryTreesMain.Run: the C, Java and Rust versions are modelled for `n <= 28`, where their 32-bit arithmetic cannot overflow. From `n = 29` their summed `check` wraps (`Int32CheckOverflowsAt29`); the wrapped output is not modelled.
- BinaryTreesMain.RunJs: the JavaScript version is modelled for `n <= 30`. From `n = 31` its shift count reaches 31, where `1 << 31` is negative and the depth-4 batch runs no tree (larger counts are taken modulo 32); that output is not modelled.
- C's `malloc`/`free`/`delete_tree` are memory management that does not change any result. They are not modelled, and neither is Python's unused `multiprocessing` import.
- Java's `byte` is signed. The model keeps its 8-bit pattern as a value in `[0, 256)`, which is what `System.out.write` emits. JavaScript's `<<` works on 32-bit integers and Rust's `byte_acc` is a `u8`; both agree with the 8-bit shift on the values that occur (`Shl8Exact`).
- MandelbrotPack.PackRaster: the Java buffer length `(size + 7) / 8 * size` is an `int` product. At `size = 131072` it is exactly `2 ** 31` and wraps to a negative length, and above that it can wrap to a short buffer. `JavaBufferLength` is therefore stated only for `-131071 <= size <= 131071`, and the wrapped allocations are not modelled. For a negative `size`, Java allocates `JavaBufferLength(size)` zero bytes (16 for -16) and JavaScript `JsBufferLength(size)` (32 for -16), and neither runs a row. `PackRaster` takes either length and promises the all-zero buffer. Rust parses `size` as a `usize`, so a negative argument falls back to 200; that parse is not modelled. Python's `range` of a negative `size` is empty, and `PackRasterPy` returns no bytes.
- The mandelbrot pixel loop is split into a row method (`PackRow`, `PackRowPy`) and a pixel method (`PixelTest`, `PixelTestPy`) instead of one nested loop.
- n-body, spectral-norm and regex-redux are floating-point physics and linear algebra, or wrappers over regular-expression libraries. They are not part of this model.
