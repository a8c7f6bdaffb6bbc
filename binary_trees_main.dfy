/** The depth schedule of the binary-trees benchmark's `main`: a stretch tree, a long-lived
    tree, and for every second depth from `min_depth` to `max_depth` a batch of short-lived
    trees whose checks are summed. The printed lines are returned as a report. */
module BinaryTreesMain {
  import opened BinaryTrees
  import opened Powers

  /** `min_depth` in the C, Rust, Java and JavaScript versions. */
  const MinDepth := 4

  /** One printed line `<iterations> trees of depth <depth> check: <check>`. */
  datatype DepthLine = DepthLine(iterations: int, depth: int, check: int)

  /** Everything `main` prints, in order. */
  datatype Report = Report(
    stretchDepth: int, stretchCheck: int,
    lines: seq<DepthLine>,
    longLivedDepth: int, longLivedCheck: int)

  /** `max_depth`: `n`, raised to at least `min_depth + 2`. */
  function MaxDepth(n: int, minDepth: int): (r: int)
    ensures r >= minDepth + 2 && r >= n
    ensures r == n || r == minDepth + 2
  {
    if n < minDepth + 2 then minDepth + 2 else n
  }

  /** What every version prints for `max_depth` and `min_depth`: the stretch tree one deeper
      than `max_depth`, one line per depth `min_depth, min_depth + 2, ...` not above
      `max_depth` with `2^(max_depth - depth + min_depth)` iterations and the summed check
      `iterations * depth`, and the long-lived tree of depth `max_depth`. */
  ghost predicate Follows(report: Report, minDepth: nat, maxDepth: int)
  {
    && report.stretchDepth == maxDepth + 1
    && report.stretchCheck == maxDepth + 1
    && |report.lines| == (maxDepth - minDepth) / 2 + 1
    && (forall k :: 0 <= k < |report.lines| ==> Scheduled(report.lines[k], k, minDepth, maxDepth))
    && report.longLivedDepth == maxDepth
    && report.longLivedCheck == maxDepth
  }

  /** Line `k` of the schedule: depth `min_depth + 2k`, `2^(max_depth - depth + min_depth)`
      trees, and a summed check of `iterations * depth`. */
  ghost predicate Scheduled(line: DepthLine, k: nat, minDepth: nat, maxDepth: int)
  {
    && line.depth == minDepth + 2 * k
    && line.depth <= maxDepth
    && line.iterations == Pow2(maxDepth - line.depth + minDepth)
    && line.check == line.iterations * line.depth
  }

  /** Every value the C, Java and Rust versions keep in an `int`/`i32` stays below `2^31`. */
  ghost predicate FitsInt32(report: Report)
  {
    && report.stretchCheck < 0x8000_0000
    && (forall k :: 0 <= k < |report.lines| ==>
          report.lines[k].iterations < 0x8000_0000 && report.lines[k].check < 0x8000_0000)
  }

  lemma MulSucc(a: int, b: int)
    ensures (a + 1) * b == a * b + b
  {
  }

  /** `d <= 2^(d-2)` from `d = 4` on. */
  lemma {:induction false} DepthBelowPow2(d: nat)
    requires d >= 4
    ensures d <= Pow2(d - 2)
  {
    if d > 4 {
      DepthBelowPow2(d - 1);
    }
  }

  /** The largest summed check is at `min_depth`: `2^(max - d + 4) * d <= 2^(max + 2)`. */
  lemma CheckBound(maxDepth: nat, depth: nat)
    requires MinDepth <= depth <= maxDepth
    ensures Pow2(maxDepth - depth + MinDepth) * depth <= Pow2(maxDepth + 2)
  {
    DepthBelowPow2(depth);
    Pow2Add(maxDepth - depth + MinDepth, depth - 2);
    assert maxDepth - depth + MinDepth + (depth - 2) == maxDepth + 2;
  }

  /** `1 << e` is a positive 32-bit value for `e <= 30`. */
  lemma FitsInt32Below(e: nat)
    requires e <= 30
    ensures Pow2(e) < 0x8000_0000
  {
    Pow2Of31();
    Pow2Monotone(e, 30);
    assert Pow2(31) == 2 * Pow2(30);
  }

  /** The C, Java and Rust `main` for argument `n`. Their `int`/`i32` arithmetic is exact
      as long as `n <= 28` (then the largest check is `2^30`); `Int32CheckOverflowsAt29`
      shows that the depth-4 check of `n = 29` no longer fits. */
  method Run(n: int) returns (report: Report)
    requires n <= 28
    ensures Follows(report, MinDepth, MaxDepth(n, MinDepth))
    ensures FitsInt32(report)
  {
    var maxDepth := MaxDepth(n, MinDepth);
    var stretchDepth := maxDepth + 1;
    CheckMakeTree(stretchDepth);
    var stretchCheck := CheckTree(MakeTree(stretchDepth));
    var longLivedTree := MakeTree(maxDepth);

    var lines: seq<DepthLine> := [];
    var depth := MinDepth;
    while depth <= maxDepth
      invariant MinDepth <= depth <= maxDepth + 2
      invariant depth == MinDepth + 2 * |lines|
      invariant forall k :: 0 <= k < |lines| ==> Scheduled(lines[k], k, MinDepth, maxDepth)
      invariant forall k :: 0 <= k < |lines| ==>
        lines[k].iterations < 0x8000_0000 && lines[k].check < 0x8000_0000
    {
      var iterations := Pow2(maxDepth - depth + MinDepth);
      assert iterations < 0x8000_0000 by {
        FitsInt32Below(maxDepth - depth + MinDepth);
      }
      var check := 0;
      var i := 1;
      while i <= iterations
        invariant 1 <= i <= iterations + 1
        invariant check == (i - 1) * depth
      {
        var tempTree := MakeTree(depth);
        var treeCheck := CheckTree(tempTree) by { CheckMakeTree(depth); }
        assert treeCheck == depth by { CheckMakeTree(depth); }
        MulSucc(i - 1, depth);
        check := check + treeCheck;
        i := i + 1;
      }
      assert check == iterations * depth;
      assert check < 0x8000_0000 by {
        CheckBound(maxDepth, depth);
        FitsInt32Below(maxDepth + 2);
      }
      lines := lines + [DepthLine(iterations, depth, check)];
      depth := depth + 2;
    }

    CheckMakeTree(maxDepth);
    report := Report(stretchDepth, stretchCheck, lines, maxDepth, CheckTree(longLivedTree));
  }

  /** From `n = 29` on, the first batch's summed check, `2^29 * 4`, is `2^31`: one past
      the largest signed 32-bit value, so `n <= 28` is exactly the range `Run` covers. */
  lemma Int32CheckOverflowsAt29()
    ensures Pow2(MaxDepth(29, MinDepth) - MinDepth + MinDepth) * MinDepth == 0x8000_0000
  {
    Pow2Of31();
    assert Pow2(31) == 4 * Pow2(29);
  }

  /** The JavaScript `main` for argument `n`. Its checks are doubles, exact far beyond these
      sizes; its only 32-bit operation is `1 << (maxDepth - depth + minDepth)`, which stays
      a positive value while `n <= 30`. */
  method RunJs(n: int) returns (report: Report)
    requires n <= 30
    ensures Follows(report, MinDepth, MaxDepth(n, MinDepth))
    ensures forall k :: 0 <= k < |report.lines| ==> report.lines[k].iterations < 0x8000_0000
  {
    var maxDepth := MaxDepth(n, MinDepth);
    var stretchDepth := maxDepth + 1;
    CheckMakeTree(stretchDepth);
    var stretchCheck := CheckTree(MakeTree(stretchDepth));
    var longLivedTree := MakeTree(maxDepth);

    var lines: seq<DepthLine> := [];
    var depth := MinDepth;
    while depth <= maxDepth
      invariant MinDepth <= depth <= maxDepth + 2
      invariant depth == MinDepth + 2 * |lines|
      invariant forall k :: 0 <= k < |lines| ==> Scheduled(lines[k], k, MinDepth, maxDepth)
      invariant forall k :: 0 <= k < |lines| ==> lines[k].iterations < 0x8000_0000
    {
      var iterations := Pow2(maxDepth - depth + MinDepth);
      assert iterations < 0x8000_0000 by {
        FitsInt32Below(maxDepth - depth + MinDepth);
      }
      var check := 0;
      var i := 1;
      while i <= iterations
        invariant 1 <= i <= iterations + 1
        invariant check == (i - 1) * depth
      {
        var tempTree := MakeTree(depth);
        var treeCheck := CheckTree(tempTree) by { CheckMakeTree(depth); }
        assert treeCheck == depth by { CheckMakeTree(depth); }
        MulSucc(i - 1, depth);
        check := check + treeCheck;
        i := i + 1;
      }
      lines := lines + [DepthLine(iterations, depth, check)];
      depth := depth + 2;
    }

    CheckMakeTree(maxDepth);
    report := Report(stretchDepth, stretchCheck, lines, maxDepth, CheckTree(longLivedTree));
  }

  /** Python's `make_check(depth, iterations)`: builds and checks `iterations` trees of the
      given depth (none when `iterations <= 0`) and sums their checks. */
  method MakeCheck(depth: int, iterations: int) returns (check: int)
    ensures check == Max(iterations, 0) * Max(depth, 0)
  {
    check := 0;
    var i := 0;
    while i < iterations
      invariant 0 <= i <= Max(iterations, 0)
      invariant check == i * Max(depth, 0)
    {
      var tree := MakeTree(depth);
      var treeCheck := CheckTree(tree) by { CheckMakeTree(depth); }
      assert treeCheck == Max(depth, 0) by { CheckMakeTree(depth); }
      MulSucc(i, Max(depth, 0));
      check := check + treeCheck;
      i := i + 1;
    }
  }

  /** Python's `main(n, min_depth)`. Python integers do not overflow, so any `n` is allowed;
      every batch has at least `2^min_depth` trees. */
  method RunPy(n: int, minDepth: nat) returns (report: Report)
    ensures Follows(report, minDepth, MaxDepth(n, minDepth))
    ensures forall k :: 0 <= k < |report.lines| ==> report.lines[k].iterations >= Pow2(minDepth)
  {
    var maxDepth := MaxDepth(n, minDepth);
    var stretchDepth := maxDepth + 1;
    CheckMakeTree(stretchDepth);
    var stretchCheck := CheckTree(MakeTree(stretchDepth));
    var longLivedTree := MakeTree(maxDepth);

    var mmd := maxDepth + minDepth;
    var lines: seq<DepthLine> := [];
    var depth := minDepth;
    while depth < maxDepth + 1
      invariant minDepth <= depth <= maxDepth + 2
      invariant depth == minDepth + 2 * |lines|
      invariant forall k :: 0 <= k < |lines| ==> Scheduled(lines[k], k, minDepth, maxDepth)
      invariant forall k :: 0 <= k < |lines| ==> lines[k].iterations >= Pow2(minDepth)
    {
      Pow2Monotone(minDepth, mmd - depth);
      var iterations := Pow2(mmd - depth);
      var check := MakeCheck(depth, iterations);
      lines := lines + [DepthLine(iterations, depth, check)];
      depth := depth + 2;
    }

    CheckMakeTree(maxDepth);
    report := Report(stretchDepth, stretchCheck, lines, maxDepth, CheckTree(longLivedTree));
  }
}
