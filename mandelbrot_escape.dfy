/** The escape test of the mandelbrot benchmark: iterate `z := z^2 + c` from the origin for
    at most 50 steps, stopping as soon as `|z|^2 > 4`; the pixel is set when the last orbit
    point is still within the limit. Arithmetic is exact (`real`), not IEEE doubles. */
module MandelbrotEscape {

  /** The iteration cap of every version. */
  const MaxIterations: nat := 50

  /** The escape radius squared. */
  const Limit: real := 4.0

  /** The loop variables: `z = zr + zi*i`, `tr = zr^2`, `ti = zi^2`. */
  datatype Orbit = Orbit(zr: real, zi: real, tr: real, ti: real)

  /** The loop variables before the first iteration, all `0.0`. */
  function Origin(): (r: Orbit)
  {
    Orbit(0.0, 0.0, 0.0, 0.0)
  }

  /** One iteration, in the order of the source's loop body. */
  function Step(z: Orbit, cr: real, ci: real): (r: Orbit)
  {
    var zi := 2.0 * z.zr * z.zi + ci;
    var zr := z.tr - z.ti + cr;
    Orbit(zr, zi, zr * zr, zi * zi)
  }

  predicate Escaped(z: Orbit)
  {
    z.tr + z.ti > Limit
  }

  /** The orbit point after `k` iterations from the origin. */
  function OrbitAt(cr: real, ci: real, k: nat): (r: Orbit)
  {
    if k == 0 then Origin() else Step(OrbitAt(cr, ci, k - 1), cr, ci)
  }

  /** The first `j` in `[k, 50)` whose orbit point has escaped, or 50 when there is none. */
  function EscapeFrom(cr: real, ci: real, k: nat): (r: nat)
    requires k <= MaxIterations
    ensures k <= r <= MaxIterations
    ensures forall j :: k <= j < r ==> !Escaped(OrbitAt(cr, ci, j))
    ensures r < MaxIterations ==> Escaped(OrbitAt(cr, ci, r))
    decreases MaxIterations - k
  {
    if k == MaxIterations || Escaped(OrbitAt(cr, ci, k)) then k
    else EscapeFrom(cr, ci, k + 1)
  }

  /** The number of iterations the escape loop performs for `c = cr + ci*i`. */
  function Iterations(cr: real, ci: real): (r: nat)
  {
    EscapeFrom(cr, ci, 0)
  }

  /** The pixel value: the orbit has not escaped when the loop stops. */
  predicate InSet(cr: real, ci: real)
  {
    !Escaped(OrbitAt(cr, ci, Iterations(cr, ci)))
  }

  /** The point of pixel column `x`: `2.0 * x / size - 1.5`. */
  function Re(x: nat, size: nat): (r: real)
    requires size > 0
  {
    2.0 * x as real / size as real - 1.5
  }

  /** The point of pixel row `y`: `2.0 * y / size - 1.0`. */
  function Im(y: nat, size: nat): (r: real)
    requires size > 0
  {
    2.0 * y as real / size as real - 1.0
  }

  /** The bit of pixel `(x, y)` in a `size` by `size` image. */
  predicate Pixel(x: nat, y: nat, size: nat)
    requires size > 0
  {
    InSet(Re(x, size), Im(y, size))
  }

  /** The Java, Rust and JavaScript loop: test, then step
      (`for (i = 0; i < 50 && tr + ti <= 4.0; i++)`). It runs at most 50 times and stops at
      the first escaped orbit point. */
  method EscapeTest(cr: real, ci: real) returns (inside: bool, i: nat)
    ensures i <= MaxIterations
    ensures forall j :: 0 <= j < i ==> !Escaped(OrbitAt(cr, ci, j))
    ensures i < MaxIterations ==> Escaped(OrbitAt(cr, ci, i))
    ensures inside == InSet(cr, ci)
  {
    var z := Origin();
    i := 0;
    while i < MaxIterations && !Escaped(z)
      invariant i <= MaxIterations
      invariant z == OrbitAt(cr, ci, i)
      invariant forall j :: 0 <= j < i ==> !Escaped(OrbitAt(cr, ci, j))
    {
      z := Step(z, cr, ci);
      i := i + 1;
    }
    inside := !Escaped(z);
  }

  /** Python's loop: step, then test (`for i in range(50): ... if tr + ti > 4.0: break`).
      Because the origin never escapes, it stops on the same orbit point as the
      test-then-step loop and yields the same pixel. */
  method EscapeTestPy(cr: real, ci: real) returns (inside: bool)
    ensures inside == InSet(cr, ci)
  {
    var z := Origin();
    ghost var steps: nat := 0;
    for i := 0 to MaxIterations
      invariant steps == i
      invariant z == OrbitAt(cr, ci, steps)
      invariant forall j :: 0 <= j <= steps ==> !Escaped(OrbitAt(cr, ci, j))
    {
      z := Step(z, cr, ci);
      steps := steps + 1;
      if Escaped(z) {
        break;
      }
    }
    assert steps <= MaxIterations;
    assert forall j :: 0 <= j < steps ==> !Escaped(OrbitAt(cr, ci, j));
    assert steps < MaxIterations ==> Escaped(OrbitAt(cr, ci, steps));
    inside := !Escaped(z);
  }
}
