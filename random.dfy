/**
 * The pseudo-random stream the AI systems draw from (Python's `random.Random`).
 *
 * The generator is a fixed stream of draws and a position in it: draw `i` is
 * `unit(i)`, one `random()` value in [0, 1), and when that draw is turned into
 * an angle the direction `(cos, sin)` of that angle is `dir(i)`, a unit
 * vector. `uniform(a, b)` is `a + (b - a) * random()`, as in CPython.
 */
module Rand {

  datatype Dir = Dir(ux: real, uy: real)

  datatype Rng = Rng(unit: nat -> real, dir: nat -> Dir, pos: nat)

  /** Every draw lies in [0, 1) and every direction has length 1. */
  ghost predicate ValidRng(g: Rng) {
    && (forall i: nat :: 0.0 <= g.unit(i) < 1.0)
    && (forall i: nat :: g.dir(i).ux * g.dir(i).ux + g.dir(i).uy * g.dir(i).uy == 1.0)
  }

  function Min(a: real, b: real): real { if a <= b then a else b }
  function Max(a: real, b: real): real { if a <= b then b else a }

  lemma ScaleBounds(x: real, u: real)
    requires 0.0 <= u <= 1.0
    ensures x >= 0.0 ==> 0.0 <= x * u <= x
    ensures x < 0.0 ==> x <= x * u <= 0.0
  {
    if x >= 0.0 {
      assert x * (1.0 - u) >= 0.0;
    } else {
      assert (-x) * u >= 0.0;
      assert (-x) * (1.0 - u) >= 0.0;
    }
  }

  lemma Between(a: real, b: real, u: real)
    requires 0.0 <= u <= 1.0
    ensures Min(a, b) <= a + (b - a) * u <= Max(a, b)
  {
    ScaleBounds(b - a, u);
    if a <= b {
      assert b - a >= 0.0;
      assert 0.0 <= (b - a) * u <= b - a;
    } else {
      assert b - a < 0.0;
      assert b - a <= (b - a) * u <= 0.0;
    }
  }

  /** `rng.uniform(a, b)`: one draw, a value between the two bounds in either order. */
  function Uniform(g: Rng, a: real, b: real): (r: (real, Rng))
    ensures r.1 == g.(pos := g.pos + 1)
    ensures ValidRng(g) ==> Min(a, b) <= r.0 <= Max(a, b)
    ensures ValidRng(g) && a == b ==> r.0 == a
  {
    var u := g.unit(g.pos);
    var v := a + (b - a) * u;
    assert ValidRng(g) ==> Min(a, b) <= v <= Max(a, b) by {
      if ValidRng(g) {
        assert 0.0 <= u < 1.0;
        Between(a, b, u);
      }
    }
    (v, g.(pos := g.pos + 1))
  }

  /** `rng.uniform(0, 2 * pi)` followed by `(cos, sin)` of the angle: one draw. */
  function DrawDir(g: Rng): (r: (Dir, Rng))
    ensures r.1 == g.(pos := g.pos + 1)
    ensures ValidRng(g) ==> r.0.ux * r.0.ux + r.0.uy * r.0.uy == 1.0
  {
    (g.dir(g.pos), g.(pos := g.pos + 1))
  }

  /** Advancing the position keeps the stream valid. */
  lemma ValidAdvance(g: Rng, n: nat)
    requires ValidRng(g)
    ensures ValidRng(g.(pos := n))
  {
  }
}
