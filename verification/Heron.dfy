/** heron: the reciprocal of a over the exact reals. */
module Heron {
  const EPS1M01: real := 1.0 - 0.5
  const EPS1P01: real := 1.0 + 0.5
  const EPS24: real := 1.0 / 16777216.0
  const EPS1M24: real := 1.0 - EPS24
  const EPS1P24: real := 1.0 + EPS24

  function Abs(e: real): real {
    if e < 0.0 then -e else e
  }

  /** 2^n or 2^-n. */
  function Power(up: bool, n: nat): real {
    if n == 0 then 1.0 else if up then Power(up, n - 1) * 2.0 else Power(up, n - 1) * 0.5
  }

  // ----- the initial guess

  predicate Near(prod: real) {
    0.5 <= prod <= 1.5
  }

  /** Bounds the turns of the guess loop that are left. */
  function Turns(prod: real): int {
    if prod <= 0.0 then 0
    else if prod < EPS1M01 then (1.0 / prod).Floor
    else if EPS1P01 < prod then prod.Floor
    else 0
  }

  lemma {:induction false} HalfFloor(t: real)
    requires t > 1.5
    ensures 0 <= (t * 0.5).Floor < t.Floor
  {
  }

  lemma {:induction false} Inverse(t: real)
    requires 0.0 < t < 0.5
    ensures 1.0 / t > 2.0 && 1.0 / (2.0 * t) == (1.0 / t) * 0.5
  {
    var r := 1.0 / t;
    assert r * t == 1.0;
    assert (2.0 * t) * (r * 0.5) == 1.0;
  }

  lemma {:induction false} DoublingShrinks(prod: real)
    requires 0.0 < prod < EPS1M01
    ensures 0 <= Turns(2.0 * prod) < Turns(prod)
  {
    Inverse(prod);
    HalfFloor(1.0 / prod);
  }

  lemma {:induction false} HalvingShrinks(prod: real)
    requires EPS1P01 < prod
    ensures 0 <= Turns(prod * 0.5) < Turns(prod)
  {
    HalfFloor(prod);
  }

  /** What a turn does to x, and what that does to the product. */
  function NextGuess(prod: real, x: real): real {
    if prod < EPS1M01 then x * 2.0 else if EPS1P01 < prod then x * 0.5 else x
  }

  function NextProduct(prod: real): real {
    if prod < EPS1M01 then 2.0 * prod else if EPS1P01 < prod then prod * 0.5 else prod
  }

  lemma {:induction false} Turn(a: real, x: real, prod: real, x': real)
    requires prod == a * x && x' == NextGuess(prod, x)
    ensures a * x' == NextProduct(prod)
  {
  }

  /** The product that is tested after n turns of the guess loop, and x: see ProductIs. */
  function Product(a: real, n: nat): real {
    if n == 0 then a else NextProduct(Product(a, n - 1))
  }

  function GuessAfter(a: real, n: nat): real {
    if n == 0 then 1.0 else NextGuess(Product(a, n - 1), GuessAfter(a, n - 1))
  }

  lemma {:induction false} ProductIs(a: real, n: nat, x: real)
    requires x == GuessAfter(a, n)
    ensures a * x == Product(a, n)
  {
    if n > 0 {
      var y := GuessAfter(a, n - 1);
      ProductIs(a, n - 1, y);
      Turn(a, y, Product(a, n - 1), x);
    }
  }

  lemma {:induction false} NeverPositive(a: real, n: nat)
    requires a <= 0.0
    ensures Product(a, n) <= 0.0
  {
    if n > 0 {
      NeverPositive(a, n - 1);
    }
  }

  lemma {:induction false} NearReached(a: real, n: nat, prod: real) returns (k: nat)
    requires prod == Product(a, n) && prod > 0.0
    ensures Near(Product(a, k))
    decreases Turns(prod)
  {
    if prod < EPS1M01 {
      DoublingShrinks(prod);
      k := NearReached(a, n + 1, 2.0 * prod);
    } else if EPS1P01 < prod {
      HalvingShrinks(prod);
      k := NearReached(a, n + 1, prod * 0.5);
    } else {
      k := n;
    }
  }

  /** The n-th turn ends the loop. */
  ghost predicate Ends(a: real, n: nat) {
    Near(Product(a, n)) && Product(a, n) == a * GuessAfter(a, n)
  }

  /** The guess loop ends exactly for positive a. */
  lemma {:induction false} GuessEndsExactly(a: real)
    ensures (exists n: nat :: Ends(a, n)) <==> a > 0.0
  {
    if a > 0.0 {
      var k := NearReached(a, 0, a);
      ProductIs(a, k, GuessAfter(a, k));
      assert Ends(a, k);
    } else {
      forall n: nat
        ensures !Ends(a, n)
      {
        ProductIs(a, n, GuessAfter(a, n));
        NeverPositive(a, n);
      }
    }
  }

  /** The loop only doubles, or only halves. */
  lemma {:induction false} OneDirection(a: real, n: nat)
    ensures a < EPS1M01 ==> Product(a, n) < 1.0
    ensures a > EPS1P01 ==> Product(a, n) > 0.75
    ensures Near(a) ==> Product(a, n) == a
  {
    if n > 0 {
      OneDirection(a, n - 1);
    }
  }

  /** The guess loop: n turns, which all double or all halve, end with a * x near 1. */
  method Guess(a: real) returns (x: real, ghost n: nat)
    requires a > 0.0
    ensures x == Power(a < 1.0, n) && a * x == Product(a, n) && Near(a * x)
  {
    x, n := 1.0, 0;
    ghost var k := NearReached(a, 0, a);
    while true
      invariant a * x == Product(a, n) && x == Power(a < 1.0, n)
      invariant n <= k
      decreases k - n
    {
      var prod := a * x;
      OneDirection(a, n);
      Turn(a, x, prod, NextGuess(prod, x));
      if prod < EPS1M01 {
        x := x * 2.0;
      } else if EPS1P01 < prod {
        x := x * 0.5;
      } else {
        break;
      }
      n := n + 1;
    }
  }

  // ----- the approximation

  function Error(a: real, x: real): real {
    1.0 - a * x
  }

  predicate TooFar(e: real) {
    Abs(e) > EPS24
  }

  /** e squared n times. */
  function Squared(e: real, n: nat): real {
    if n == 0 then e else Squared(e, n - 1) * Squared(e, n - 1)
  }

  lemma {:induction false} ErrorSquares(a: real, x: real, x': real, e: real, n: nat)
    requires Error(a, x) == Squared(e, n) && x' == x * (2.0 - a * x)
    ensures Error(a, x') == Squared(e, n + 1)
  {
    var p := a * x;
    assert a * (x * (2.0 - p)) == p * (2.0 - p);
    assert 1.0 - p * (2.0 - p) == (1.0 - p) * (1.0 - p);
  }

  lemma {:induction false} SquareSmaller(e: real, bound: real)
    requires Abs(e) <= bound
    ensures Abs(e * e) <= bound * bound
  {
    var d := Abs(e);
    assert e * e == d * d;
    assert d * d <= d * bound;
    assert d * bound <= bound * bound;
  }

  lemma {:induction false} NextBound(e: real, n: nat, bound: real, bound': real)
    requires Abs(Squared(e, n)) <= bound && bound' == bound * bound
    ensures Abs(Squared(e, n + 1)) <= bound'
  {
    SquareSmaller(Squared(e, n), bound);
  }

  /** However near the guess was to the ends of its range, five squarings are enough. */
  lemma {:induction false} FiveEnough(e: real)
    requires Abs(e) <= 0.5
    ensures !TooFar(Squared(e, 5))
  {
    NextBound(e, 0, 0.5, 0.25);
    NextBound(e, 1, 0.25, 0.0625);
    NextBound(e, 2, 0.0625, 0.00390625);
    NextBound(e, 3, 0.00390625, 0.0000152587890625);
    NextBound(e, 4, 0.0000152587890625, 0.00000000023283064365386962890625);
  }

  /** The approximation loop: every step squares the error, so there are at most five, and
      there is none that was not needed. */
  method Approximate(a: real, guess: real) returns (x: real, ghost steps: nat)
    requires Near(a * guess)
    ensures Error(a, x) == Squared(Error(a, guess), steps) && steps <= 5
    ensures !TooFar(Error(a, x))
    ensures forall n :: 0 <= n < steps ==> TooFar(Squared(Error(a, guess), n))
  {
    x := guess;
    steps := 0;
    ghost var e := Error(a, guess);
    while true
      invariant Error(a, x) == Squared(e, steps) && steps <= 5
      invariant forall n :: 0 <= n < steps ==> TooFar(Squared(e, n))
      decreases 5 - steps
    {
      var prod := a * x;
      if prod < EPS1M24 || EPS1P24 < prod {
        if steps == 5 {
          FiveEnough(e);
        }
        var better := x * (2.0 - prod);
        ErrorSquares(a, x, better, e, steps);
        x := better;
        steps := steps + 1;
      } else {
        break;
      }
    }
  }

  /** Five steps are sometimes needed: for a = 1/2 the guess 1 is taken, and its error is still
      too large after four. */
  lemma {:induction false} FiveNeeded(n: nat)
    requires n <= 4
    ensures Near(0.5 * 1.0) && TooFar(Squared(Error(0.5, 1.0), n))
  {
    var e := Error(0.5, 1.0);
    assert Squared(e, 1) == 0.25;
    assert Squared(e, 2) == 0.0625;
    assert Squared(e, 3) == 0.00390625;
    assert Squared(e, 4) == 0.0000152587890625;
  }

  /** The program, for a positive argument: 1 / a with a relative error of at most 2^-24. */
  method Heron(a: real) returns (x: real)
    requires a > 0.0
    ensures Abs(x - 1.0 / a) * 16777216.0 <= 1.0 / a
  {
    var guess;
    ghost var turns, steps;
    guess, turns := Guess(a);
    x, steps := Approximate(a, guess);
    RelativeError(a, x);
  }

  lemma {:induction false} RelativeError(a: real, x: real)
    requires a > 0.0 && !TooFar(Error(a, x))
    ensures Abs(x - 1.0 / a) * 16777216.0 <= 1.0 / a
  {
    var r, e := 1.0 / a, Error(a, x);
    assert r > 0.0 && r * a == 1.0;
    assert r * e == r - (r * a) * x;
    assert r * e <= r * EPS24 && r * -e <= r * EPS24;
  }
}
