/**
 * Exact sums over the four nested loops of the time-displaced measurements:
 * base point (xi, yi) and displacement (dx, dy), each in [0, ll), nested in
 * that order. Each level sums its first n terms in loop order, so a loop
 * that has run k iterations has accumulated exactly the partial sum of
 * its level.
 */
module Sums {

  /** Summand of the four nested loops, indexed (xi, yi, dx, dy). */
  type Summand = (nat, nat, nat, nat) -> real

  /** Sum over dy in [0, n). */
  function DySum(f: Summand, xi: nat, yi: nat, dx: nat, n: nat): real
  {
    if n == 0 then 0.0 else DySum(f, xi, yi, dx, n - 1) + f(xi, yi, dx, n - 1)
  }

  /** Sum over dx in [0, n) of the full dy loops. */
  function DxSum(f: Summand, ll: nat, xi: nat, yi: nat, n: nat): real
  {
    if n == 0 then 0.0 else DxSum(f, ll, xi, yi, n - 1) + DySum(f, xi, yi, n - 1, ll)
  }

  /** Sum over yi in [0, n) of the full displacement loops. */
  function YiSum(f: Summand, ll: nat, xi: nat, n: nat): real
  {
    if n == 0 then 0.0 else YiSum(f, ll, xi, n - 1) + DxSum(f, ll, xi, n - 1, ll)
  }

  /** Sum over xi in [0, n) of the full yi loops. */
  function XiSum(f: Summand, ll: nat, n: nat): real
  {
    if n == 0 then 0.0 else XiSum(f, ll, n - 1) + YiSum(f, ll, n - 1, ll)
  }


  /** The whole quadruple loop. */
  function Sum4(f: Summand, ll: nat): real
  {
    XiSum(f, ll, ll)
  }

  /** The summand multiplied by a constant. */
  function Scaled(c: real, f: Summand): Summand
  {
    (xi: nat, yi: nat, dx: nat, dy: nat) => c * f(xi, yi, dx, dy)
  }

  lemma {:induction false} DySumScaled(c: real, f: Summand, xi: nat, yi: nat, dx: nat, n: nat)
    ensures DySum(Scaled(c, f), xi, yi, dx, n) == c * DySum(f, xi, yi, dx, n)
  {
    if n > 0 {
      DySumScaled(c, f, xi, yi, dx, n - 1);
    }
  }

  lemma {:induction false} DxSumScaled(c: real, f: Summand, ll: nat, xi: nat, yi: nat, n: nat)
    ensures DxSum(Scaled(c, f), ll, xi, yi, n) == c * DxSum(f, ll, xi, yi, n)
  {
    if n > 0 {
      DxSumScaled(c, f, ll, xi, yi, n - 1);
      DySumScaled(c, f, xi, yi, n - 1, ll);
    }
  }

  lemma {:induction false} YiSumScaled(c: real, f: Summand, ll: nat, xi: nat, n: nat)
    ensures YiSum(Scaled(c, f), ll, xi, n) == c * YiSum(f, ll, xi, n)
  {
    if n > 0 {
      YiSumScaled(c, f, ll, xi, n - 1);
      DxSumScaled(c, f, ll, xi, n - 1, ll);
    }
  }

  lemma {:induction false} XiSumScaled(c: real, f: Summand, ll: nat, n: nat)
    ensures XiSum(Scaled(c, f), ll, n) == c * XiSum(f, ll, n)
  {
    if n > 0 {
      XiSumScaled(c, f, ll, n - 1);
      YiSumScaled(c, f, ll, n - 1, ll);
    }
  }

  /** A constant factor of every summand factors out of the quadruple loop. */
  lemma Sum4Scaled(c: real, f: Summand, ll: nat)
    ensures Sum4(Scaled(c, f), ll) == c * Sum4(f, ll)
  {
    XiSumScaled(c, f, ll, ll);
  }

  /** Summands that agree on the loop range give the same sum. */
  lemma {:induction false} DySumCongruent(f: Summand, g: Summand, ll: nat, xi: nat, yi: nat, dx: nat, n: nat)
    requires n <= ll && xi < ll && yi < ll && dx < ll
    requires forall dy: nat :: dy < ll ==> f(xi, yi, dx, dy) == g(xi, yi, dx, dy)
    ensures DySum(f, xi, yi, dx, n) == DySum(g, xi, yi, dx, n)
  {
    if n > 0 {
      DySumCongruent(f, g, ll, xi, yi, dx, n - 1);
    }
  }

  lemma {:induction false} Sum4Congruent(f: Summand, g: Summand, ll: nat)
    requires forall xi: nat, yi: nat, dx: nat, dy: nat :: xi < ll && yi < ll && dx < ll && dy < ll ==>
               f(xi, yi, dx, dy) == g(xi, yi, dx, dy)
    ensures Sum4(f, ll) == Sum4(g, ll)
  {
    forall xi: nat, yi: nat, dx: nat, n: nat | xi < ll && yi < ll && dx < ll && n <= ll
      ensures DySum(f, xi, yi, dx, n) == DySum(g, xi, yi, dx, n)
    {
      DySumCongruent(f, g, ll, xi, yi, dx, n);
    }
    XiSumCongruent(f, g, ll, ll);
  }

  lemma {:induction false} XiSumCongruent(f: Summand, g: Summand, ll: nat, n: nat)
    requires n <= ll
    requires forall xi: nat, yi: nat, dx: nat :: xi < ll && yi < ll && dx < ll ==> DySum(f, xi, yi, dx, ll) == DySum(g, xi, yi, dx, ll)
    ensures XiSum(f, ll, n) == XiSum(g, ll, n)
  {
    if n > 0 {
      XiSumCongruent(f, g, ll, n - 1);
      YiSumCongruent(f, g, ll, n - 1, ll);
    }
  }

  lemma {:induction false} YiSumCongruent(f: Summand, g: Summand, ll: nat, xi: nat, n: nat)
    requires n <= ll && xi < ll
    requires forall xi: nat, yi: nat, dx: nat :: xi < ll && yi < ll && dx < ll ==> DySum(f, xi, yi, dx, ll) == DySum(g, xi, yi, dx, ll)
    ensures YiSum(f, ll, xi, n) == YiSum(g, ll, xi, n)
  {
    if n > 0 {
      YiSumCongruent(f, g, ll, xi, n - 1);
      DxSumCongruent(f, g, ll, xi, n - 1, ll);
    }
  }

  lemma {:induction false} DxSumCongruent(f: Summand, g: Summand, ll: nat, xi: nat, yi: nat, n: nat)
    requires n <= ll && xi < ll && yi < ll
    requires forall xi: nat, yi: nat, dx: nat :: xi < ll && yi < ll && dx < ll ==> DySum(f, xi, yi, dx, ll) == DySum(g, xi, yi, dx, ll)
    ensures DxSum(f, ll, xi, yi, n) == DxSum(g, ll, xi, yi, n)
  {
    if n > 0 {
      DxSumCongruent(f, g, ll, xi, yi, n - 1);
    }
  }

  /**
   * The loop nest of the time-displaced measurements: base point xi, yi and
   * displacement dx, dy, each over [0, ll), accumulating f at every point.
   */
  method LoopSum(f: Summand, ll: nat) returns (acc: real)
    ensures acc == Sum4(f, ll)
  {
    acc := 0.0;
    for xi := 0 to ll
      invariant acc == XiSum(f, ll, xi)
    {
      ghost var a0 := acc;
      for yi := 0 to ll
        invariant acc == a0 + YiSum(f, ll, xi, yi)
      {
        ghost var a1 := acc;
        for dx := 0 to ll
          invariant acc == a1 + DxSum(f, ll, xi, yi, dx)
        {
          ghost var a2 := acc;
          for dy := 0 to ll
            invariant acc == a2 + DySum(f, xi, yi, dx, dy)
          {
            acc := acc + f(xi, yi, dx, dy);
          }
        }
      }
    }
  }
}
