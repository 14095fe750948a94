/**
 * The bin accumulator behind every observable of the time-displaced
 * measurement: a temporary sum, a measurement count and one slot per bin.
 *
 * The accumulator's own class body is not part of this model; its behaviour
 * here is the one its uses in dynamic_measure.cpp require: `tmp_value()` is
 * the running sum, `operator++` counts one measurement, `clear_temporary`
 * resets the sum to the zero element and the count to 0, and
 * `bin_data()[bin] = tmp_value()` stores one bin. Values are exact reals.
 */
module Accumulators {

  /** A measured quantity: a scalar (sign, stiffness) or a vector indexed by time slice (Green's function, density of states). */
  datatype Value = Scalar(x: real) | Vector(v: seq<real>)

  predicate SameShape(a: Value, b: Value)
  {
    match (a, b)
    case (Scalar(_), Scalar(_)) => true
    case (Vector(u), Vector(w)) => |u| == |w|
    case _ => false
  }

  function ZeroVector(n: nat): (z: seq<real>)
    ensures |z| == n
  {
    seq(n, _ => 0.0)
  }

  /** The zero element of a's shape. */
  function ZeroOf(a: Value): (z: Value)
    ensures SameShape(z, a)
  {
    match a
    case Scalar(_) => Scalar(0.0)
    case Vector(u) => Vector(ZeroVector(|u|))
  }

  /** `tmp_value() += b`. */
  function Plus(a: Value, b: Value): (r: Value)
    requires SameShape(a, b)
    ensures SameShape(r, a)
  {
    match (a, b)
    case (Scalar(x), Scalar(y)) => Scalar(x + y)
    case (Vector(u), Vector(w)) => Vector(seq(|u|, k requires 0 <= k < |u| => u[k] + w[k]))
  }

  /** `tmp_value()(t) += x` on a vector. */
  function AddAt(a: Value, t: nat, x: real): (r: Value)
    requires a.Vector? && t < |a.v|
    ensures SameShape(r, a)
  {
    Vector(a.v[t := a.v[t] + x])
  }

  /** `tmp_value() /= d`. */
  function DivBy(a: Value, d: real): (r: Value)
    requires d != 0.0
    ensures SameShape(r, a)
  {
    match a
    case Scalar(x) => Scalar(x / d)
    case Vector(u) => Vector(seq(|u|, k requires 0 <= k < |u| => u[k] / d))
  }

  /** The vector with x at slot t and 0 elsewhere. */
  function Unit(n: nat, t: nat, x: real): (r: Value)
    requires t < n
    ensures r.Vector? && |r.v| == n
  {
    Vector(ZeroVector(n)[t := x])
  }

  // ---------------------------------------------------------------------
  // Algebra of the accumulated values
  // ---------------------------------------------------------------------

  /** The zero element is neutral for accumulation. */
  lemma PlusZero(a: Value)
    ensures Plus(ZeroOf(a), a) == a && Plus(a, ZeroOf(a)) == a
  {
    if a.Vector? {
      assert Plus(ZeroOf(a), a).v == a.v;
      assert Plus(a, ZeroOf(a)).v == a.v;
    }
  }

  lemma PlusAssociates(a: Value, b: Value, c: Value)
    requires SameShape(a, b) && SameShape(b, c)
    ensures Plus(Plus(a, b), c) == Plus(a, Plus(b, c))
  {
    if a.Vector? {
      assert Plus(Plus(a, b), c).v == Plus(a, Plus(b, c)).v;
    }
  }

  /** Adding at one slot is adding the unit vector of that slot; the other slots keep their value. */
  lemma AddAtIsPlusUnit(a: Value, t: nat, x: real)
    requires a.Vector? && t < |a.v|
    ensures AddAt(a, t, x) == Plus(a, Unit(|a.v|, t, x))
    ensures AddAt(a, t, x).v[t] == a.v[t] + x
    ensures forall k :: 0 <= k < |a.v| && k != t ==> AddAt(a, t, x).v[k] == a.v[k]
  {
    assert AddAt(a, t, x).v == Plus(a, Unit(|a.v|, t, x)).v;
  }

  /** Division distributes over accumulation. */
  lemma DivByPlus(a: Value, b: Value, d: real)
    requires SameShape(a, b) && d != 0.0
    ensures DivBy(Plus(a, b), d) == Plus(DivBy(a, d), DivBy(b, d))
  {
    if a.Vector? {
      forall k | 0 <= k < |a.v| ensures DivBy(Plus(a, b), d).v[k] == Plus(DivBy(a, d), DivBy(b, d)).v[k] {
        assert (a.v[k] + b.v[k]) / d == a.v[k] / d + b.v[k] / d;
      }
      assert DivBy(Plus(a, b), d).v == Plus(DivBy(a, d), DivBy(b, d)).v;
    }
  }

  /**
   * The divisor of `normalize_stats`: the count of measurements times the
   * mean sign. It is nonzero whenever both factors are.
   */
  function Normalizer(count: nat, meanSign: real): (d: real)
    ensures count > 0 && meanSign != 0.0 ==> d != 0.0
  {
    (count as real) * meanSign
  }

  /**
   * Dividing by the count times the mean sign s / n is dividing by the
   * sign sum s: normalised observables are ratios of sums.
   */
  lemma NormalizedIsRatio(o: Value, s: real, n: nat)
    requires n > 0 && s != 0.0
    ensures s / (n as real) != 0.0
    ensures DivBy(o, Normalizer(n, s / (n as real))) == DivBy(o, s)
  {
    var m := n as real;
    assert Normalizer(n, s / m) == m * (s / m) == s;
  }

  // ---------------------------------------------------------------------
  // Sums of measurements
  // ---------------------------------------------------------------------

  predicate AllShaped(xs: seq<Value>, zero: Value)
  {
    forall k :: 0 <= k < |xs| ==> SameShape(xs[k], zero)
  }

  /** n copies of z. */
  function Filled(n: nat, z: Value): (r: seq<Value>)
    ensures |r| == n && AllShaped(r, z)
  {
    seq(n, _ => z)
  }

  /** The temporary after measurements xs, starting from the zero element. */
  function Total(zero: Value, xs: seq<Value>): (r: Value)
    requires AllShaped(xs, zero)
    ensures SameShape(r, zero)
  {
    if |xs| == 0 then zero else Plus(Total(zero, xs[..|xs| - 1]), xs[|xs| - 1])
  }

  /** For a scalar accumulator the temporary is the plain sum of the measured values. */
  function ScalarSum(xs: seq<Value>): real
    requires forall k :: 0 <= k < |xs| ==> xs[k].Scalar?
  {
    if |xs| == 0 then 0.0 else ScalarSum(xs[..|xs| - 1]) + xs[|xs| - 1].x
  }

  lemma {:induction false} TotalOfScalars(xs: seq<Value>)
    requires forall k :: 0 <= k < |xs| ==> xs[k].Scalar?
    ensures AllShaped(xs, Scalar(0.0))
    ensures Total(Scalar(0.0), xs) == Scalar(ScalarSum(xs))
  {
    if |xs| > 0 {
      var front := xs[..|xs| - 1];
      assert forall k :: 0 <= k < |front| ==> front[k] == xs[k];
      TotalOfScalars(front);
    }
  }

  /** Slot t of a vector accumulator is the sum of slot t of the measured vectors. */
  function SlotSum(xs: seq<Value>, t: nat): real
    requires forall k :: 0 <= k < |xs| ==> xs[k].Vector? && t < |xs[k].v|
  {
    if |xs| == 0 then 0.0 else SlotSum(xs[..|xs| - 1], t) + xs[|xs| - 1].v[t]
  }

  lemma {:induction false} TotalOfVectors(xs: seq<Value>, n: nat)
    requires AllShaped(xs, Vector(ZeroVector(n)))
    ensures Total(Vector(ZeroVector(n)), xs).Vector?
    ensures forall t :: 0 <= t < n ==> Total(Vector(ZeroVector(n)), xs).v[t] == SlotSum(xs, t)
  {
    if |xs| > 0 {
      var front := xs[..|xs| - 1];
      assert forall k :: 0 <= k < |front| ==> front[k] == xs[k];
      TotalOfVectors(front, n);
    }
  }

  /** Splitting the measurements splits the sum. */
  lemma {:induction false} TotalAppend(zero: Value, xs: seq<Value>, ys: seq<Value>)
    requires AllShaped(xs, zero) && AllShaped(ys, zero) && zero == ZeroOf(zero)
    ensures AllShaped(xs + ys, zero)
    ensures Total(zero, xs + ys) == Plus(Total(zero, xs), Total(zero, ys))
    decreases |ys|
  {
    if |ys| == 0 {
      assert xs + ys == xs;
      PlusZero(Total(zero, xs));
      assert ZeroOf(Total(zero, xs)) == zero;
    } else {
      var ys', y := ys[..|ys| - 1], ys[|ys| - 1];
      assert forall k :: 0 <= k < |ys'| ==> ys'[k] == ys[k];
      TotalAppend(zero, xs, ys');
      var zs := xs + ys;
      assert zs[..|zs| - 1] == xs + ys';
      assert zs[|zs| - 1] == y;
      assert Total(zero, zs) == Plus(Total(zero, xs + ys'), y);
      assert Total(zero, ys) == Plus(Total(zero, ys'), y);
      PlusAssociates(Total(zero, xs), Total(zero, ys'), y);
    }
  }

  // ---------------------------------------------------------------------
  // The accumulator object
  // ---------------------------------------------------------------------

  class Observable {
    /** `set_size_of_bin`: the number of bins. */
    var sizeOfBin: nat
    /** `set_zero_element`: what the temporary is reset to. */
    var zero: Value
    /** `tmp_value()`. */
    var tmp: Value
    /** `counts()`. */
    var count: nat
    /** `bin_data()`. */
    var bins: seq<Value>

    /** After `allocate`: one slot per bin, every value shaped like the zero element. */
    predicate Allocated()
      reads this
    {
      && |bins| == sizeOfBin
      && SameShape(tmp, zero)
      && AllShaped(bins, zero)
    }

    constructor ()
      ensures sizeOfBin == 0 && bins == [] && count == 0
      ensures zero == Scalar(0.0) && tmp == Scalar(0.0)
    {
      sizeOfBin := 0;
      zero := Scalar(0.0);
      tmp := Scalar(0.0);
      count := 0;
      bins := [];
    }

    method SetSizeOfBin(n: nat)
      modifies this
      ensures sizeOfBin == n
      ensures zero == old(zero) && tmp == old(tmp) && count == old(count) && bins == old(bins)
    {
      sizeOfBin := n;
    }

    method SetZeroElement(z: Value)
      modifies this
      ensures zero == z
      ensures sizeOfBin == old(sizeOfBin) && tmp == old(tmp) && count == old(count) && bins == old(bins)
    {
      zero := z;
    }

    /** `allocate`: every bin and the temporary hold the zero element, no measurement counted. */
    method Allocate()
      modifies this
      ensures Allocated()
      ensures bins == Filled(sizeOfBin, zero) && tmp == zero && count == 0
      ensures sizeOfBin == old(sizeOfBin) && zero == old(zero)
    {
      bins := Filled(sizeOfBin, zero);
      tmp := zero;
      count := 0;
    }

    /** `clear_temporary`: the temporary goes back to the zero element and the count to 0; no bin changes. */
    method ClearTemporary()
      modifies this
      ensures tmp == zero && count == 0
      ensures bins == old(bins) && zero == old(zero) && sizeOfBin == old(sizeOfBin)
      ensures old(Allocated()) ==> Allocated()
    {
      tmp := zero;
      count := 0;
    }

    /** `tmp_value() += x`. */
    method Add(x: Value)
      requires SameShape(tmp, x)
      modifies this
      ensures tmp == Plus(old(tmp), x)
      ensures count == old(count) && bins == old(bins) && zero == old(zero) && sizeOfBin == old(sizeOfBin)
      ensures old(Allocated()) ==> Allocated()
    {
      tmp := Plus(tmp, x);
    }

    /** `tmp_value()(t) += x`. */
    method AddAtSlot(t: nat, x: real)
      requires tmp.Vector? && t < |tmp.v|
      modifies this
      ensures tmp == AddAt(old(tmp), t, x)
      ensures count == old(count) && bins == old(bins) && zero == old(zero) && sizeOfBin == old(sizeOfBin)
      ensures old(Allocated()) ==> Allocated()
    {
      tmp := AddAt(tmp, t, x);
    }

    /** `++observable`: one more measurement. */
    method Increment()
      modifies this
      ensures count == old(count) + 1
      ensures tmp == old(tmp) && bins == old(bins) && zero == old(zero) && sizeOfBin == old(sizeOfBin)
    {
      count := count + 1;
    }

    /** `tmp_value() /= d`. */
    method Divide(d: real)
      requires d != 0.0
      modifies this
      ensures tmp == DivBy(old(tmp), d)
      ensures count == old(count) && bins == old(bins) && zero == old(zero) && sizeOfBin == old(sizeOfBin)
      ensures old(Allocated()) ==> Allocated()
    {
      tmp := DivBy(tmp, d);
    }

    /** `bin_data()[bin] = tmp_value()`: only slot bin changes. */
    method WriteToBin(bin: nat)
      requires bin < |bins|
      modifies this
      ensures bins == old(bins)[bin := old(tmp)]
      ensures tmp == old(tmp) && count == old(count) && zero == old(zero) && sizeOfBin == old(sizeOfBin)
      ensures old(Allocated()) ==> Allocated()
    {
      bins := bins[bin := tmp];
    }
  }
}
