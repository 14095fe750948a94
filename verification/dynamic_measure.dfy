/**
 * Time-displaced ("dynamic") measurements of the determinant QMC: the
 * Matsubara Green's function G(q, tau), the density of states and the
 * superfluid stiffness, accumulated per configuration into four bin
 * accumulators and normalised per bin by the mean sign.
 *
 * A configuration is represented by the `Hubbard` value the measurements
 * read: the lattice extents, the hopping t, the configuration sign and the
 * six stacks of time-displaced Green's functions, one ls x ls matrix per
 * time slice. A matrix is its entry function (row, column) -> real; only
 * entries with both indices in [0, ls) are ever read, which the index
 * lemmas below establish. How the matrices are produced is not part of
 * this model. The cosine phases enter as tables over the displacement
 * (dx, dy): cos(-r.q) for the Green's function and cos(r.qx) - cos(r.qy)
 * for the stiffness.
 */
module TimeDisplaced {
  import opened Accumulators
  import Lattice
  import Sums

  /** Entries (row, column) of an ls x ls matrix, or (dx, dy) of a phase table. */
  type Matrix = (nat, nat) -> real

  /** What a measurement reads of the model after a forward sweep. */
  datatype Hubbard = Hubbard(
    ll: nat, lt: nat, t: real, configSign: real,
    greenT0Up: seq<Matrix>, green0TUp: seq<Matrix>, greenTTUp: seq<Matrix>,
    greenT0Dn: seq<Matrix>, green0TDn: seq<Matrix>, greenTTDn: seq<Matrix>)

  /** Number of sites, ll * ll. */
  function Ls(h: Hubbard): nat
  {
    h.ll * h.ll
  }

  /** A nonempty lattice and one matrix per time slice in every stack. */
  predicate WellFormed(h: Hubbard)
  {
    && h.ll >= 1 && h.lt >= 1 && Ls(h) >= 1
    && |h.greenT0Up| == h.lt && |h.green0TUp| == h.lt && |h.greenTTUp| == h.lt
    && |h.greenT0Dn| == h.lt && |h.green0TDn| == h.lt && |h.greenTTDn| == h.lt
  }

  // ---------------------------------------------------------------------
  // The Green's function of measurement slot t
  // ---------------------------------------------------------------------

  /** Entrywise 0.5 * (a + b). */
  function HalfSum(a: Matrix, b: Matrix): Matrix
  {
    (r: nat, c: nat) => 0.5 * (a(r, c) + b(r, c))
  }

  /**
   * gt0 of slot t: the spin average 0.5 * (G + G) of G_tt at the last slice
   * for t == 0 and of G_t0 at slice t-1 otherwise.
   */
  function SlotGreen(h: Hubbard, t: nat): Matrix
    requires WellFormed(h) && t < h.lt
  {
    if t == 0 then HalfSum(h.greenTTUp[h.lt - 1], h.greenTTUp[h.lt - 1])
    else HalfSum(h.greenT0Up[t - 1], h.greenT0Up[t - 1])
  }

  /**
   * Both operands of the spin average are the spin-up matrix, so gt0 is the
   * spin-up Green's function of slice SliceOf(t) itself, entry by entry;
   * the spin-down stacks are never read by the Green's function or the
   * density of states.
   */
  lemma SlotGreenIsSpinUp(h: Hubbard, t: nat)
    requires WellFormed(h) && t < h.lt
    ensures Lattice.SliceOf(t, h.lt) < h.lt
    ensures forall r: nat, c: nat :: SlotGreen(h, t)(r, c)
              == (if t == 0 then h.greenTTUp[Lattice.SliceOf(t, h.lt)] else h.greenT0Up[Lattice.SliceOf(t, h.lt)])(r, c)
    ensures forall h' :: WellFormed(h') && h'.ll == h.ll && h'.lt == h.lt && h'.greenTTUp == h.greenTTUp && h'.greenT0Up == h.greenT0Up
              ==> SlotGreen(h', t) == SlotGreen(h, t)
  {
  }

  // ---------------------------------------------------------------------
  // Matsubara Green's function
  // ---------------------------------------------------------------------

  /** sign * phase * x / n. */
  function Weighted(sign: real, phase: real, x: real, n: nat): real
    requires n > 0
  {
    sign * phase * x / (n as real)
  }

  /** Term (xi, yi, dx, dy) of G(q, t): sign * cos(-r.q) * gt0(j, i) / ls with i = (xi, yi) and j = i + r. */
  function GreensTerm(h: Hubbard, phase: Matrix, g: Matrix, xi: nat, yi: nat, dx: nat, dy: nat): real
    requires WellFormed(h)
  {
    Weighted(h.configSign, phase(dx, dy), g(Lattice.Translated(xi, yi, dx, dy, h.ll), Lattice.SiteIndex(xi, yi, h.ll)), Ls(h))
  }

  /** The summand of the quadruple loop over base point and displacement (0 outside the lattice). */
  function GreensSummand(h: Hubbard, phase: Matrix, g: Matrix): Sums.Summand
    requires WellFormed(h)
  {
    (xi: nat, yi: nat, dx: nat, dy: nat) =>
      if xi < h.ll && yi < h.ll && dx < h.ll && dy < h.ll then GreensTerm(h, phase, g, xi, yi, dx, dy) else 0.0
  }

  /** The increment `measure_matsubara_greens` adds to slot t. */
  function GreensAt(h: Hubbard, phase: Matrix, t: nat): real
    requires WellFormed(h) && t < h.lt
  {
    Sums.Sum4(GreensSummand(h, phase, SlotGreen(h, t)), h.ll)
  }

  /** The increment a whole configuration adds to the Green's function vector. */
  function GreensIncrement(h: Hubbard, phase: Matrix): (r: seq<real>)
    requires WellFormed(h)
    ensures |r| == h.lt
  {
    seq(h.lt, t requires 0 <= t < h.lt => GreensAt(h, phase, t))
  }

  /**
   * The sign enters as a common factor: the measured value is the sign
   * times the value the same Green's functions give with sign 1.
   */
  lemma GreensLinearInSign(h: Hubbard, phase: Matrix, t: nat)
    requires WellFormed(h) && t < h.lt
    ensures GreensAt(h, phase, t) == h.configSign * GreensAt(h.(configSign := 1.0), phase, t)
  {
    var h1 := h.(configSign := 1.0);
    var g := SlotGreen(h, t);
    assert SlotGreen(h1, t) == g;
    var f := GreensSummand(h, phase, g);
    var f1 := GreensSummand(h1, phase, g);
    forall xi: nat, yi: nat, dx: nat, dy: nat | xi < h.ll && yi < h.ll && dx < h.ll && dy < h.ll
      ensures f(xi, yi, dx, dy) == Sums.Scaled(h.configSign, f1)(xi, yi, dx, dy)
    {
      assert f(xi, yi, dx, dy) == GreensTerm(h, phase, g, xi, yi, dx, dy);
      assert f1(xi, yi, dx, dy) == GreensTerm(h1, phase, g, xi, yi, dx, dy);
    }
    Sums.Sum4Congruent(f, Sums.Scaled(h.configSign, f1), h.ll);
    Sums.Sum4Scaled(h.configSign, f1, h.ll);
  }

  // ---------------------------------------------------------------------
  // Density of states
  // ---------------------------------------------------------------------

  /** Sum of the first n diagonal entries. */
  function Trace(m: Matrix, n: nat): real
  {
    if n == 0 then 0.0 else Trace(m, n - 1) + m(n - 1, n - 1)
  }

  /** The increment `measure_density_of_states` adds to slot t: sign * tr(gt0) / ls. */
  function DensityAt(h: Hubbard, t: nat): real
    requires WellFormed(h) && t < h.lt
  {
    h.configSign * Trace(SlotGreen(h, t), Ls(h)) / (Ls(h) as real)
  }

  function DensityIncrement(h: Hubbard): (r: seq<real>)
    requires WellFormed(h)
    ensures |r| == h.lt
  {
    seq(h.lt, t requires 0 <= t < h.lt => DensityAt(h, t))
  }

  /** Diagonal entries g(i, i) of the sites i = (x, y) with x < n, in order of x. */
  function RowDiagonal(g: Matrix, ll: nat, y: nat, n: nat): real
  {
    if n == 0 then 0.0 else RowDiagonal(g, ll, y, n - 1) + g(Lattice.SiteIndex(n - 1, y, ll), Lattice.SiteIndex(n - 1, y, ll))
  }

  /** Diagonal entries g(i, i) of the sites in rows y < n, row by row. */
  function SiteSum(g: Matrix, ll: nat, n: nat): real
  {
    if n == 0 then 0.0 else SiteSum(g, ll, n - 1) + RowDiagonal(g, ll, n - 1, ll)
  }

  lemma {:induction false} TraceRow(g: Matrix, ll: nat, y: nat, n: nat)
    requires n <= ll
    ensures Trace(g, ll * y + n) == Trace(g, ll * y) + RowDiagonal(g, ll, y, n)
  {
    if n > 0 {
      TraceRow(g, ll, y, n - 1);
      assert Lattice.SiteIndex(n - 1, y, ll) == ll * y + n - 1;
    }
  }

  /** The trace visits every site once: it is the sum of g(i, i) over the sites, row by row. */
  lemma {:induction false} TraceIsSiteSum(g: Matrix, ll: nat, n: nat)
    ensures Trace(g, ll * n) == SiteSum(g, ll, n)
  {
    if n > 0 {
      TraceIsSiteSum(g, ll, n - 1);
      assert ll * n == ll * (n - 1) + ll;
      TraceRow(g, ll, n - 1, ll);
    }
  }

  // ---------------------------------------------------------------------
  // Superfluid stiffness
  // ---------------------------------------------------------------------

  /**
   * The current-current correlation of the bonds (i, ipx) at time 0 and
   * (j, jpx) at slice tau: the uncorrelated part minus the four correlated
   * products of each spin.
   */
  function CurrentCurrent(h: Hubbard, tau: nat, i: nat, ipx: nat, j: nat, jpx: nat): real
    requires WellFormed(h) && tau < h.lt
  {
    var g00U, g00D := h.greenTTUp[h.lt - 1], h.greenTTDn[h.lt - 1];
    var gt0U, g0tU, gttU := h.greenT0Up[tau], h.green0TUp[tau], h.greenTTUp[tau];
    var gt0D, g0tD, gttD := h.greenT0Dn[tau], h.green0TDn[tau], h.greenTTDn[tau];
    - (gttU(j, jpx) - gttU(jpx, j) + gttD(j, jpx) - gttD(jpx, j))
      * (g00U(i, ipx) - g00U(ipx, i) + g00D(i, ipx) - g00D(ipx, i))
    - g0tU(ipx, jpx) * gt0U(j, i) - g0tD(ipx, jpx) * gt0D(j, i)
    + g0tU(i, jpx) * gt0U(j, ipx) + g0tD(i, jpx) * gt0D(j, ipx)
    + g0tU(ipx, j) * gt0U(jpx, i) + g0tD(ipx, j) * gt0D(jpx, i)
    - g0tU(i, j) * gt0U(jpx, ipx) - g0tD(i, j) * gt0D(jpx, ipx)
  }

  /** t * t * factor * c. */
  function Hopping(t: real, factor: real, c: real): real
  {
    t * t * factor * c
  }

  /**
   * Term (xi, yi, dx, dy) at slice tau: t^2 * sign * phase(r) times the
   * correlation of the bonds from i = (xi, yi) and from j = i + r to their
   * +x neighbours.
   */
  function StiffnessTerm(h: Hubbard, phase: Matrix, tau: nat, xi: nat, yi: nat, dx: nat, dy: nat): real
    requires WellFormed(h) && tau < h.lt
  {
    var i := Lattice.SiteIndex(xi, yi, h.ll);
    var j := Lattice.Translated(xi, yi, dx, dy, h.ll);
    Hopping(h.t, h.configSign * phase(dx, dy), CurrentCurrent(h, tau, i, Lattice.PlusX(i, h.ll), j, Lattice.PlusX(j, h.ll)))
  }

  function StiffnessSummand(h: Hubbard, phase: Matrix, tau: nat): Sums.Summand
    requires WellFormed(h) && tau < h.lt
  {
    (xi: nat, yi: nat, dx: nat, dy: nat) =>
      if xi < h.ll && yi < h.ll && dx < h.ll && dy < h.ll then StiffnessTerm(h, phase, tau, xi, yi, dx, dy) else 0.0
  }

  /** What slice tau contributes to rho_s. */
  function SliceContribution(h: Hubbard, phase: Matrix, tau: nat): real
    requires WellFormed(h) && tau < h.lt
  {
    Sums.Sum4(StiffnessSummand(h, phase, tau), h.ll)
  }

  /** Contributions of the slices the slots l < n read, in slot order. */
  function SlotTotal(h: Hubbard, phase: Matrix, n: nat): real
    requires WellFormed(h) && n <= h.lt
  {
    if n == 0 then 0.0
    else SlotTotal(h, phase, n - 1) + SliceContribution(h, phase, Lattice.SliceOf(n - 1, h.lt))
  }

  /** Contributions of the slices tau < n, in slice order. */
  function SliceTotal(h: Hubbard, phase: Matrix, n: nat): real
    requires WellFormed(h) && n <= h.lt
  {
    if n == 0 then 0.0 else SliceTotal(h, phase, n - 1) + SliceContribution(h, phase, n - 1)
  }

  /** The increment `measure_superfluid_stiffness` adds: 0.25 * rho_s / ls / ls. */
  function StiffnessAt(h: Hubbard, phase: Matrix): real
    requires WellFormed(h)
  {
    PerSitePair(SlotTotal(h, phase, h.lt), Ls(h))
  }

  /** `0.25 * rho / ls / ls`: the slice sum per pair of sites, with the 1/4 of the current vertex. */
  function PerSitePair(rho: real, ls: nat): real
    requires ls > 0
  {
    0.25 * rho / (ls as real) / (ls as real)
  }

  lemma {:induction false} SlotTotalRotated(h: Hubbard, phase: Matrix, n: nat)
    requires WellFormed(h) && 1 <= n <= h.lt
    ensures SlotTotal(h, phase, n) == SliceContribution(h, phase, h.lt - 1) + SliceTotal(h, phase, n - 1)
  {
    if n > 1 {
      SlotTotalRotated(h, phase, n - 1);
    }
  }

  /**
   * The slot loop reads every slice exactly once (slot 0 the last slice,
   * slot l the slice l-1), so the stiffness is the sum over all slices.
   */
  lemma StiffnessCoversEverySlice(h: Hubbard, phase: Matrix)
    requires WellFormed(h)
    ensures SlotTotal(h, phase, h.lt) == SliceTotal(h, phase, h.lt)
  {
    SlotTotalRotated(h, phase, h.lt);
  }

  /** The slot loop of `measure_superfluid_stiffness`: slot l reads slice SliceOf(l). */
  method StiffnessSum(h: Hubbard, phase: Matrix) returns (rho: real)
    requires WellFormed(h)
    ensures rho == SliceTotal(h, phase, h.lt)
  {
    rho := 0.0;
    for l := 0 to h.lt
      invariant rho == SlotTotal(h, phase, l)
    {
      var tau := if l == 0 then h.lt - 1 else l - 1;
      var slice := Sums.LoopSum(StiffnessSummand(h, phase, tau), h.ll);
      rho := rho + slice;
    }
    StiffnessCoversEverySlice(h, phase);
  }

  // ---------------------------------------------------------------------
  // Sums over the measurements of one bin
  // ---------------------------------------------------------------------

  /** Configurations measured into accumulators shaped for lt slices. */
  predicate Conforming(hs: seq<Hubbard>, lt: nat)
  {
    forall k :: 0 <= k < |hs| ==> WellFormed(hs[k]) && hs[k].lt == lt
  }

  /** Sum of the configuration signs. */
  function SignSum(hs: seq<Hubbard>): real
  {
    if |hs| == 0 then 0.0 else SignSum(hs[..|hs| - 1]) + hs[|hs| - 1].configSign
  }

  /** The Green's function temporary after measuring hs from the zero vector. */
  function GreensTotal(hs: seq<Hubbard>, phase: Matrix, lt: nat): (r: Value)
    requires Conforming(hs, lt)
    ensures r.Vector? && |r.v| == lt
  {
    if |hs| == 0 then Vector(ZeroVector(lt))
    else Plus(GreensTotal(hs[..|hs| - 1], phase, lt), Vector(GreensIncrement(hs[|hs| - 1], phase)))
  }

  /** The density-of-states temporary after measuring hs from the zero vector. */
  function DensityTotal(hs: seq<Hubbard>, lt: nat): (r: Value)
    requires Conforming(hs, lt)
    ensures r.Vector? && |r.v| == lt
  {
    if |hs| == 0 then Vector(ZeroVector(lt))
    else Plus(DensityTotal(hs[..|hs| - 1], lt), Vector(DensityIncrement(hs[|hs| - 1])))
  }

  /** The stiffness temporary after measuring hs from zero. */
  function StiffnessTotal(hs: seq<Hubbard>, phase: Matrix): real
    requires forall k :: 0 <= k < |hs| ==> WellFormed(hs[k])
  {
    if |hs| == 0 then 0.0
    else StiffnessTotal(hs[..|hs| - 1], phase) + StiffnessAt(hs[|hs| - 1], phase)
  }

  /**
   * A bin whose configurations all have a positive sign has a positive sign
   * sum, so `normalize_stats` can divide by it.
   */
  lemma {:induction false} SignSumPositive(hs: seq<Hubbard>)
    requires |hs| > 0
    requires forall k :: 0 <= k < |hs| ==> hs[k].configSign > 0.0
    ensures SignSum(hs) > 0.0
  {
    if |hs| > 1 {
      SignSumPositive(hs[..|hs| - 1]);
    }
  }

  /** Slot t of the Green's function total is the sum over the bin of the slot-t measurements. */
  function GreensSlotSum(hs: seq<Hubbard>, phase: Matrix, t: nat): real
    requires forall k :: 0 <= k < |hs| ==> WellFormed(hs[k]) && t < hs[k].lt
  {
    if |hs| == 0 then 0.0
    else GreensSlotSum(hs[..|hs| - 1], phase, t) + GreensAt(hs[|hs| - 1], phase, t)
  }

  lemma {:induction false} GreensTotalSlots(hs: seq<Hubbard>, phase: Matrix, lt: nat, t: nat)
    requires Conforming(hs, lt) && t < lt
    ensures GreensTotal(hs, phase, lt).v[t] == GreensSlotSum(hs, phase, t)
  {
    if |hs| > 0 {
      GreensTotalSlots(hs[..|hs| - 1], phase, lt, t);
    }
  }

  /**
   * The values a bin holds after `normalize_stats` and `write_stats_to_bins`
   * when its measurements were hs: the mean sign, and every other
   * observable as its sum over the bin divided by the bin's sign sum.
   */
  predicate BinValues(sign: Value, greens: Value, dos: Value, stiffness: Value,
                      hs: seq<Hubbard>, phaseQ: Matrix, phaseStiffness: Matrix, lt: nat)
    requires Conforming(hs, lt)
  {
    && |hs| > 0 && SignSum(hs) != 0.0
    && sign == Scalar(SignSum(hs) / (|hs| as real))
    && greens == DivBy(GreensTotal(hs, phaseQ, lt), SignSum(hs))
    && dos == DivBy(DensityTotal(hs, lt), SignSum(hs))
    && stiffness == DivBy(Scalar(StiffnessTotal(hs, phaseStiffness)), SignSum(hs))
  }

  /** One more configuration: every total grows by that configuration's increment. */
  lemma TotalsStep(hs: seq<Hubbard>, h: Hubbard, phaseQ: Matrix, phaseStiffness: Matrix, lt: nat)
    requires Conforming(hs, lt) && WellFormed(h) && h.lt == lt
    ensures Conforming(hs + [h], lt)
    ensures SignSum(hs + [h]) == SignSum(hs) + h.configSign
    ensures GreensTotal(hs + [h], phaseQ, lt) == Plus(GreensTotal(hs, phaseQ, lt), Vector(GreensIncrement(h, phaseQ)))
    ensures DensityTotal(hs + [h], lt) == Plus(DensityTotal(hs, lt), Vector(DensityIncrement(h)))
    ensures StiffnessTotal(hs + [h], phaseStiffness) == StiffnessTotal(hs, phaseStiffness) + StiffnessAt(h, phaseStiffness)
  {
    assert (hs + [h])[..|hs|] == hs;
  }

  /**
   * `normalize_stats` on the totals of hs: dividing each total by the count
   * times the mean sign is dividing it by the sign sum, so the normalised
   * temporaries are the bin values of hs.
   */
  lemma NormalizedBin(hs: seq<Hubbard>, phaseQ: Matrix, phaseStiffness: Matrix, lt: nat)
    requires Conforming(hs, lt) && SignSum(hs) != 0.0
    ensures |hs| > 0
    ensures var mean := SignSum(hs) / (|hs| as real);
            && mean != 0.0
            && BinValues(Scalar(mean),
                         DivBy(GreensTotal(hs, phaseQ, lt), Normalizer(|hs|, mean)),
                         DivBy(DensityTotal(hs, lt), Normalizer(|hs|, mean)),
                         DivBy(Scalar(StiffnessTotal(hs, phaseStiffness)), Normalizer(|hs|, mean)),
                         hs, phaseQ, phaseStiffness, lt)
  {
    var total := SignSum(hs);
    NormalizedIsRatio(GreensTotal(hs, phaseQ, lt), total, |hs|);
    NormalizedIsRatio(DensityTotal(hs, lt), total, |hs|);
    NormalizedIsRatio(Scalar(StiffnessTotal(hs, phaseStiffness)), total, |hs|);
  }

  // ---------------------------------------------------------------------
  // The measuring object
  // ---------------------------------------------------------------------

  /** Bins, zero element and bin count of o are as they were. */
  twostate predicate BinsKept(o: Observable)
    reads o
  {
    o.bins == old(o.bins) && o.zero == old(o.zero) && o.sizeOfBin == old(o.sizeOfBin)
  }

  class DynamicMeasure {
    var nbin: nat
    /** cos(-r.q) for the measured momentum q, indexed (dx, dy). */
    var phaseQ: Matrix
    /** cos(r.qx) - cos(r.qy) with qx = (2 pi/ll, 0), qy = (0, 2 pi/ll), indexed (dx, dy). */
    var phaseStiffness: Matrix
    const sign: Observable
    const greens: Observable
    const dos: Observable
    const stiffness: Observable

    /** The four accumulators are distinct objects. */
    predicate Valid()
      reads this
    {
      && sign != greens && sign != dos && sign != stiffness
      && greens != dos && greens != stiffness && dos != stiffness
    }

    /** The temporaries have the shapes `initial` gives them for h. */
    predicate Shaped(h: Hubbard)
      reads this, sign, greens, dos, stiffness
    {
      && sign.tmp.Scalar? && stiffness.tmp.Scalar?
      && greens.tmp.Vector? && |greens.tmp.v| == h.lt
      && dos.tmp.Vector? && |dos.tmp.v| == h.lt
    }

    /** `initial` has run for n bins and lt slices: zero elements set, bins allocated. */
    predicate Prepared(n: nat, lt: nat)
      reads this, sign, greens, dos, stiffness
    {
      && sign.zero == Scalar(0.0) && stiffness.zero == Scalar(0.0)
      && greens.zero == Vector(ZeroVector(lt)) && dos.zero == Vector(ZeroVector(lt))
      && sign.Allocated() && greens.Allocated() && dos.Allocated() && stiffness.Allocated()
      && |sign.bins| == n && |greens.bins| == n && |dos.bins| == n && |stiffness.bins| == n
    }

    /** The temporaries and counts after measuring the configurations hs since the last clear. */
    predicate Accumulated(hs: seq<Hubbard>, lt: nat)
      requires Conforming(hs, lt)
      reads this, sign, greens, dos, stiffness
    {
      && sign.tmp == Scalar(SignSum(hs)) && stiffness.tmp == Scalar(StiffnessTotal(hs, phaseStiffness))
      && greens.tmp == GreensTotal(hs, phaseQ, lt) && dos.tmp == DensityTotal(hs, lt)
      && sign.count == |hs| && greens.count == |hs| && dos.count == |hs| && stiffness.count == |hs|
    }

    constructor (nbin: nat, phaseQ: Matrix, phaseStiffness: Matrix)
      ensures Valid()
      ensures this.nbin == nbin && this.phaseQ == phaseQ && this.phaseStiffness == phaseStiffness
      ensures fresh(sign) && fresh(greens) && fresh(dos) && fresh(stiffness)
    {
      this.nbin := nbin;
      this.phaseQ := phaseQ;
      this.phaseStiffness := phaseStiffness;
      sign := new Observable();
      greens := new Observable();
      dos := new Observable();
      stiffness := new Observable();
    }

    /** `resize`: only the bin count changes. */
    method Resize(n: nat)
      modifies this
      ensures nbin == n && phaseQ == old(phaseQ) && phaseStiffness == old(phaseStiffness)
    {
      nbin := n;
    }

    /**
     * `initial`: every accumulator gets nbin bins; sign and stiffness are
     * scalars, Green's function and density of states vectors of length lt;
     * all bins and temporaries hold zero and no measurement is counted.
     */
    method Initial(h: Hubbard)
      requires Valid()
      modifies sign, greens, dos, stiffness
      ensures sign.sizeOfBin == nbin && greens.sizeOfBin == nbin && dos.sizeOfBin == nbin && stiffness.sizeOfBin == nbin
      ensures sign.zero == Scalar(0.0) && stiffness.zero == Scalar(0.0)
      ensures greens.zero == Vector(ZeroVector(h.lt)) && dos.zero == Vector(ZeroVector(h.lt))
      ensures sign.Allocated() && greens.Allocated() && dos.Allocated() && stiffness.Allocated()
      ensures sign.bins == Filled(nbin, sign.zero) && greens.bins == Filled(nbin, greens.zero)
      ensures dos.bins == Filled(nbin, dos.zero) && stiffness.bins == Filled(nbin, stiffness.zero)
      ensures sign.tmp == sign.zero && greens.tmp == greens.zero && dos.tmp == dos.zero && stiffness.tmp == stiffness.zero
      ensures sign.count == 0 && greens.count == 0 && dos.count == 0 && stiffness.count == 0
      ensures Shaped(h)
    {
      sign.SetSizeOfBin(nbin);
      greens.SetSizeOfBin(nbin);
      dos.SetSizeOfBin(nbin);
      stiffness.SetSizeOfBin(nbin);
      sign.SetZeroElement(Scalar(0.0));
      greens.SetZeroElement(Vector(ZeroVector(h.lt)));
      dos.SetZeroElement(Vector(ZeroVector(h.lt)));
      stiffness.SetZeroElement(Scalar(0.0));
      sign.Allocate();
      greens.Allocate();
      dos.Allocate();
      stiffness.Allocate();
    }

    /** `clear_temporary`: temporaries back to zero, counts to 0, no bin touched. */
    method ClearTemporary()
      requires Valid()
      modifies sign, greens, dos, stiffness
      ensures sign.tmp == sign.zero && greens.tmp == greens.zero && dos.tmp == dos.zero && stiffness.tmp == stiffness.zero
      ensures sign.count == 0 && greens.count == 0 && dos.count == 0 && stiffness.count == 0
      ensures BinsKept(sign) && BinsKept(greens) && BinsKept(dos) && BinsKept(stiffness)
      ensures old(sign.Allocated()) ==> sign.Allocated()
      ensures old(greens.Allocated()) ==> greens.Allocated()
      ensures old(dos.Allocated()) ==> dos.Allocated()
      ensures old(stiffness.Allocated()) ==> stiffness.Allocated()
    {
      sign.ClearTemporary();
      greens.ClearTemporary();
      dos.ClearTemporary();
      stiffness.ClearTemporary();
    }

    /** `measure_matsubara_greens(t)`: slot t of the Green's function temporary grows by GreensAt(t). */
    method MeasureMatsubaraGreens(t: nat, h: Hubbard)
      requires WellFormed(h) && t < h.lt
      requires greens.tmp.Vector? && |greens.tmp.v| == h.lt
      modifies greens
      ensures greens.tmp == AddAt(old(greens.tmp), t, GreensAt(h, phaseQ, t))
      ensures greens.count == old(greens.count) && BinsKept(greens)
      ensures old(greens.Allocated()) ==> greens.Allocated()
    {
      var gt0 := SlotGreen(h, t);
      var acc := Sums.LoopSum(GreensSummand(h, phaseQ, gt0), h.ll);
      greens.AddAtSlot(t, acc);
    }

    /** `measure_density_of_states(t)`: slot t grows by sign * tr(gt0) / ls. */
    method MeasureDensityOfStates(t: nat, h: Hubbard)
      requires WellFormed(h) && t < h.lt
      requires dos.tmp.Vector? && |dos.tmp.v| == h.lt
      modifies dos
      ensures dos.tmp == AddAt(old(dos.tmp), t, DensityAt(h, t))
      ensures dos.count == old(dos.count) && BinsKept(dos)
      ensures old(dos.Allocated()) ==> dos.Allocated()
    {
      dos.AddAtSlot(t, DensityAt(h, t));
    }

    /** `measure_superfluid_stiffness`: the temporary grows by 0.25 * rho_s / ls / ls. */
    method MeasureSuperfluidStiffness(h: Hubbard)
      requires WellFormed(h)
      requires stiffness.tmp.Scalar?
      modifies stiffness
      ensures stiffness.tmp == Plus(old(stiffness.tmp), Scalar(StiffnessAt(h, phaseStiffness)))
      ensures stiffness.count == old(stiffness.count) && BinsKept(stiffness)
      ensures old(stiffness.Allocated()) ==> stiffness.Allocated()
    {
      var rho := StiffnessSum(h, phaseStiffness);
      StiffnessCoversEverySlice(h, phaseStiffness);
      stiffness.Add(Scalar(PerSitePair(rho, Ls(h))));
    }

    /**
     * The loop over time slots of `time_displaced_measure`: every slot of the
     * Green's function and the density of states grows by its increment.
     */
    method MeasureSlots(h: Hubbard)
      requires Valid() && WellFormed(h)
      requires greens.tmp.Vector? && |greens.tmp.v| == h.lt && dos.tmp.Vector? && |dos.tmp.v| == h.lt
      modifies greens, dos
      ensures greens.tmp == Plus(old(greens.tmp), Vector(GreensIncrement(h, phaseQ)))
      ensures dos.tmp == Plus(old(dos.tmp), Vector(DensityIncrement(h)))
      ensures greens.count == old(greens.count) && dos.count == old(dos.count)
      ensures BinsKept(greens) && BinsKept(dos)
      ensures old(greens.Allocated()) ==> greens.Allocated()
      ensures old(dos.Allocated()) ==> dos.Allocated()
    {
      for l := 0 to h.lt
        invariant greens.tmp.Vector? && |greens.tmp.v| == h.lt && dos.tmp.Vector? && |dos.tmp.v| == h.lt
        invariant forall t :: 0 <= t < h.lt ==>
                    greens.tmp.v[t] == old(greens.tmp).v[t] + (if t < l then GreensAt(h, phaseQ, t) else 0.0)
        invariant forall t :: 0 <= t < h.lt ==>
                    dos.tmp.v[t] == old(dos.tmp).v[t] + (if t < l then DensityAt(h, t) else 0.0)
        invariant greens.count == old(greens.count) && dos.count == old(dos.count)
        invariant BinsKept(greens) && BinsKept(dos)
        invariant old(greens.Allocated()) ==> greens.Allocated()
        invariant old(dos.Allocated()) ==> dos.Allocated()
      {
        MeasureMatsubaraGreens(l, h);
        MeasureDensityOfStates(l, h);
      }
      assert greens.tmp.v == Plus(old(greens.tmp), Vector(GreensIncrement(h, phaseQ))).v;
      assert dos.tmp.v == Plus(old(dos.tmp), Vector(DensityIncrement(h))).v;
    }

    /**
     * `time_displaced_measure`: the sign temporary grows by the
     * configuration sign, every slot of the Green's function and density
     * of states by its increment, the stiffness by its increment, and each
     * of the four counts by one.
     */
    method TimeDisplacedMeasure(h: Hubbard)
      requires Valid() && WellFormed(h)
      requires Shaped(h)
      modifies sign, greens, dos, stiffness
      ensures sign.tmp == Plus(old(sign.tmp), Scalar(h.configSign))
      ensures greens.tmp == Plus(old(greens.tmp), Vector(GreensIncrement(h, phaseQ)))
      ensures dos.tmp == Plus(old(dos.tmp), Vector(DensityIncrement(h)))
      ensures stiffness.tmp == Plus(old(stiffness.tmp), Scalar(StiffnessAt(h, phaseStiffness)))
      ensures sign.count == old(sign.count) + 1 && greens.count == old(greens.count) + 1
      ensures dos.count == old(dos.count) + 1 && stiffness.count == old(stiffness.count) + 1
      ensures BinsKept(sign) && BinsKept(greens) && BinsKept(dos) && BinsKept(stiffness)
      ensures Shaped(h)
      ensures old(sign.Allocated()) ==> sign.Allocated()
      ensures old(greens.Allocated()) ==> greens.Allocated()
      ensures old(dos.Allocated()) ==> dos.Allocated()
      ensures old(stiffness.Allocated()) ==> stiffness.Allocated()
    {
      sign.Add(Scalar(h.configSign));
      MeasureSlots(h);
      MeasureSuperfluidStiffness(h);
      sign.Increment();
      greens.Increment();
      dos.Increment();
      stiffness.Increment();
    }

    /**
     * `time_displaced_measure` of configuration h after hs were measured
     * since the last clear: the temporaries and counts become those of
     * hs + [h], and the set-up of `initial` is kept.
     */
    method AccumulateNext(h: Hubbard, ghost hs: seq<Hubbard>, ghost n: nat, ghost lt: nat)
      requires Valid() && WellFormed(h) && h.lt == lt && Conforming(hs, lt)
      requires Prepared(n, lt) && Accumulated(hs, lt)
      modifies sign, greens, dos, stiffness
      ensures Conforming(hs + [h], lt) && Prepared(n, lt) && Accumulated(hs + [h], lt)
      ensures BinsKept(sign) && BinsKept(greens) && BinsKept(dos) && BinsKept(stiffness)
    {
      TimeDisplacedMeasure(h);
      TotalsStep(hs, h, phaseQ, phaseStiffness, lt);
    }

    /**
     * `normalize_stats`: the sign temporary becomes the mean sign; the
     * other three are divided by their count times that mean sign.
     * Requires at least one measurement and a nonzero sign sum.
     */
    method NormalizeStats()
      requires Valid() && sign.tmp.Scalar? && sign.tmp.x != 0.0
      requires sign.count > 0 && greens.count > 0 && dos.count > 0 && stiffness.count > 0
      modifies sign, greens, dos, stiffness
      ensures sign.tmp == Scalar(old(sign.tmp).x / (old(sign.count) as real))
      ensures sign.tmp.x != 0.0
      ensures greens.tmp == DivBy(old(greens.tmp), Normalizer(old(greens.count), sign.tmp.x))
      ensures dos.tmp == DivBy(old(dos.tmp), Normalizer(old(dos.count), sign.tmp.x))
      ensures stiffness.tmp == DivBy(old(stiffness.tmp), Normalizer(old(stiffness.count), sign.tmp.x))
      ensures sign.count == old(sign.count) && greens.count == old(greens.count)
      ensures dos.count == old(dos.count) && stiffness.count == old(stiffness.count)
      ensures BinsKept(sign) && BinsKept(greens) && BinsKept(dos) && BinsKept(stiffness)
      ensures old(sign.Allocated()) ==> sign.Allocated()
      ensures old(greens.Allocated()) ==> greens.Allocated()
      ensures old(dos.Allocated()) ==> dos.Allocated()
      ensures old(stiffness.Allocated()) ==> stiffness.Allocated()
    {
      sign.Divide(sign.count as real);
      greens.Divide(Normalizer(greens.count, sign.tmp.x));
      dos.Divide(Normalizer(dos.count, sign.tmp.x));
      stiffness.Divide(Normalizer(stiffness.count, sign.tmp.x));
    }

    /** `write_stats_to_bins(bin)`: slot bin of each accumulator takes its temporary; nothing else changes. */
    method WriteStatsToBins(bin: nat)
      requires Valid()
      requires bin < |sign.bins| && bin < |greens.bins| && bin < |dos.bins| && bin < |stiffness.bins|
      modifies sign, greens, dos, stiffness
      ensures sign.bins == old(sign.bins)[bin := old(sign.tmp)]
      ensures greens.bins == old(greens.bins)[bin := old(greens.tmp)]
      ensures dos.bins == old(dos.bins)[bin := old(dos.tmp)]
      ensures stiffness.bins == old(stiffness.bins)[bin := old(stiffness.tmp)]
      ensures sign.tmp == old(sign.tmp) && greens.tmp == old(greens.tmp)
      ensures dos.tmp == old(dos.tmp) && stiffness.tmp == old(stiffness.tmp)
      ensures sign.count == old(sign.count) && greens.count == old(greens.count)
      ensures dos.count == old(dos.count) && stiffness.count == old(stiffness.count)
      ensures sign.zero == old(sign.zero) && greens.zero == old(greens.zero)
      ensures dos.zero == old(dos.zero) && stiffness.zero == old(stiffness.zero)
      ensures old(sign.Allocated()) ==> sign.Allocated()
      ensures old(greens.Allocated()) ==> greens.Allocated()
      ensures old(dos.Allocated()) ==> dos.Allocated()
      ensures old(stiffness.Allocated()) ==> stiffness.Allocated()
    {
      sign.WriteToBin(bin);
      greens.WriteToBin(bin);
      dos.WriteToBin(bin);
      stiffness.WriteToBin(bin);
    }
  }
}
