/**
 * Periodic index arithmetic of the square ll x ll lattice and of the
 * imaginary-time axis with lt slices.
 *
 * Sites are numbered x + ll*y; the measurement loops reach a site j from a
 * base site i by a displacement (dx, dy) with periodic wrap-around, and
 * select the time slice of slot l as l-1, wrapping slot 0 to the last slice.
 * Every operand in these expressions is non-negative, so Dafny's `%`
 * agrees with the C++ operator here.
 */
module Lattice {

  // ---------------------------------------------------------------------
  // Division facts used throughout
  // ---------------------------------------------------------------------

  /** Quotient and remainder are determined by any decomposition n == q*d + r with 0 <= r < d. */
  lemma DivModUnique(n: int, d: int, q: int, r: int)
    requires d > 0 && 0 <= r < d && n == q * d + r
    ensures n / d == q && n % d == r
  {
    var q', r' := n / d, n % d;
    assert n == q' * d + r';
    if q' > q {
      MulAtLeast(q' - q, d);
    } else if q' < q {
      MulAtLeast(q - q', d);
    }
  }

  lemma MulAtLeast(a: int, d: int)
    requires a >= 1 && d >= 0
    ensures a * d >= d
  {
    assert a * d == (a - 1) * d + d;
  }

  lemma ModOfSmall(n: int, d: int)
    requires 0 <= n < d
    ensures n % d == n && n / d == 0
  {
    DivModUnique(n, d, 0, n);
  }

  lemma ModOfOneWrap(n: int, d: int)
    requires d <= n < 2 * d
    ensures n % d == n - d && n / d == 1
  {
    DivModUnique(n, d, 1, n - d);
  }

  // ---------------------------------------------------------------------
  // Sites
  // ---------------------------------------------------------------------

  /** Linear index of site (x, y): `x + ll*y` (dynamic_measure.cpp, base point i). */
  function SiteIndex(x: nat, y: nat, ll: nat): nat { x + ll * y }

  /** Column of site j. */
  function XOf(j: nat, ll: nat): nat requires ll > 0 { j % ll }

  /** Row of site j. */
  function YOf(j: nat, ll: nat): nat requires ll > 0 { j / ll }

  /**
   * Column-major index x + w*y of cell (x, y) of a w x h grid lies in
   * [0, w*h), and division by w recovers the coordinates.
   */
  lemma GridIndexInRange(x: nat, y: nat, w: nat, h: nat)
    requires x < w && y < h
    ensures x + w * y < w * h
    ensures (x + w * y) % w == x && (x + w * y) / w == y
  {
    GridIndexBound(x, y, w, h);
    DivModUnique(x + w * y, w, y, x);
  }

  /** The bound half of GridIndexInRange: 0 <= x + w*y < w*h. */
  lemma GridIndexBound(x: nat, y: nat, w: nat, h: nat)
    requires x < w && y < h
    ensures 0 <= x + w * y < w * h
  {
    MulMonotone(w, y, h - 1);
    assert w * (h - 1) + w == w * h;
  }

  lemma MulMonotone(a: nat, b: nat, c: nat)
    requires b <= c
    ensures a * b <= a * c
  {
    var d: nat := c - b;
    assert a * c == a * b + a * d;
  }

  /** Sites of the lattice are exactly the indices in [0, ll*ll), and decoding inverts SiteIndex. */
  lemma SiteIndexInRange(x: nat, y: nat, ll: nat)
    requires x < ll && y < ll
    ensures SiteIndex(x, y, ll) < ll * ll
    ensures XOf(SiteIndex(x, y, ll), ll) == x && YOf(SiteIndex(x, y, ll), ll) == y
  {
    GridIndexInRange(x, y, ll, ll);
  }

  /** Every index k in [0, w*h) is the column-major index of cell (k % w, k / w) of the grid. */
  lemma GridDecodeInRange(k: nat, w: nat, h: nat)
    requires k < w * h
    ensures w > 0 && k % w < w && k / w < h
    ensures k == k % w + w * (k / w)
  {
    var x, y := k % w, k / w;
    assert k == x + w * y;
    if y >= h {
      MulAtLeast(y - h + 1, w);
    }
  }

  /** Every index in [0, ll*ll) is the SiteIndex of its decoded coordinates, which lie on the lattice. */
  lemma SiteDecodeInRange(j: nat, ll: nat)
    requires ll > 0 && j < ll * ll
    ensures XOf(j, ll) < ll && YOf(j, ll) < ll
    ensures SiteIndex(XOf(j, ll), YOf(j, ll), ll) == j
  {
    GridDecodeInRange(j, ll, ll);
  }

  // ---------------------------------------------------------------------
  // Periodic translation
  // ---------------------------------------------------------------------

  /** Coordinate a moved by d along one periodic axis of length ll. */
  function Wrap(a: nat, d: nat, ll: nat): nat requires ll > 0 { (a + d) % ll }

  /** The displacement along one axis that leads from a to x. */
  function Unwrap(a: nat, x: nat, ll: nat): nat requires ll > 0 && a <= ll { (x - a + ll) % ll }

  /** Moving by d and then asking for the displacement gives d back. */
  lemma UnwrapOfWrap(a: nat, d: nat, ll: nat)
    requires a < ll && d < ll
    ensures Wrap(a, d, ll) < ll
    ensures Unwrap(a, Wrap(a, d, ll), ll) == d
  {
    if a + d < ll {
      ModOfSmall(a + d, ll);
      ModOfOneWrap(d + ll, ll);
    } else {
      ModOfOneWrap(a + d, ll);
      ModOfSmall(d, ll);
    }
  }

  /** Moving by the displacement from a to x leads to x. */
  lemma WrapOfUnwrap(a: nat, x: nat, ll: nat)
    requires a < ll && x < ll
    ensures Unwrap(a, x, ll) < ll
    ensures Wrap(a, Unwrap(a, x, ll), ll) == x
  {
    if x >= a {
      ModOfOneWrap(x - a + ll, ll);
      ModOfSmall(x, ll);
    } else {
      ModOfSmall(x - a + ll, ll);
      ModOfOneWrap(x + ll, ll);
    }
  }

  /**
   * Site reached from base site (xi, yi) by displacement (dx, dy):
   * `(xi+dx)%ll + ll*((yi+dy)%ll)` (dynamic_measure.cpp, index j).
   */
  function Translated(xi: nat, yi: nat, dx: nat, dy: nat, ll: nat): nat
    requires ll > 0
  {
    (xi + dx) % ll + ll * ((yi + dy) % ll)
  }

  /** The displacement that leads from base site (xi, yi) to site j. */
  function Displacement(xi: nat, yi: nat, j: nat, ll: nat): (nat, nat)
    requires ll > 0 && xi <= ll && yi <= ll
  {
    (Unwrap(xi, XOf(j, ll), ll), Unwrap(yi, YOf(j, ll), ll))
  }

  /** The translated site is a site of the lattice. */
  lemma TranslatedInRange(xi: nat, yi: nat, dx: nat, dy: nat, ll: nat)
    requires xi < ll && yi < ll && dx < ll && dy < ll
    ensures Translated(xi, yi, dx, dy, ll) < ll * ll
    ensures Translated(xi, yi, dx, dy, ll) == SiteIndex(Wrap(xi, dx, ll), Wrap(yi, dy, ll), ll)
  {
    UnwrapOfWrap(xi, dx, ll);
    UnwrapOfWrap(yi, dy, ll);
    SiteIndexInRange(Wrap(xi, dx, ll), Wrap(yi, dy, ll), ll);
  }

  /**
   * For a fixed base site, (dx, dy) |-> j is one-to-one: the displacement is
   * recovered from the site it reaches.
   */
  lemma TranslatedInjective(xi: nat, yi: nat, dx: nat, dy: nat, ll: nat)
    requires xi < ll && yi < ll && dx < ll && dy < ll
    ensures Displacement(xi, yi, Translated(xi, yi, dx, dy, ll), ll) == (dx, dy)
  {
    TranslatedInRange(xi, yi, dx, dy, ll);
    var x, y := Wrap(xi, dx, ll), Wrap(yi, dy, ll);
    UnwrapOfWrap(xi, dx, ll);
    UnwrapOfWrap(yi, dy, ll);
    SiteIndexInRange(x, y, ll);
  }

  /**
   * For a fixed base site, (dx, dy) |-> j is onto: every site j of the
   * lattice is reached by the displacement computed from it, which lies in
   * [0, ll) x [0, ll).
   */
  lemma TranslatedSurjective(xi: nat, yi: nat, j: nat, ll: nat)
    requires xi < ll && yi < ll && j < ll * ll
    ensures Displacement(xi, yi, j, ll).0 < ll && Displacement(xi, yi, j, ll).1 < ll
    ensures Translated(xi, yi, Displacement(xi, yi, j, ll).0, Displacement(xi, yi, j, ll).1, ll) == j
  {
    SiteDecodeInRange(j, ll);
    var x, y := XOf(j, ll), YOf(j, ll);
    WrapOfUnwrap(xi, x, ll);
    WrapOfUnwrap(yi, y, ll);
    var (dx, dy) := Displacement(xi, yi, j, ll);
    TranslatedInRange(xi, yi, dx, dy, ll);
  }

  /** Two displacements from the same base site reach the same site only if they are equal. */
  lemma TranslatedDistinct(xi: nat, yi: nat, dx: nat, dy: nat, dx': nat, dy': nat, ll: nat)
    requires xi < ll && yi < ll && dx < ll && dy < ll && dx' < ll && dy' < ll
    requires (dx, dy) != (dx', dy')
    ensures Translated(xi, yi, dx, dy, ll) != Translated(xi, yi, dx', dy', ll)
  {
    TranslatedInjective(xi, yi, dx, dy, ll);
    TranslatedInjective(xi, yi, dx', dy', ll);
  }

  // ---------------------------------------------------------------------
  // Bond partner in the +x direction
  // ---------------------------------------------------------------------

  /** The +x neighbour of site k with periodic wrap along x. */
  function PlusX(k: nat, ll: nat): nat requires ll > 0 { (XOf(k, ll) + 1) % ll + ll * YOf(k, ll) }

  /** The -x neighbour of site k with periodic wrap along x. */
  function MinusX(k: nat, ll: nat): nat requires ll > 0 { (XOf(k, ll) + ll - 1) % ll + ll * YOf(k, ll) }

  /** Adding one before or after reducing modulo ll gives the same residue. */
  lemma ModAddOne(n: nat, ll: nat)
    requires ll > 0
    ensures (n + 1) % ll == (n % ll + 1) % ll
  {
    var q, r := n / ll, n % ll;
    if r + 1 < ll {
      DivModUnique(n + 1, ll, q, r + 1);
      ModOfSmall(r + 1, ll);
    } else {
      DivModUnique(n + 1, ll, q + 1, 0);
      ModOfOneWrap(r + 1, ll);
    }
  }

  /** One step along a periodic axis, forwards and backwards, are inverse to each other. */
  lemma StepInverse(x: nat, ll: nat)
    requires x < ll
    ensures (x + 1) % ll < ll && (x + ll - 1) % ll < ll
    ensures ((x + 1) % ll + ll - 1) % ll == x
    ensures ((x + ll - 1) % ll + 1) % ll == x
  {
    if x + 1 < ll {
      ModOfSmall(x + 1, ll);
      ModOfOneWrap(x + 1 + ll - 1, ll);
    } else {
      ModOfOneWrap(x + 1, ll);
      ModOfSmall(ll - 1, ll);
    }
    if x >= 1 {
      ModOfOneWrap(x + ll - 1, ll);
      ModOfSmall(x, ll);
    } else {
      ModOfSmall(x + ll - 1, ll);
      ModOfOneWrap(ll, ll);
    }
  }

  /** The +x neighbour of site (x, y) is site ((x+1)%ll, y), a site of the lattice. */
  lemma PlusXOfSite(x: nat, y: nat, ll: nat)
    requires x < ll && y < ll
    ensures PlusX(SiteIndex(x, y, ll), ll) == SiteIndex((x + 1) % ll, y, ll)
    ensures PlusX(SiteIndex(x, y, ll), ll) < ll * ll
  {
    SiteIndexInRange(x, y, ll);
    StepInverse(x, ll);
    SiteIndexInRange((x + 1) % ll, y, ll);
  }

  /**
   * `ipx = (xi+1)%ll + ll*yi` and `jpx = (xi+dx+1)%ll + ll*((yi+dy)%ll)` are the
   * +x neighbours of i and j, and are sites of the lattice.
   */
  lemma BondPartners(xi: nat, yi: nat, dx: nat, dy: nat, ll: nat)
    requires xi < ll && yi < ll && dx < ll && dy < ll
    ensures (xi + 1) % ll + ll * yi == PlusX(SiteIndex(xi, yi, ll), ll) < ll * ll
    ensures (xi + dx + 1) % ll + ll * ((yi + dy) % ll) == PlusX(Translated(xi, yi, dx, dy, ll), ll) < ll * ll
  {
    PlusXOfSite(xi, yi, ll);
    TranslatedPlusX(xi, yi, dx, dy, ll);
  }

  /** The +x neighbour of the translated site moves one further along x. */
  lemma TranslatedPlusX(xi: nat, yi: nat, dx: nat, dy: nat, ll: nat)
    requires xi < ll && yi < ll && dx < ll && dy < ll
    ensures (xi + dx + 1) % ll + ll * ((yi + dy) % ll) == PlusX(Translated(xi, yi, dx, dy, ll), ll) < ll * ll
  {
    var x, y := Wrap(xi, dx, ll), Wrap(yi, dy, ll);
    UnwrapOfWrap(xi, dx, ll);
    UnwrapOfWrap(yi, dy, ll);
    PlusXOfSite(x, y, ll);
    calc {
      PlusX(Translated(xi, yi, dx, dy, ll), ll);
    == { TranslatedInRange(xi, yi, dx, dy, ll); }
      PlusX(SiteIndex(x, y, ll), ll);
    ==
      SiteIndex((x + 1) % ll, y, ll);
    == { ModAddOne(xi + dx, ll); }
      (xi + dx + 1) % ll + ll * ((yi + dy) % ll);
    }
  }

  /** PlusX is a bijection of the lattice sites, with MinusX as its inverse. */
  lemma PlusXBijective(k: nat, ll: nat)
    requires ll > 0 && k < ll * ll
    ensures PlusX(k, ll) < ll * ll && MinusX(k, ll) < ll * ll
    ensures MinusX(PlusX(k, ll), ll) == k && PlusX(MinusX(k, ll), ll) == k
  {
    SiteDecodeInRange(k, ll);
    var x, y := XOf(k, ll), YOf(k, ll);
    StepInverse(x, ll);
    var xp, xm := (x + 1) % ll, (x + ll - 1) % ll;
    assert PlusX(k, ll) == SiteIndex(xp, y, ll);
    assert MinusX(k, ll) == SiteIndex(xm, y, ll);
    SiteIndexInRange(xp, y, ll);
    SiteIndexInRange(xm, y, ll);
    assert MinusX(PlusX(k, ll), ll) == SiteIndex((xp + ll - 1) % ll, y, ll);
    assert PlusX(MinusX(k, ll), ll) == SiteIndex((xm + 1) % ll, y, ll);
  }

  // ---------------------------------------------------------------------
  // Imaginary-time slices
  // ---------------------------------------------------------------------

  /** Slice read for measurement slot l: `(l == 0) ? lt-1 : l-1` (superfluid stiffness). */
  function SliceOf(l: nat, lt: nat): (tau: nat)
    requires l < lt
  {
    if l == 0 then lt - 1 else l - 1
  }

  /** Output tau shift `(l - 1 + lt) % lt` (time-displaced output writers). */
  function TauShift(l: int, lt: int): int
    requires lt > 0
  {
    (l - 1 + lt) % lt
  }

  /** Inverse of the tau shift: the slot whose output row shows slice tau. */
  function NextSlot(tau: int, lt: int): int
    requires lt > 0
  {
    (tau + 1) % lt
  }

  /** The tau shift and the slot-to-slice rule of the stiffness loop agree, and stay in [0, lt). */
  lemma TauShiftIsSliceOf(l: nat, lt: nat)
    requires l < lt
    ensures TauShift(l, lt) == SliceOf(l, lt)
    ensures 0 <= TauShift(l, lt) < lt
    ensures l == 0 ==> TauShift(l, lt) == lt - 1
    ensures l > 0 ==> TauShift(l, lt) == l - 1
  {
    if l == 0 {
      ModOfSmall(lt - 1, lt);
    } else {
      ModOfOneWrap(l - 1 + lt, lt);
    }
  }

  /** The tau shift is a bijection on [0, lt) with inverse NextSlot. */
  lemma TauShiftBijective(l: int, lt: int)
    requires 0 <= l < lt
    ensures 0 <= NextSlot(l, lt) < lt
    ensures TauShift(NextSlot(l, lt), lt) == l
    ensures NextSlot(TauShift(l, lt), lt) == l
  {
    TauShiftIsSliceOf(l, lt);
    if l + 1 < lt {
      ModOfSmall(l + 1, lt);
      TauShiftIsSliceOf(l + 1, lt);
    } else {
      ModOfOneWrap(l + 1, lt);
      TauShiftIsSliceOf(0, lt);
    }
    if l == 0 {
      ModOfOneWrap(lt, lt);
    } else {
      ModOfSmall(l, lt);
    }
  }
}
