/**
 * The driver of the determinant QMC simulation: the auxiliary-field file
 * reader and writer on the field array, the Monte Carlo parameters, and
 * the schedule of `run_QMC`: warm-up sweeps, then per bin the measuring
 * sweeps, the normalise / write / clear of the accumulators and the
 * decorrelation sweeps.
 *
 * The sweeps themselves (Green's-function propagation and stabilisation)
 * are not part of this model: a sweep is recorded as an event, and the
 * configuration a displaced forward sweep leaves behind is supplied by the
 * caller as a `Hubbard` value. The equal-time measurements are recorded as
 * events only.
 */
module DetQmc {
  import opened Text
  import opened AuxFieldFile
  import opened Accumulators
  import opened TimeDisplaced
  import Lattice

  // ---------------------------------------------------------------------
  // The schedule of a run
  // ---------------------------------------------------------------------

  /** The steps of a run that the driver takes, in order. */
  datatype Event =
    | SweepForth              // sweep_0_to_beta
    | SweepForthDisplaced     // sweep_0_to_beta_displaced
    | SweepBack               // sweep_beta_to_0
    | MeasureEqualTime        // eqtimeMeasure.measure_equal_time
    | MeasureTimeDisplaced    // dynamicMeasure.time_displaced_measure
    | ClearEqualTime
    | NormalizeEqualTime
    | WriteEqualTime(bin: nat)
    | ClearDynamic
    | NormalizeDynamic
    | WriteDynamic(bin: nat)

  /** The Monte Carlo and controlling parameters a run reads. */
  datatype Params = Params(
    nwarm: nat, nbin: nat, nsweep: nat, nBetweenBins: nat,
    warmUp: bool, eqtime: bool, dynamic: bool)

  /**
   * One `sweep_back_and_forth(eqtime, dynamic)`: the forward sweep (the
   * displaced one when measuring time-displaced quantities, followed by that
   * measurement), an equal-time measurement, the backward sweep and a
   * second equal-time measurement.
   */
  function SweepLog(eqtime: bool, dynamic: bool): seq<Event>
  {
    (if dynamic then [SweepForthDisplaced, MeasureTimeDisplaced] else [SweepForth])
    + (if eqtime then [MeasureEqualTime] else [])
    + [SweepBack]
    + (if eqtime then [MeasureEqualTime] else [])
  }

  /** n repetitions of xs. */
  function Repeat(xs: seq<Event>, n: nat): seq<Event>
  {
    if n == 0 then [] else Repeat(xs, n - 1) + xs
  }

  /** The clearing of the measured quantities at the start of `run_QMC`. */
  function ClearLog(p: Params): seq<Event>
  {
    (if p.eqtime then [ClearEqualTime] else []) + (if p.dynamic then [ClearDynamic] else [])
  }

  /** Thermalisation: nwarm/2 sweeps that measure nothing. */
  function WarmUpLog(p: Params): seq<Event>
  {
    if p.warmUp then Repeat(SweepLog(false, false), p.nwarm / 2) else []
  }

  /** Closing bin `bin`: normalise, write to slot `bin`, clear, per measured family. */
  function CloseLog(p: Params, bin: nat): seq<Event>
  {
    (if p.eqtime then [NormalizeEqualTime, WriteEqualTime(bin), ClearEqualTime] else [])
    + (if p.dynamic then [NormalizeDynamic, WriteDynamic(bin), ClearDynamic] else [])
  }

  /** One bin: nsweep/2 measuring sweeps, the close, then nBetweenBins sweeps that measure nothing. */
  function BinLog(p: Params, bin: nat): seq<Event>
  {
    Repeat(SweepLog(p.eqtime, p.dynamic), p.nsweep / 2) + CloseLog(p, bin)
    + Repeat(SweepLog(false, false), p.nBetweenBins)
  }

  /** Bins 0 .. n-1 in order. */
  function BinsLog(p: Params, n: nat): seq<Event>
  {
    if n == 0 then [] else BinsLog(p, n - 1) + BinLog(p, n - 1)
  }

  /** A whole `run_QMC`; the bins run only when something is measured. */
  function Schedule(p: Params): seq<Event>
  {
    ClearLog(p) + WarmUpLog(p) + (if p.eqtime || p.dynamic then BinsLog(p, p.nbin) else [])
  }

  // ---------------------------------------------------------------------
  // Properties of the schedule
  // ---------------------------------------------------------------------

  /** Number of occurrences of e in log. */
  function Count(e: Event, log: seq<Event>): nat
  {
    if |log| == 0 then 0 else (if log[0] == e then 1 else 0) + Count(e, log[1..])
  }

  lemma {:induction false} CountAppend(e: Event, a: seq<Event>, b: seq<Event>)
    ensures Count(e, a + b) == Count(e, a) + Count(e, b)
  {
    if |a| > 0 {
      assert (a + b)[1..] == a[1..] + b;
      CountAppend(e, a[1..], b);
    } else {
      assert a + b == b;
    }
  }

  lemma {:induction false} CountRepeat(e: Event, xs: seq<Event>, n: nat)
    ensures Count(e, Repeat(xs, n)) == n * Count(e, xs)
  {
    var c := Count(e, xs);
    if n > 0 {
      CountRepeat(e, xs, n - 1);
      CountAppend(e, Repeat(xs, n - 1), xs);
      assert Count(e, Repeat(xs, n)) == (n - 1) * c + c;
      assert (n - 1) * c + c == n * c;
    } else {
      assert Repeat(xs, n) == [];
    }
  }

  /**
   * One sweep pair measures the equal-time quantities twice (after the
   * forward and after the backward sweep) and the time-displaced ones once
   * (after the forward sweep only), and sweeps back exactly once.
   */
  lemma CountOne(e: Event, x: Event)
    ensures Count(e, [x]) == if x == e then 1 else 0
  {
    assert [x][1..] == [];
  }

  lemma CountThree(e: Event, x: Event, y: Event, z: Event)
    ensures Count(e, [x, y, z]) == (if x == e then 1 else 0) + (if y == e then 1 else 0) + (if z == e then 1 else 0)
  {
    assert [x, y, z] == [x] + [y] + [z];
    CountAppend(e, [x] + [y], [z]);
    CountAppend(e, [x], [y]);
    CountOne(e, x);
    CountOne(e, y);
    CountOne(e, z);
  }

  /** Occurrences of e in the forward half, the equal-time measurement and the backward sweep of a sweep pair. */
  lemma SweepCount(e: Event, eqtime: bool, dynamic: bool)
    ensures Count(e, SweepLog(eqtime, dynamic)) ==
              (if dynamic then (if e == SweepForthDisplaced then 1 else 0) + (if e == MeasureTimeDisplaced then 1 else 0)
               else if e == SweepForth then 1 else 0)
              + (if eqtime && e == MeasureEqualTime then 2 else 0)
              + (if e == SweepBack then 1 else 0)
  {
    var fwd: seq<Event> := if dynamic then [SweepForthDisplaced, MeasureTimeDisplaced] else [SweepForth];
    var eq: seq<Event> := if eqtime then [MeasureEqualTime] else [];
    assert SweepLog(eqtime, dynamic) == fwd + eq + [SweepBack] + eq;
    CountAppend(e, fwd + eq + [SweepBack], eq);
    CountAppend(e, fwd + eq, [SweepBack]);
    CountAppend(e, fwd, eq);
    CountOne(e, SweepBack);
    if dynamic {
      assert fwd == [SweepForthDisplaced] + [MeasureTimeDisplaced];
      CountAppend(e, [SweepForthDisplaced], [MeasureTimeDisplaced]);
      CountOne(e, SweepForthDisplaced);
      CountOne(e, MeasureTimeDisplaced);
    } else {
      CountOne(e, SweepForth);
    }
    if eqtime {
      CountOne(e, MeasureEqualTime);
    }
  }

  lemma SweepMeasurements(eqtime: bool, dynamic: bool)
    ensures Count(MeasureEqualTime, SweepLog(eqtime, dynamic)) == if eqtime then 2 else 0
    ensures Count(MeasureTimeDisplaced, SweepLog(eqtime, dynamic)) == if dynamic then 1 else 0
    ensures Count(SweepBack, SweepLog(eqtime, dynamic)) == 1
    ensures SweepLog(eqtime, dynamic)[0] == if dynamic then SweepForthDisplaced else SweepForth
  {
    SweepCount(MeasureEqualTime, eqtime, dynamic);
    SweepCount(MeasureTimeDisplaced, eqtime, dynamic);
    SweepCount(SweepBack, eqtime, dynamic);
  }

  /** The warm-up performs nwarm/2 sweep pairs and measures nothing. */
  lemma WarmUpMeasuresNothing(p: Params)
    ensures Count(MeasureEqualTime, WarmUpLog(p)) == 0
    ensures Count(MeasureTimeDisplaced, WarmUpLog(p)) == 0
    ensures Count(SweepBack, WarmUpLog(p)) == if p.warmUp then p.nwarm / 2 else 0
  {
    SweepMeasurements(false, false);
    CountRepeat(MeasureEqualTime, SweepLog(false, false), p.nwarm / 2);
    CountRepeat(MeasureTimeDisplaced, SweepLog(false, false), p.nwarm / 2);
    CountRepeat(SweepBack, SweepLog(false, false), p.nwarm / 2);
  }

  /**
   * A bin holds nsweep/2 measuring sweep pairs: that many time-displaced
   * measurements and twice that many equal-time ones; with the
   * decorrelation sweeps it sweeps back nsweep/2 + nBetweenBins times.
   */
  lemma BinMeasurements(p: Params, bin: nat)
    ensures Count(MeasureTimeDisplaced, BinLog(p, bin)) == if p.dynamic then p.nsweep / 2 else 0
    ensures Count(MeasureEqualTime, BinLog(p, bin)) == if p.eqtime then 2 * (p.nsweep / 2) else 0
    ensures Count(SweepBack, BinLog(p, bin)) == p.nsweep / 2 + p.nBetweenBins
  {
    var k, d := p.nsweep / 2, p.nBetweenBins;
    var meas := Repeat(SweepLog(p.eqtime, p.dynamic), k);
    var idle := Repeat(SweepLog(false, false), d);
    forall e: Event ensures Count(e, BinLog(p, bin)) == Count(e, meas) + Count(e, CloseLog(p, bin)) + Count(e, idle) {
      CountAppend(e, meas + CloseLog(p, bin), idle);
      CountAppend(e, meas, CloseLog(p, bin));
    }
    CloseCounts(p, bin);
    SweepMeasurements(p.eqtime, p.dynamic);
    SweepMeasurements(false, false);
    CountRepeat(MeasureTimeDisplaced, SweepLog(p.eqtime, p.dynamic), k);
    CountRepeat(MeasureTimeDisplaced, SweepLog(false, false), d);
    CountRepeat(MeasureEqualTime, SweepLog(p.eqtime, p.dynamic), k);
    CountRepeat(MeasureEqualTime, SweepLog(false, false), d);
    CountRepeat(SweepBack, SweepLog(p.eqtime, p.dynamic), k);
    CountRepeat(SweepBack, SweepLog(false, false), d);
    assert Count(MeasureTimeDisplaced, meas) == if p.dynamic then k else 0 by {
      if p.dynamic { assert k * 1 == k; } else { assert k * 0 == 0; }
    }
    assert Count(MeasureEqualTime, meas) == if p.eqtime then 2 * k else 0 by {
      if p.eqtime { assert k * 2 == 2 * k; } else { assert k * 0 == 0; }
    }
    assert Count(SweepBack, meas) == k by { assert k * 1 == k; }
    assert Count(SweepBack, idle) == d by { assert d * 1 == d; }
    assert Count(MeasureTimeDisplaced, idle) == 0 && Count(MeasureEqualTime, idle) == 0 by { assert d * 0 == 0; }
  }

  /** Closing a bin neither sweeps nor measures. */
  lemma CloseCounts(p: Params, bin: nat)
    ensures Count(MeasureTimeDisplaced, CloseLog(p, bin)) == 0
    ensures Count(MeasureEqualTime, CloseLog(p, bin)) == 0
    ensures Count(SweepBack, CloseLog(p, bin)) == 0
  {
    var eq: seq<Event> := if p.eqtime then [NormalizeEqualTime, WriteEqualTime(bin), ClearEqualTime] else [];
    var dyn: seq<Event> := if p.dynamic then [NormalizeDynamic, WriteDynamic(bin), ClearDynamic] else [];
    forall e: Event | e.MeasureTimeDisplaced? || e.MeasureEqualTime? || e.SweepBack?
      ensures Count(e, CloseLog(p, bin)) == 0
    {
      CountAppend(e, eq, dyn);
      CountThree(e, NormalizeEqualTime, WriteEqualTime(bin), ClearEqualTime);
      CountThree(e, NormalizeDynamic, WriteDynamic(bin), ClearDynamic);
    }
  }

  /** One factor fewer: (n - 1) * k + k == n * k. */
  lemma MulPred(n: nat, k: nat)
    requires n > 0
    ensures (n - 1) * k + k == n * k
  {
  }

  /** Bins 0 .. n-1 together: n times the counts of one bin. */
  lemma {:induction false} BinsMeasurements(p: Params, n: nat)
    ensures Count(MeasureTimeDisplaced, BinsLog(p, n)) == if p.dynamic then n * (p.nsweep / 2) else 0
    ensures Count(MeasureEqualTime, BinsLog(p, n)) == if p.eqtime then 2 * (n * (p.nsweep / 2)) else 0
    ensures Count(SweepBack, BinsLog(p, n)) == n * (p.nsweep / 2 + p.nBetweenBins)
  {
    if n > 0 {
      var k := p.nsweep / 2;
      BinsMeasurements(p, n - 1);
      BinMeasurements(p, n - 1);
      CountAppend(MeasureTimeDisplaced, BinsLog(p, n - 1), BinLog(p, n - 1));
      CountAppend(MeasureEqualTime, BinsLog(p, n - 1), BinLog(p, n - 1));
      CountAppend(SweepBack, BinsLog(p, n - 1), BinLog(p, n - 1));
      MulPred(n, k);
      MulPred(n, k + p.nBetweenBins);
    }
  }

  /**
   * A whole run: nbin * (nsweep/2) time-displaced measurements, twice that
   * many equal-time ones, and one backward sweep per sweep pair of the
   * warm-up, of the measuring phase and of the decorrelation phase.
   */
  lemma ScheduleMeasurements(p: Params)
    ensures Count(MeasureTimeDisplaced, Schedule(p)) == if p.dynamic then p.nbin * (p.nsweep / 2) else 0
    ensures Count(MeasureEqualTime, Schedule(p)) == if p.eqtime then 2 * p.nbin * (p.nsweep / 2) else 0
    ensures Count(SweepBack, Schedule(p)) ==
              (if p.warmUp then p.nwarm / 2 else 0)
              + (if p.eqtime || p.dynamic then p.nbin * (p.nsweep / 2 + p.nBetweenBins) else 0)
  {
    WarmUpMeasuresNothing(p);
    BinsMeasurements(p, p.nbin);
    ScheduleCount(p, MeasureTimeDisplaced);
    ScheduleCount(p, MeasureEqualTime);
    ScheduleCount(p, SweepBack);
    assert 2 * (p.nbin * (p.nsweep / 2)) == 2 * p.nbin * (p.nsweep / 2);
  }

  /** A run's count of e splits into the warm-up's and the bins'. */
  lemma ScheduleCount(p: Params, e: Event)
    requires e.MeasureTimeDisplaced? || e.MeasureEqualTime? || e.SweepBack?
    ensures Count(e, Schedule(p)) ==
              Count(e, WarmUpLog(p)) + (if p.eqtime || p.dynamic then Count(e, BinsLog(p, p.nbin)) else 0)
  {
    var bins := if p.eqtime || p.dynamic then BinsLog(p, p.nbin) else [];
    var eqClear: seq<Event> := if p.eqtime then [ClearEqualTime] else [];
    var dynClear: seq<Event> := if p.dynamic then [ClearDynamic] else [];
    CountAppend(e, ClearLog(p) + WarmUpLog(p), bins);
    CountAppend(e, ClearLog(p), WarmUpLog(p));
    CountAppend(e, eqClear, dynClear);
    CountOne(e, ClearEqualTime);
    CountOne(e, ClearDynamic);
  }


  /** The bins written by the time-displaced accumulators, in order. */
  function WrittenBins(log: seq<Event>): seq<nat>
  {
    if |log| == 0 then []
    else (if log[0].WriteDynamic? then [log[0].bin] else []) + WrittenBins(log[1..])
  }

  lemma {:induction false} WrittenBinsAppend(a: seq<Event>, b: seq<Event>)
    ensures WrittenBins(a + b) == WrittenBins(a) + WrittenBins(b)
  {
    if |a| > 0 {
      assert (a + b)[1..] == a[1..] + b;
      WrittenBinsAppend(a[1..], b);
    } else {
      assert a + b == b;
    }
  }

  lemma WrittenOne(x: Event)
    ensures WrittenBins([x]) == if x.WriteDynamic? then [x.bin] else []
  {
    assert [x][1..] == [];
  }

  /** One sweep pair writes no bin. */
  lemma SweepWritesNothing(eqtime: bool, dynamic: bool)
    ensures WrittenBins(SweepLog(eqtime, dynamic)) == []
  {
    var fwd: seq<Event> := if dynamic then [SweepForthDisplaced, MeasureTimeDisplaced] else [SweepForth];
    var eq: seq<Event> := if eqtime then [MeasureEqualTime] else [];
    assert SweepLog(eqtime, dynamic) == fwd + eq + [SweepBack] + eq;
    WrittenBinsAppend(fwd + eq + [SweepBack], eq);
    WrittenBinsAppend(fwd + eq, [SweepBack]);
    WrittenBinsAppend(fwd, eq);
    WrittenOne(SweepBack);
    WrittenOne(MeasureEqualTime);
    if dynamic {
      assert fwd == [SweepForthDisplaced] + [MeasureTimeDisplaced];
      WrittenBinsAppend([SweepForthDisplaced], [MeasureTimeDisplaced]);
      WrittenOne(SweepForthDisplaced);
      WrittenOne(MeasureTimeDisplaced);
    } else {
      WrittenOne(SweepForth);
    }
  }

  lemma {:induction false} SweepsWriteNothing(eqtime: bool, dynamic: bool, n: nat)
    ensures WrittenBins(Repeat(SweepLog(eqtime, dynamic), n)) == []
  {
    if n > 0 {
      SweepsWriteNothing(eqtime, dynamic, n - 1);
      WrittenBinsAppend(Repeat(SweepLog(eqtime, dynamic), n - 1), SweepLog(eqtime, dynamic));
      SweepWritesNothing(eqtime, dynamic);
    } else {
      assert Repeat(SweepLog(eqtime, dynamic), n) == [];
    }
  }

  /** 0, 1, ..., n-1. */
  function Range(n: nat): (r: seq<nat>)
    ensures |r| == n && forall b :: 0 <= b < n ==> r[b] == b
  {
    if n == 0 then [] else Range(n - 1) + [n - 1]
  }

  lemma WrittenThree(x: Event, y: Event, z: Event)
    ensures WrittenBins([x, y, z]) == WrittenBins([x]) + WrittenBins([y]) + WrittenBins([z])
  {
    assert [x, y, z] == [x] + [y] + [z];
    WrittenBinsAppend([x] + [y], [z]);
    WrittenBinsAppend([x], [y]);
  }

  /** A bin's close writes the time-displaced accumulators to that bin and nothing else. */
  lemma CloseWritten(p: Params, bin: nat)
    ensures WrittenBins(CloseLog(p, bin)) == if p.dynamic then [bin] else []
  {
    var eq: seq<Event> := if p.eqtime then [NormalizeEqualTime, WriteEqualTime(bin), ClearEqualTime] else [];
    var dyn: seq<Event> := if p.dynamic then [NormalizeDynamic, WriteDynamic(bin), ClearDynamic] else [];
    WrittenBinsAppend(eq, dyn);
    WrittenThree(NormalizeEqualTime, WriteEqualTime(bin), ClearEqualTime);
    WrittenThree(NormalizeDynamic, WriteDynamic(bin), ClearDynamic);
    WrittenOne(NormalizeEqualTime);
    WrittenOne(WriteEqualTime(bin));
    WrittenOne(ClearEqualTime);
    WrittenOne(NormalizeDynamic);
    WrittenOne(WriteDynamic(bin));
    WrittenOne(ClearDynamic);
  }

  lemma BinWritten(p: Params, bin: nat)
    ensures WrittenBins(BinLog(p, bin)) == if p.dynamic then [bin] else []
  {
    var meas := Repeat(SweepLog(p.eqtime, p.dynamic), p.nsweep / 2);
    var idle := Repeat(SweepLog(false, false), p.nBetweenBins);
    WrittenBinsAppend(meas + CloseLog(p, bin), idle);
    WrittenBinsAppend(meas, CloseLog(p, bin));
    SweepsWriteNothing(p.eqtime, p.dynamic, p.nsweep / 2);
    SweepsWriteNothing(false, false, p.nBetweenBins);
    CloseWritten(p, bin);
  }

  lemma {:induction false} BinsWritten(p: Params, n: nat)
    ensures WrittenBins(BinsLog(p, n)) == if p.dynamic then Range(n) else []
  {
    if n > 0 {
      BinsWritten(p, n - 1);
      WrittenBinsAppend(BinsLog(p, n - 1), BinLog(p, n - 1));
      BinWritten(p, n - 1);
    } else {
      assert BinsLog(p, n) == [];
    }
  }

  /** A log that grows by one more repetition of xs. */
  lemma RepeatOneMore(log: seq<Event>, xs: seq<Event>, n: nat)
    ensures log + Repeat(xs, n) + xs == log + Repeat(xs, n + 1)
  {
  }

  lemma AppendAssoc<T>(a: seq<T>, b: seq<T>, c: seq<T>)
    ensures a + b + c == a + (b + c)
  {
  }

  /** A log that grows by the measuring sweeps, the close and the idle sweeps of bin b grows by BinLog(p, b). */
  lemma BinAfter(log: seq<Event>, p: Params, b: nat)
    ensures log + Repeat(SweepLog(p.eqtime, p.dynamic), p.nsweep / 2) + CloseLog(p, b)
            + Repeat(SweepLog(false, false), p.nBetweenBins) == log + BinLog(p, b)
  {
    var meas, close, idle := Repeat(SweepLog(p.eqtime, p.dynamic), p.nsweep / 2), CloseLog(p, b), Repeat(SweepLog(false, false), p.nBetweenBins);
    AppendAssoc(log, meas, close);
    AppendAssoc(log, meas + close, idle);
  }

  /** A log that grows by BinsLog(p, b) and then BinLog(p, b) grows by BinsLog(p, b + 1). */
  lemma BinsAfter(log: seq<Event>, p: Params, b: nat)
    ensures log + BinsLog(p, b) + BinLog(p, b) == log + BinsLog(p, b + 1)
  {
    AppendAssoc(log, BinsLog(p, b), BinLog(p, b));
  }

  /** The clear, the warm-up and (when anything is measured) the bins, one after the other, make up the schedule. */
  lemma ScheduleAfter(log: seq<Event>, p: Params)
    ensures log + ClearLog(p) + WarmUpLog(p) + (if p.eqtime || p.dynamic then BinsLog(p, p.nbin) else [])
            == log + Schedule(p)
  {
    var bins := if p.eqtime || p.dynamic then BinsLog(p, p.nbin) else [];
    AppendAssoc(log, ClearLog(p), WarmUpLog(p));
    AppendAssoc(log, ClearLog(p) + WarmUpLog(p), bins);
  }

  /**
   * The time-displaced accumulators are written once per bin, to slots
   * 0, 1, ..., nbin-1 in increasing order, and never when they are not
   * measured.
   */
  lemma ScheduleWritesBinsInOrder(p: Params)
    ensures WrittenBins(Schedule(p)) == if p.dynamic then Range(p.nbin) else []
  {
    var bins := if p.eqtime || p.dynamic then BinsLog(p, p.nbin) else [];
    WrittenBinsAppend(ClearLog(p) + WarmUpLog(p), bins);
    WrittenBinsAppend(ClearLog(p), WarmUpLog(p));
    ClearWritesNothing(p);
    WarmUpWritesNothing(p);
    BinsWritten(p, p.nbin);
  }

  lemma ClearWritesNothing(p: Params)
    ensures WrittenBins(ClearLog(p)) == []
  {
    var eqClear: seq<Event> := if p.eqtime then [ClearEqualTime] else [];
    var dynClear: seq<Event> := if p.dynamic then [ClearDynamic] else [];
    WrittenBinsAppend(eqClear, dynClear);
    WrittenOne(ClearEqualTime);
    WrittenOne(ClearDynamic);
  }

  lemma WarmUpWritesNothing(p: Params)
    ensures WrittenBins(WarmUpLog(p)) == []
  {
    SweepsWriteNothing(false, false, p.nwarm / 2);
  }

  // ---------------------------------------------------------------------
  // Output order of the time-displaced writers
  // ---------------------------------------------------------------------

  /** Row l of the time-displaced output shows slot (l - 1 + lt) % lt. */
  function TauOrdered(v: seq<real>): (w: seq<real>)
    ensures |w| == |v|
  {
    seq(|v|, l requires 0 <= l < |v| => (Lattice.TauShiftIsSliceOf(l, |v|); v[Lattice.TauShift(l, |v|)]))
  }

  /**
   * The output rows are the slots rotated by one: the last slot first, then
   * slots 0 .. lt-2 in order; so every slot is written exactly once.
   */
  lemma TauOrderedRotates(v: seq<real>)
    requires |v| > 0
    ensures TauOrdered(v) == [v[|v| - 1]] + v[..|v| - 1]
    ensures multiset(TauOrdered(v)) == multiset(v)
  {
    var n := |v|;
    var w := [v[n - 1]] + v[..n - 1];
    forall l | 0 <= l < n
      ensures TauOrdered(v)[l] == w[l]
    {
      Lattice.TauShiftIsSliceOf(l, n);
    }
    assert TauOrdered(v) == w;
    assert v == v[..n - 1] + [v[n - 1]];
    assert multiset(w) == multiset([v[n - 1]]) + multiset(v[..n - 1]);
  }

  // ---------------------------------------------------------------------
  // The driver object
  // ---------------------------------------------------------------------

  /** The cells of slice l are followed by those of slice l + 1. */
  lemma NextSliceStart(ls: nat, l: nat)
    ensures ls * l + ls == ls * (l + 1)
  {
  }

  /** What reading the file (None when it cannot be opened) does to a field holding cells. */
  function ReadOutcome(cells: seq<int>, file: Option<string>, ls: nat, lt: nat): (r: LoadResult)
    requires |cells| == ls * lt
    ensures file.None? ==> r == Rejected(CannotOpen)
    ensures file.Some? ==> r == Load(cells, file.value, ls, lt)
  {
    if file.None? then Rejected(CannotOpen) else Load(cells, file.value, ls, lt)
  }

  /** Slots 0 .. n-1 of the four bin sequences hold the bin values of samples[0 .. n-1]. */
  predicate HoldsBins(signBins: seq<Value>, greensBins: seq<Value>, dosBins: seq<Value>, stiffnessBins: seq<Value>,
                      samples: seq<seq<Hubbard>>, n: nat, phaseQ: Matrix, phaseStiffness: Matrix, lt: nat)
  {
    && n <= |samples| && n <= |signBins| && n <= |greensBins| && n <= |dosBins| && n <= |stiffnessBins|
    && forall b :: 0 <= b < n ==>
         Conforming(samples[b], lt)
         && BinValues(signBins[b], greensBins[b], dosBins[b], stiffnessBins[b], samples[b], phaseQ, phaseStiffness, lt)
  }

  /** Writing bin n's values into slot n extends the filled prefix by one and keeps the slots before it. */
  lemma HoldsOneMore(signBins: seq<Value>, greensBins: seq<Value>, dosBins: seq<Value>, stiffnessBins: seq<Value>,
                     samples: seq<seq<Hubbard>>, n: nat, phaseQ: Matrix, phaseStiffness: Matrix, lt: nat,
                     sign: Value, greens: Value, dos: Value, stiffness: Value)
    requires HoldsBins(signBins, greensBins, dosBins, stiffnessBins, samples, n, phaseQ, phaseStiffness, lt)
    requires n < |samples| && n < |signBins| && n < |greensBins| && n < |dosBins| && n < |stiffnessBins|
    requires Conforming(samples[n], lt)
    requires BinValues(sign, greens, dos, stiffness, samples[n], phaseQ, phaseStiffness, lt)
    ensures HoldsBins(signBins[n := sign], greensBins[n := greens], dosBins[n := dos], stiffnessBins[n := stiffness],
                      samples, n + 1, phaseQ, phaseStiffness, lt)
  {
  }

  class DetQmc {
    /** Linear lattice size and number of time slices. */
    const ll: nat
    const lt: nat
    /** Number of sites, ll * ll. */
    const ls: nat
    /** The auxiliary field s(i, l), stored column-major: cell i + ls * l. */
    const s: array<int>
    var nwarm: nat
    var nbin: nat
    var nsweep: nat
    var nBetweenBins: nat
    var warmUp: bool
    var eqtime: bool
    var dynamic: bool
    /** The steps taken so far. */
    var events: seq<Event>
    const dynamicMeasure: DynamicMeasure

    predicate Valid()
      reads this`nbin, dynamicMeasure
    {
      && ls == ll * ll && s.Length == ls * lt
      && dynamicMeasure.Valid() && dynamicMeasure.nbin == nbin
    }

    function Config(): Params
      reads this`nwarm, this`nbin, this`nsweep, this`nBetweenBins, this`warmUp, this`eqtime, this`dynamic
    {
      Params(nwarm, nbin, nsweep, nBetweenBins, warmUp, eqtime, dynamic)
    }

    /** The time-displaced accumulators, when `on`; a method that may change them only when on changes nothing else of them. */
    function Accumulators(on: bool): (r: set<object>)
      ensures this !in r && dynamicMeasure !in r
    {
      if on then {dynamicMeasure.sign, dynamicMeasure.greens, dynamicMeasure.dos, dynamicMeasure.stiffness} else {}
    }

    /** The time-displaced accumulators after `initial` and hs measured since the last clear. */
    predicate Measuring(hs: seq<Hubbard>)
      reads this`nbin, dynamicMeasure, dynamicMeasure.sign, dynamicMeasure.greens, dynamicMeasure.dos, dynamicMeasure.stiffness
    {
      Conforming(hs, lt) && dynamicMeasure.Prepared(nbin, lt) && dynamicMeasure.Accumulated(hs, lt)
    }

    /** Bins 0 .. n-1 hold the normalised values of the configurations measured into them. */
    predicate BinsHold(samples: seq<seq<Hubbard>>, n: nat)
      reads dynamicMeasure, dynamicMeasure.sign, dynamicMeasure.greens, dynamicMeasure.dos, dynamicMeasure.stiffness
    {
      var m := dynamicMeasure;
      HoldsBins(m.sign.bins, m.greens.bins, m.dos.bins, m.stiffness.bins, samples, n, m.phaseQ, m.phaseStiffness, lt)
    }

    /**
     * What the sweeps of a run leave for the time-displaced measurements:
     * per bin, the nsweep/2 configurations after each displaced forward
     * sweep, shaped for lt slices, with a nonzero sign sum.
     */
    predicate Ready(samples: seq<seq<Hubbard>>)
      reads this`nbin, this`nsweep
    {
      && |samples| == nbin
      && forall b :: 0 <= b < |samples| ==>
           |samples[b]| == nsweep / 2 && Conforming(samples[b], lt) && SignSum(samples[b]) != 0.0
    }

    constructor (ll: nat, lt: nat, field: seq<int>, phaseQ: Matrix, phaseStiffness: Matrix)
      requires |field| == ll * ll * lt
      ensures Valid() && fresh(s) && fresh(dynamicMeasure)
      ensures this.ll == ll && this.lt == lt && s[..] == field
      ensures Config() == Params(0, 0, 0, 0, false, false, false) && events == []
      ensures dynamicMeasure.phaseQ == phaseQ && dynamicMeasure.phaseStiffness == phaseStiffness
    {
      this.ll := ll;
      this.lt := lt;
      ls := ll * ll;
      s := new int[|field|](k requires 0 <= k < |field| => field[k]);
      nwarm, nbin, nsweep, nBetweenBins := 0, 0, 0, 0;
      warmUp, eqtime, dynamic := false, false, false;
      events := [];
      dynamicMeasure := new DynamicMeasure(0, phaseQ, phaseStiffness);
    }

    /** `set_Monte_Carlo_params`: the four counts, and the bin count of the measuring object. */
    method SetMonteCarloParams(nwarm: nat, nbin: nat, nsweep: nat, nBetweenBins: nat)
      requires Valid()
      modifies this, dynamicMeasure
      ensures Valid()
      ensures Config() == old(Config()).(nwarm := nwarm, nbin := nbin, nsweep := nsweep, nBetweenBins := nBetweenBins)
      ensures events == old(events)
      ensures dynamicMeasure.phaseQ == old(dynamicMeasure.phaseQ)
      ensures dynamicMeasure.phaseStiffness == old(dynamicMeasure.phaseStiffness)
    {
      this.nwarm := nwarm;
      this.nsweep := nsweep;
      this.nBetweenBins := nBetweenBins;
      this.nbin := nbin;
      dynamicMeasure.Resize(nbin);
    }

    /** `set_controlling_params`: the three switches. */
    method SetControllingParams(warmUp: bool, eqtime: bool, dynamic: bool)
      requires Valid()
      modifies this
      ensures Valid()
      ensures Config() == old(Config()).(warmUp := warmUp, eqtime := eqtime, dynamic := dynamic)
      ensures events == old(events)
    {
      this.warmUp := warmUp;
      this.eqtime := eqtime;
      this.dynamic := dynamic;
    }

    /**
     * `read_aux_field_configs`: file is the text of the file, None when it
     * cannot be opened. On success the field is what Load makes of it;
     * otherwise the error is the one Load reports (the source stops the
     * process there).
     */
    method ReadAuxFieldConfigs(file: Option<string>) returns (err: Option<LoadError>)
      requires Valid()
      modifies s
      ensures var r := ReadOutcome(old(s[..]), file, ls, lt);
              && (err.None? <==> r.Loaded?)
              && (r.Loaded? ==> s[..] == r.cells)
              && (r.Rejected? ==> err == Some(r.error))
    {
      if file.None? {
        return Some(CannotOpen);
      }
      var maxL, maxI;
      err, maxL, maxI := ReadLines(Lines(file.value));
      if err.Some? {
        return err;
      }
      if maxL + 1 != lt {
        return Some(TimeExtentMismatch);
      }
      if maxI + 1 != ls {
        return Some(SiteExtentMismatch);
      }
      return None;
    }

    /**
     * The line loop of `read_aux_field_configs`: each line is split into
     * tokens and stored, and the loop stops at the first bad line. It ends
     * where Scan does: with Scan's error, or with Scan's cells and maxima.
     */
    method ReadLines(lines: seq<string>) returns (err: Option<LoadError>, maxL: int, maxI: int)
      requires s.Length == ls * lt
      modifies s
      ensures var st := Scan(old(s[..]), ParseAll(lines), ls, lt);
              && err == st.error
              && (err.None? ==> s[..] == st.cells && maxL == st.maxL && maxI == st.maxI)
    {
      ghost var cells0 := s[..];
      ghost var rs := ParseAll(lines);
      maxL, maxI := 0, 0;
      var k := 0;
      while k < |lines|
        invariant 0 <= k <= |lines| && |rs| == |lines|
        invariant Scan(cells0, rs[..k], ls, lt) == ScanState(s[..], maxL, maxI, None)
      {
        ScanOneMore(cells0, rs, k, ls, lt);
        assert rs[k] == ParseRow(lines[k]);
        match ParseRow(lines[k])
        case RowError(e) =>
          ScanErrorSticks(cells0, rs, k + 1, ls, lt);
          return Some(e), maxL, maxI;
        case Parsed(Entry(l, i, v)) =>
          if !(0 <= i < ls && 0 <= l < lt) {
            ScanErrorSticks(cells0, rs, k + 1, ls, lt);
            return Some(IndexOutOfRange), maxL, maxI;
          }
          maxL, maxI := StoreEntry(Entry(l, i, v), maxL, maxI);
        k := k + 1;
      }
      assert rs[..k] == rs;
      return None, maxL, maxI;
    }

    /** The store `s(i, l) = value` of one in-range entry and the update of the two maxima. */
    method StoreEntry(e: Entry, maxL: int, maxI: int) returns (maxL': int, maxI': int)
      requires s.Length == ls * lt && 0 <= e.i < ls && 0 <= e.l < lt
      modifies s
      ensures ScanState(s[..], maxL', maxI', None) == Step(ScanState(old(s[..]), maxL, maxI, None), Parsed(e), ls, lt)
    {
      StepStores(ScanState(s[..], maxL, maxI, None), e, ls, lt);
      ghost var before := s[..];
      s[CellIndex(e.i, e.l, ls)] := e.v;
      assert s[..] == before[CellIndex(e.i, e.l, ls) := e.v];
      maxL', maxI' := Max(maxL, e.l), Max(maxI, e.i);
    }

    /**
     * The output statement of the writer's inner loop: the row of cell
     * (l, i), that is of s(i, l), follows the rows written before it.
     */
    method WriteCell(l: nat, i: nat, text: string) returns (text': string)
      requires s.Length == ls * lt && l < lt && i < ls && ls * l + i < ls * lt
      requires text == Join(ConfigRows(s[..], ls, lt)[..ls * l + i])
      ensures text' == Join(ConfigRows(s[..], ls, lt)[..ls * l + i + 1])
    {
      ConfigPrefixStep(s[..], ls, lt, l, i, text);
      text' := text + Row(l, i, s[ls * l + i]) + "\n";
    }

    /** `file_output_aux_field_configs`: the text written is ConfigText of the field. */
    method FileOutputAuxFieldConfigs() returns (text: string)
      requires Valid()
      ensures text == ConfigText(s[..], ls, lt)
    {
      text := "";
      for l := 0 to lt
        invariant ls * l <= ls * lt
        invariant text == Join(ConfigRows(s[..], ls, lt)[..ls * l])
      {
        Lattice.MulMonotone(ls, l + 1, lt);
        NextSliceStart(ls, l);
        text := WriteSlice(l, text);
      }
      assert ConfigRows(s[..], ls, lt)[..ls * lt] == ConfigRows(s[..], ls, lt);
    }

    /** The writer's inner loop: the rows of slice l, sites in increasing order. */
    method WriteSlice(l: nat, text: string) returns (text': string)
      requires s.Length == ls * lt && l < lt && ls * l + ls <= ls * lt
      requires text == Join(ConfigRows(s[..], ls, lt)[..ls * l])
      ensures text' == Join(ConfigRows(s[..], ls, lt)[..ls * l + ls])
    {
      text' := text;
      for i := 0 to ls
        invariant text' == Join(ConfigRows(s[..], ls, lt)[..ls * l + i])
      {
        text' := WriteCell(l, i, text');
      }
    }

    /** `init_measure`: the time-displaced accumulators are set up when they are measured. */
    method InitMeasure(h: Hubbard)
      requires Valid() && h.lt == lt
      modifies Accumulators(dynamic)
      ensures dynamic ==> Measuring([])
    {
      if dynamic {
        dynamicMeasure.Initial(h);
      }
    }

    /**
     * `sweep_back_and_forth(eqtime, dynamic)`: displaced is Some(h) exactly
     * when time-displaced quantities are measured, h being the configuration
     * the displaced forward sweep leaves; hs are the configurations measured
     * since the last clear.
     */
    method SweepBackAndForth(eqtime: bool, displaced: Option<Hubbard>, ghost hs: seq<Hubbard>)
      requires Valid()
      requires displaced.Some? ==> Measuring(hs) && WellFormed(displaced.value) && displaced.value.lt == lt
      modifies this`events, Accumulators(displaced.Some?)
      ensures events == old(events) + SweepLog(eqtime, displaced.Some?)
      ensures displaced.Some? ==> Measuring(hs + [displaced.value])
      ensures BinsKept(dynamicMeasure.sign) && BinsKept(dynamicMeasure.greens)
      ensures BinsKept(dynamicMeasure.dos) && BinsKept(dynamicMeasure.stiffness)
    {
      var forth: seq<Event> := [SweepForth];
      if displaced.Some? {
        forth := [SweepForthDisplaced, MeasureTimeDisplaced];
        dynamicMeasure.AccumulateNext(displaced.value, hs, nbin, lt);
      }
      var eq: seq<Event> := if eqtime then [MeasureEqualTime] else [];
      events := events + forth + eq + [SweepBack] + eq;
    }

    /** n sweeps that measure nothing (warm-up and decorrelation). */
    method IdleSweeps(n: nat)
      requires Valid()
      modifies this`events
      ensures events == old(events) + Repeat(SweepLog(false, false), n)
    {
      for k := 0 to n
        invariant events == old(events) + Repeat(SweepLog(false, false), k)
      {
        SweepBackAndForth(false, None, []);
        RepeatOneMore(old(events), SweepLog(false, false), k);
      }
    }

    /** The nsweep/2 measuring sweeps of one bin; configs are the configurations they measure. */
    method MeasuringSweeps(configs: seq<Hubbard>)
      requires Valid()
      requires dynamic ==> |configs| == nsweep / 2 && Conforming(configs, lt) && Measuring([])
      modifies this`events, Accumulators(dynamic)
      ensures events == old(events) + Repeat(SweepLog(eqtime, dynamic), nsweep / 2)
      ensures dynamic ==> Measuring(configs)
      ensures BinsKept(dynamicMeasure.sign) && BinsKept(dynamicMeasure.greens)
      ensures BinsKept(dynamicMeasure.dos) && BinsKept(dynamicMeasure.stiffness)
    {
      ghost var done: seq<Hubbard> := [];
      for nsw := 1 to nsweep / 2 + 1
        invariant events == old(events) + Repeat(SweepLog(eqtime, dynamic), nsw - 1)
        invariant dynamic ==> done == configs[..nsw - 1] && Measuring(done)
        invariant BinsKept(dynamicMeasure.sign) && BinsKept(dynamicMeasure.greens)
        invariant BinsKept(dynamicMeasure.dos) && BinsKept(dynamicMeasure.stiffness)
      {
        if dynamic {
          SweepBackAndForth(eqtime, Some(configs[nsw - 1]), done);
          PrefixGrows(configs, nsw - 1);
          done := done + [configs[nsw - 1]];
        } else {
          SweepBackAndForth(eqtime, None, []);
        }
        RepeatOneMore(old(events), SweepLog(eqtime, dynamic), nsw - 1);
      }
      assert dynamic ==> configs[..nsweep / 2] == configs;
    }

    /**
     * Closing a bin: normalise, write to slot bin and clear, for each
     * measured family. Slot bin of the time-displaced accumulators then
     * holds the values of the configurations hs, and no other slot changes.
     */
    method CloseBin(bin: nat, ghost hs: seq<Hubbard>)
      requires Valid() && bin < nbin
      requires dynamic ==> Measuring(hs) && SignSum(hs) != 0.0
      modifies this`events, Accumulators(dynamic)
      ensures events == old(events) + CloseLog(Config(), bin)
      ensures dynamic ==> Measuring([])
      ensures dynamic ==>
                var m := dynamicMeasure;
                && m.sign.bins == old(m.sign.bins)[bin := m.sign.bins[bin]]
                && m.greens.bins == old(m.greens.bins)[bin := m.greens.bins[bin]]
                && m.dos.bins == old(m.dos.bins)[bin := m.dos.bins[bin]]
                && m.stiffness.bins == old(m.stiffness.bins)[bin := m.stiffness.bins[bin]]
                && BinValues(m.sign.bins[bin], m.greens.bins[bin], m.dos.bins[bin], m.stiffness.bins[bin],
                             hs, m.phaseQ, m.phaseStiffness, lt)
    {
      if eqtime {
        events := events + [NormalizeEqualTime, WriteEqualTime(bin), ClearEqualTime];
      }
      if dynamic {
        CloseDynamicBin(bin, hs);
        events := events + [NormalizeDynamic, WriteDynamic(bin), ClearDynamic];
      }
    }

    /** normalise, write to slot bin and clear of the time-displaced accumulators. */
    method CloseDynamicBin(bin: nat, ghost hs: seq<Hubbard>)
      requires Valid() && bin < nbin
      requires Measuring(hs) && SignSum(hs) != 0.0
      modifies Accumulators(true)
      ensures Measuring([])
      ensures var m := dynamicMeasure;
              && m.sign.bins == old(m.sign.bins)[bin := m.sign.bins[bin]]
              && m.greens.bins == old(m.greens.bins)[bin := m.greens.bins[bin]]
              && m.dos.bins == old(m.dos.bins)[bin := m.dos.bins[bin]]
              && m.stiffness.bins == old(m.stiffness.bins)[bin := m.stiffness.bins[bin]]
              && BinValues(m.sign.bins[bin], m.greens.bins[bin], m.dos.bins[bin], m.stiffness.bins[bin],
                           hs, m.phaseQ, m.phaseStiffness, lt)
    {
      var m := dynamicMeasure;
      NormalizedBin(hs, m.phaseQ, m.phaseStiffness, lt);
      m.NormalizeStats();
      m.WriteStatsToBins(bin);
      m.ClearTemporary();
    }

    /**
     * One bin of `run_QMC`: the nsweep/2 measuring sweeps over the
     * configurations samples[bin], the close of bin `bin` and the
     * decorrelation sweeps. Slot bin of the time-displaced accumulators then
     * holds the values of samples[bin], and no other slot changes.
     */
    method MeasureBin(bin: nat, samples: seq<seq<Hubbard>>)
      requires Valid() && bin < nbin
      requires dynamic ==> Ready(samples) && Measuring([]) && BinsHold(samples, bin)
      modifies this`events, Accumulators(dynamic)
      ensures events == old(events) + BinLog(Config(), bin)
      ensures dynamic ==> Measuring([]) && BinsHold(samples, bin + 1)
    {
      var configs := if dynamic then samples[bin] else [];
      ghost var m := dynamicMeasure;
      ghost var b0, b1, b2, b3 := m.sign.bins, m.greens.bins, m.dos.bins, m.stiffness.bins;
      MeasuringSweeps(configs);
      CloseBin(bin, configs);
      if dynamic {
        HoldsOneMore(b0, b1, b2, b3, samples, bin, m.phaseQ, m.phaseStiffness, lt,
                     m.sign.bins[bin], m.greens.bins[bin], m.dos.bins[bin], m.stiffness.bins[bin]);
      }
      IdleSweeps(nBetweenBins);
      BinAfter(old(events), Config(), bin);
    }

    /** The measuring process of `run_QMC`: bins 0 .. nbin-1, one after the other. */
    method MeasureBins(samples: seq<seq<Hubbard>>)
      requires Valid()
      requires dynamic ==> Ready(samples) && Measuring([])
      modifies this`events, Accumulators(dynamic)
      ensures events == old(events) + BinsLog(Config(), nbin)
      ensures dynamic ==> Measuring([]) && BinsHold(samples, nbin)
    {
      for bin := 0 to nbin
        invariant events == old(events) + BinsLog(Config(), bin)
        invariant dynamic ==> Measuring([]) && BinsHold(samples, bin)
      {
        MeasureBin(bin, samples);
        BinsAfter(old(events), Config(), bin);
      }
    }

    /** The start of `run_QMC`: the measured accumulators are cleared, then the warm-up sweeps run. */
    method ClearAndWarmUp()
      requires Valid()
      requires dynamic ==> dynamicMeasure.Prepared(nbin, lt)
      modifies this`events, Accumulators(dynamic)
      ensures events == old(events) + ClearLog(Config()) + WarmUpLog(Config())
      ensures dynamic ==> Measuring([])
    {
      ClearMeasurements();
      if warmUp {
        IdleSweeps(nwarm / 2);
      } else {
        assert events + [] == events;
      }
    }

    /** The clearing of the measured quantities that opens `run_QMC`. */
    method ClearMeasurements()
      requires Valid()
      requires dynamic ==> dynamicMeasure.Prepared(nbin, lt)
      modifies this`events, Accumulators(dynamic)
      ensures events == old(events) + ClearLog(Config())
      ensures dynamic ==> Measuring([])
    {
      ghost var e0 := events;
      if eqtime {
        events := events + [ClearEqualTime];
      }
      if dynamic {
        dynamicMeasure.ClearTemporary();
        events := events + [ClearDynamic];
      }
      AppendAssoc(e0, if eqtime then [ClearEqualTime] else [], if dynamic then [ClearDynamic] else []);
    }

    /**
     * `run_QMC`: clear, warm up, then per bin the measuring sweeps, the
     * close and the decorrelation sweeps. The steps are exactly Schedule;
     * when time-displaced quantities are measured, bin b ends up holding
     * the normalised values of samples[b].
     */
    method RunQMC(samples: seq<seq<Hubbard>>)
      requires Valid()
      requires dynamic ==> Ready(samples) && dynamicMeasure.Prepared(nbin, lt)
      modifies this`events, Accumulators(dynamic)
      ensures events == old(events) + Schedule(Config())
      ensures dynamic ==> BinsHold(samples, nbin) && Measuring([])
    {
      ghost var e0 := events;
      ClearAndWarmUp();
      ghost var p := Config();
      if eqtime || dynamic {
        MeasureBins(samples);
      } else {
        assert events + [] == events;
      }
      ScheduleAfter(e0, p);
    }
  }
}
