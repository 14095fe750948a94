# general-dqmc: the discrete bookkeeping of the determinant QMC driver

general-dqmc is a determinant quantum Monte Carlo code for the two-dimensional
Hubbard model. Most of it is floating-point linear algebra. This project models
the exact, discrete parts around that linear algebra and proves what they do:

- **The auxiliary-field file** (`detQMC::file_output_aux_field_configs` and
  `detQMC::read_aux_field_configs`).
  - The field s(i, l) is stored column-major in an `array<int>`.
  - The writer emits one row `setw(15) l, setw(15) i, setw(15) s(i, l)` per
    cell, with slices outermost.
  - The reader's tokenizer is `boost::split` on `' '` with the empty tokens
    erased. Its parse is `lexical_cast`, its store is `s(i, l) = value`, and
    it asserts both maxima.
  - Both are modelled as functions (`ConfigText`, `Load`) and as methods of
    the driver class proved against them. The round trip is proved, and so is
    the exact acceptance condition, which does not require every cell to be
    present.
- **The bin accumulators of the time-displaced measurements**
  (`Measure::DynamicMeasure`).
  - Each of the four observables (sign, Matsubara Green's function, density of
    states, superfluid stiffness) is an `Observable` object. It holds a
    temporary, a count, a zero element and one slot per bin.
  - `initial`, `clear_temporary`, `time_displaced_measure`, `normalize_stats`
    and `write_stats_to_bins` are methods whose postconditions give the whole
    new state.
  - Predicates `Prepared` and `Accumulated(hs)` tie the temporaries to exact
    sums over the configurations `hs` measured since the last clear.
  - Each measurement keeps its nested site, displacement and slice loops, with
    invariants against reference sums.
- **The schedule of `detQMC::run_QMC`.**
  - The driver records every sweep, measurement, normalisation, write and
    clear as an event.
  - Its methods prove that a run produces exactly `Schedule(Config())`.
    Lemmas about `Schedule` count the measurements and show that bins are
    written once each, in increasing order.
  - When time-displaced quantities are measured, bin b ends up holding the
    normalised values of the configurations measured into it.
- **Periodic index arithmetic.**
  - The site index is `x + ll*y`.
  - The translated site is `(xi+dx)%ll + ll*((yi+dy)%ll)`.
  - The +x neighbour is `(x+1)%ll + ll*y`.
  - The time-slice shift is `(l-1+lt)%lt`, which equals `l == 0 ? lt-1 : l-1`.
  - For each, the project proves range, injectivity, surjectivity and the
    inverse.

Files: `lattice.dfy` (module Lattice), `text.dfy` (Text), `aux_field.dfy`
(AuxFieldFile), `observable.dfy` (Accumulators), `sums.dfy` (Sums),
`dynamic_measure.dfy` (TimeDisplaced) and `det_qmc.dfy` (DetQmc).

**Names.**
- `src/detQMC.cpp` calls the accumulator methods by older names: `normalizeStats`, `write_Stats_to_bins`, `measure_time_displaced` and `clear`. The model uses the definitions in `src/dynamic_measure.cpp`: `normalize_stats`, `write_stats_to_bins`, `time_displaced_measure` and `clear_temporary`.
- The loop order comes from `src/detQMC.cpp`.

**The reader does not require every cell to be present.** `read_aux_field_configs` starts both running maxima at 0, so:
- an empty file is accepted exactly when lt == ls == 1 (`EmptyFileAcceptance`);
- a single row naming the last cell is enough to pass both checks (`LastCellRowSuffices`).

## Model

| member | source | states |
|---|---|---|
| Lattice.SiteIndexInRange | src/dynamic_measure.cpp:80 | the base index x + ll*y of a site lies in [0, ll*ll), and x and y are recovered from it by % and / |
| Lattice.SiteDecodeInRange | src/dynamic_measure.cpp:80 | every index in [0, ll*ll) decodes to coordinates in [0, ll) that encode back to it (the site index is a bijection) |
| Lattice.GridIndexInRange | src/detQMC.cpp:57 | the column-major cell i + w*l of an in-range (i, l) lies inside the w*h matrix and decodes back to (i, l) |
| Lattice.UnwrapOfWrap | src/dynamic_measure.cpp:84 | the periodic coordinate (a + d) % ll stays in [0, ll), and the displacement d is recovered from it |
| Lattice.WrapOfUnwrap | src/dynamic_measure.cpp:84 | every coordinate in [0, ll) is reached from a by exactly one displacement |
| Lattice.TranslatedInRange | src/dynamic_measure.cpp:84 | the translated index j of an in-range base point and displacement lies in [0, ll*ll) and is the site of the wrapped coordinates |
| Lattice.TranslatedInjective | src/dynamic_measure.cpp:134 | for a fixed base site, the displacement (dx, dy) is recovered from j |
| Lattice.TranslatedSurjective | src/dynamic_measure.cpp:84 | for a fixed base site, every site j is the translate of some displacement in range |
| Lattice.TranslatedDistinct | src/dynamic_measure.cpp:84 | two different displacements from the same base site reach different sites |
| Lattice.PlusXOfSite | src/dynamic_measure.cpp:127 | the +x neighbour ipx of site (x, y) is site ((x+1)%ll, y) and lies in [0, ll*ll) |
| Lattice.BondPartners | src/dynamic_measure.cpp:127 | ipx and jpx as the source writes them are the +x neighbours of i and j, both in [0, ll*ll) |
| Lattice.TranslatedPlusX | src/dynamic_measure.cpp:135 | jpx = (xi+dx+1)%ll + ll*((yi+dy)%ll) is the +x neighbour of the translated site j and is in range |
| Lattice.PlusXBijective | src/dynamic_measure.cpp:127 | the +x step and the -x step are mutually inverse permutations of the sites |
| Lattice.StepInverse | src/dynamic_measure.cpp:127 | the periodic +1 and -1 coordinate steps stay in [0, ll) and undo each other |
| Lattice.TauShiftIsSliceOf | src/detQMC.cpp:280 | (l - 1 + lt) % lt lies in [0, lt), is lt-1 for l == 0 and l-1 otherwise, the slice rule of the measurements |
| Lattice.TauShiftBijective | src/detQMC.cpp:335 | the tau shift is a bijection on [0, lt): shifting back one slot after it, or before it, gives l again |
| Text.DigitsRoundTrip | src/detQMC.cpp:361 | the decimal digits the stream prints for a natural number read back as that number |
| Text.ShowParseInt | src/detQMC.cpp:55 | every 32-bit int printed by the stream is read back by lexical_cast<int> as the same int |
| Text.ShowShort | src/detQMC.cpp:361 | a printed 32-bit int has 1 to 11 characters, and no space or newline |
| Text.ParseInt | src/detQMC.cpp:55 | lexical_cast<int> accepts only values representable in 32 bits |
| Text.Pad | src/detQMC.cpp:361 | setw(15) pads a shorter word to exactly 15 characters and leaves a longer one unchanged |
| Text.PadRightAligned | src/detQMC.cpp:361 | setw(15) right-aligns a shorter word: the word ends the padded text and every character before it is a space |
| Text.FieldsAtSpace | src/detQMC.cpp:52 | boost::split at a space separator splits the text into the fields of each side |
| Text.FieldsOfWord | src/detQMC.cpp:52 | a word without spaces is a single field |
| Text.RemoveEmptyAppend | src/detQMC.cpp:53 | erasing the empty tokens distributes over concatenation |
| Text.TokensAtSpace | src/detQMC.cpp:52-53 | the tokens of a + " " + b are the tokens of a followed by those of b |
| Text.TokensCollapseSpaces | src/detQMC.cpp:52-53 | a run of two spaces gives the same tokens as one space |
| Text.TokensTrailingSpaces | src/detQMC.cpp:52-53 | trailing spaces add no token |
| Text.TokensAppendPadded | src/detQMC.cpp:52-53 | appending a setw(15)-padded word adds exactly that word as one token |
| Text.LineEnd | src/detQMC.cpp:50 | getline's line end is the first newline at or after the start, or the end of the text |
| Text.JoinAppend | src/detQMC.cpp:364 | emitting one more row with endl appends the row and a newline to the output |
| Text.LinesOfJoin | src/detQMC.cpp:50 | getline over rows each ended by a newline returns exactly those rows |
| AuxFieldFile.ConfigRows | src/detQMC.cpp:359-366 | the writer emits exactly ls*lt rows |
| AuxFieldFile.ConfigRowsOrdered | src/detQMC.cpp:359-366 | with l in the outer loop and i in the inner one, the row of cell (l1, i1) precedes the row of cell (l2, i2) exactly when l1 < l2, or l1 == l2 and i1 < i2 |
| AuxFieldFile.CellIndexOrder | src/detQMC.cpp:359-360 | the column-major index i + ls*l of in-range cells increases exactly in the order of the writer's loops: by l first, then by i |
| AuxFieldFile.ConfigRowAt | src/detQMC.cpp:361-363 | the row of cell (l, i) is `l i s(i, l)` |
| AuxFieldFile.RowTokens | src/detQMC.cpp:361-364 | the tokens of a written row are exactly the printed l, i and value |
| AuxFieldFile.RowNoNewline | src/detQMC.cpp:361-363 | a written row contains no newline before its endl |
| AuxFieldFile.RowParses | src/detQMC.cpp:55-57 | the reader parses a written row back to its (l, i, value), for values the default format prints plainly |
| AuxFieldFile.Step | src/detQMC.cpp:55-59 | one line keeps the reader going exactly when it parses and its (i, l) lies inside the matrix, and the cell count never changes |
| AuxFieldFile.Scan | src/detQMC.cpp:50-60 | the reader loop never changes the size of the field |
| AuxFieldFile.ScanErrorSticks | src/detQMC.cpp:55-57 | after a failing line the process stops: the later lines change nothing |
| AuxFieldFile.ScanFailsOnBadRow | src/detQMC.cpp:55-57 | the loop fails if and only if some line is missing a token, has a bad lexeme, or names a cell outside the matrix |
| AuxFieldFile.ScanEffect | src/detQMC.cpp:55-59 | after the loop, unnamed cells are unchanged, a named cell holds the value of the last line naming it, and the maxima are the largest l and i seen (0 when none) |
| AuxFieldFile.ScanMaxima | src/detQMC.cpp:58-62 | max(l) + 1 == lt holds exactly when lt >= 1 and (lt == 1 or some line has l == lt-1), and likewise for i and ls |
| AuxFieldFile.LoadAcceptedIff | src/detQMC.cpp:50-62 | the reader accepts a file exactly when every line stores in range, the extents are positive, and the last slice and last site each appear unless that extent is 1 |
| AuxFieldFile.LoadKeepsUnnamedCells | src/detQMC.cpp:57 | a cell named by no line keeps its previous value |
| AuxFieldFile.LoadTakesLastValue | src/detQMC.cpp:57 | a named cell holds the value of the last line naming it |
| AuxFieldFile.LastCellRowSuffices | src/detQMC.cpp:61-62 | a file whose only row names cell (ls-1, lt-1) passes both checks and changes only that cell: the check does not require every cell to be present |
| AuxFieldFile.EmptyFileAcceptance | src/detQMC.cpp:61-62 | an empty file is accepted exactly when lt == ls == 1, and then it changes nothing |
| AuxFieldFile.WrittenEntries | src/detQMC.cpp:359-366 | one parsed entry per cell of the field |
| AuxFieldFile.ParseConfigText | src/detQMC.cpp:359-366 | the lines of the writer's output parse to the entries (l, i, s(i, l)) in writing order |
| AuxFieldFile.ScanWrittenPrefix | src/detQMC.cpp:50-60 | reading the first k written rows sets the first k cells and keeps the maxima below the extents |
| AuxFieldFile.ScanWritten | src/detQMC.cpp:50-60 | reading every written row restores the whole field, with maxima lt-1 and ls-1 |
| AuxFieldFile.LoadConfigText | src/detQMC.cpp:354-367 | round trip: reading back the writer's output, over any previous field, passes both checks and restores every s(i, l) |
| Accumulators.Normalizer | src/dynamic_measure.cpp:56 | the divisor count * normalised sign is nonzero when the count is positive and the sign is nonzero |
| Accumulators.NormalizedIsRatio | src/dynamic_measure.cpp:55-58 | dividing by count * (sign sum / count) is dividing by the sign sum |
| Accumulators.AddAtIsPlusUnit | src/dynamic_measure.cpp:86 | `tmp_value()(t) +=` adds to slot t only, leaving every other slot unchanged |
| Accumulators.DivByPlus | src/dynamic_measure.cpp:56-58 | normalising a sum is summing the normalised parts |
| Accumulators.TotalAppend | src/dynamic_measure.cpp:41 | the accumulated total of two runs of measurements is the sum of their totals |
| Accumulators.Observable.SetSizeOfBin | src/dynamic_measure.cpp:13-16 | sets the number of bins and nothing else |
| Accumulators.Observable.SetZeroElement | src/dynamic_measure.cpp:19-22 | sets the zero element and nothing else |
| Accumulators.Observable.Allocate | src/dynamic_measure.cpp:25-28 | one zero slot per bin, temporary at zero, count 0 |
| Accumulators.Observable.ClearTemporary | src/dynamic_measure.cpp:33-36 | the temporary is reset to the zero element and the count to 0, bins untouched |
| Accumulators.Observable.Add | src/dynamic_measure.cpp:41 | the temporary grows by x, and nothing else changes |
| Accumulators.Observable.AddAtSlot | src/dynamic_measure.cpp:86 | slot t of the vector temporary grows by x, and nothing else changes |
| Accumulators.Observable.Increment | src/dynamic_measure.cpp:48-51 | the count grows by exactly one, and nothing else changes |
| Accumulators.Observable.Divide | src/dynamic_measure.cpp:55-58 | the temporary is divided by d, and nothing else changes |
| Accumulators.Observable.WriteToBin | src/dynamic_measure.cpp:63-66 | slot bin becomes the temporary, and every other slot, the temporary and the count are unchanged |
| Sums.LoopSum | src/dynamic_measure.cpp:78-90 | the four nested loops over base point and displacement accumulate exactly the quadruple sum of the summand |
| Sums.Sum4Scaled | src/dynamic_measure.cpp:86 | a common factor (the configuration sign) comes out of the quadruple sum |
| Sums.Sum4Congruent | src/dynamic_measure.cpp:78-90 | the sum depends only on the summand's values inside the lattice |
| TimeDisplaced.SlotGreenIsSpinUp | src/dynamic_measure.cpp:73-75 | gt0 of slot t is the spin-up G_tt of the last slice for t == 0 and G_t0 of slice t-1 otherwise; it reads no spin-down matrix |
| TimeDisplaced.GreensLinearInSign | src/dynamic_measure.cpp:86 | the Green's function increment is the configuration sign times the increment with sign 1 |
| TimeDisplaced.TraceIsSiteSum | src/dynamic_measure.cpp:99 | the trace over ls = ll*ll diagonal entries visits every site (x, y) once |
| TimeDisplaced.StiffnessCoversEverySlice | src/dynamic_measure.cpp:114-115 | the slot loop with tau = (l == 0 ? lt-1 : l-1) reads every slice exactly once, so its total is the sum over all slices |
| TimeDisplaced.StiffnessSum | src/dynamic_measure.cpp:114-153 | the slice, base-point and displacement loops accumulate the sum over all slices of the per-slice quadruple sums |
| TimeDisplaced.SignSumPositive | src/dynamic_measure.cpp:41 | a bin of positive-sign configurations has a positive sign sum, so normalisation is defined |
| TimeDisplaced.GreensTotalSlots | src/dynamic_measure.cpp:42-45 | slot t of the accumulated Green's function is the sum of every configuration's slot-t increment |
| TimeDisplaced.TotalsStep | src/dynamic_measure.cpp:40-52 | measuring one more configuration adds its sign, its increments and its stiffness to the running totals |
| TimeDisplaced.NormalizedBin | src/dynamic_measure.cpp:54-60 | normalising the totals of a bin with nonzero sign sum gives mean sign = sum/count and each observable divided by count * mean sign |
| TimeDisplaced.DynamicMeasure.constructor | src/dynamic_measure.cpp:4-6 | stores nbin and the phase tables, with four distinct fresh accumulators |
| TimeDisplaced.DynamicMeasure.Resize | src/dynamic_measure.cpp:8-10 | sets nbin and keeps the phase tables |
| TimeDisplaced.DynamicMeasure.Initial | src/dynamic_measure.cpp:12-30 | all four accumulators get nbin zero bins; the zero element is a scalar for sign and stiffness and a length-lt vector for the Green's function and density of states; counts are 0 |
| TimeDisplaced.DynamicMeasure.ClearTemporary | src/dynamic_measure.cpp:32-38 | every temporary returns to its zero element and every count to 0; no bin, zero element or bin count changes |
| TimeDisplaced.DynamicMeasure.MeasureMatsubaraGreens | src/dynamic_measure.cpp:70-91 | for 0 <= t < lt, exactly slot t of the Green's function temporary grows by the quadruple sum for slot t |
| TimeDisplaced.DynamicMeasure.MeasureDensityOfStates | src/dynamic_measure.cpp:93-100 | for 0 <= t < lt, slot t of the density temporary grows by sign * trace(gt0) / ls |
| TimeDisplaced.DynamicMeasure.MeasureSuperfluidStiffness | src/dynamic_measure.cpp:102-158 | the stiffness temporary grows by 0.25 * rho_s / ls / ls, with rho_s the sum over all slices |
| TimeDisplaced.DynamicMeasure.MeasureSlots | src/dynamic_measure.cpp:42-45 | the slot loop adds the whole increment vectors of the Green's function and density of states |
| TimeDisplaced.DynamicMeasure.TimeDisplacedMeasure | src/dynamic_measure.cpp:40-52 | the sign temporary grows by exactly config_sign, each observable by its increment, and each of the four counts by exactly one; bins unchanged |
| TimeDisplaced.DynamicMeasure.AccumulateNext | src/dynamic_measure.cpp:40-52 | a measurement keeps the invariant that the temporaries and counts are the totals of the configurations measured since the last clear |
| TimeDisplaced.DynamicMeasure.NormalizeStats | src/dynamic_measure.cpp:54-60 | the sign becomes sum/count first; every other temporary is then divided by its count times that normalised sign; counts and bins unchanged |
| TimeDisplaced.DynamicMeasure.WriteStatsToBins | src/dynamic_measure.cpp:62-68 | slot bin of each accumulator becomes its temporary; every other slot, the temporaries and the counts are unchanged |
| DetQmc.SweepMeasurements | src/detQMC.cpp:167-187 | one sweep pair makes two equal-time measurements (when asked), one time-displaced measurement (only forward, when asked) and one backward sweep |
| DetQmc.WarmUpMeasuresNothing | src/detQMC.cpp:98-118 | the warm-up makes nwarm/2 sweep pairs and no measurement |
| DetQmc.CloseCounts | src/detQMC.cpp:136-147 | closing a bin sweeps and measures nothing |
| DetQmc.BinMeasurements | src/detQMC.cpp:125-153 | one bin makes nsweep/2 time-displaced measurements, twice that many equal-time ones, and nsweep/2 + n_between_bins sweep pairs |
| DetQmc.BinsMeasurements | src/detQMC.cpp:125-153 | nbin bins together make nbin times the counts of one bin |
| DetQmc.ScheduleMeasurements | src/detQMC.cpp:84-165 | a run makes nbin*(nsweep/2) time-displaced measurements, 2*nbin*(nsweep/2) equal-time ones, and counts its sweep pairs over warm-up, measuring and decorrelation |
| DetQmc.ScheduleCount | src/detQMC.cpp:84-165 | the sweeps and measurements of a run are those of its warm-up and its bins; the clears add none |
| DetQmc.SweepsWriteNothing | src/detQMC.cpp:126-134 | sweeps never write a bin |
| DetQmc.CloseWritten | src/detQMC.cpp:143-147 | closing bin b writes the time-displaced bins at slot b only, and only when they are measured |
| DetQmc.BinWritten | src/detQMC.cpp:125-153 | one bin writes the time-displaced bins once, at its own slot |
| DetQmc.BinsWritten | src/detQMC.cpp:125 | bins 0 .. n-1 write slots 0, 1, ..., n-1 in increasing order |
| DetQmc.ScheduleWritesBinsInOrder | src/detQMC.cpp:120-159 | a run writes the time-displaced bins exactly once per bin, in the order 0 .. nbin-1, and never when they are not measured |
| DetQmc.TauOrderedRotates | src/detQMC.cpp:334-341 | the output rows of the time-displaced writer are the slots rotated by one (last slot first), a permutation of the slots |
| DetQmc.HoldsOneMore | src/detQMC.cpp:143-147 | storing bin n's normalised values extends "bins 0 .. n-1 hold their values" to bin n, leaving earlier bins intact |
| DetQmc.DetQmc.constructor | src/detQMC.cpp:8-12 | the model parameters set the lattice extents and the field, with all Monte Carlo parameters zero and no steps taken |
| DetQmc.DetQmc.SetMonteCarloParams | src/detQMC.cpp:14-22 | sets nwarm, nbin, nsweep and n_between_bins, resizes the measurement to nbin bins, and changes nothing else of the configuration |
| DetQmc.DetQmc.SetControllingParams | src/detQMC.cpp:24-28 | sets the three switches and nothing else |
| DetQmc.DetQmc.ReadAuxFieldConfigs | src/detQMC.cpp:36-71 | no error exactly when the file opens and Load accepts it, in which case the field becomes the loaded cells; otherwise returns Load's error (or CannotOpen) |
| DetQmc.DetQmc.ReadLines | src/detQMC.cpp:50-60 | the line loop ends with exactly the state and the maxima of the reader scan, or with its first error |
| DetQmc.DetQmc.StoreEntry | src/detQMC.cpp:57-59 | the store s(i, l) = value and the update of both maxima are exactly one step of the reader scan |
| DetQmc.DetQmc.WriteCell | src/detQMC.cpp:361-364 | the output statement extends the rows written so far by the row of cell (l, i) |
| DetQmc.DetQmc.WriteSlice | src/detQMC.cpp:360-365 | the inner loop appends the rows of slice l, sites 0 .. ls-1 in order, to the rows written before |
| DetQmc.DetQmc.FileOutputAuxFieldConfigs | src/detQMC.cpp:354-367 | the nested writer loops produce exactly ConfigText of the field (so LoadConfigText applies to their output) |
| DetQmc.DetQmc.InitMeasure | src/detQMC.cpp:73-82 | after init_measure the time-displaced accumulators are prepared and hold nothing measured |
| DetQmc.DetQmc.SweepBackAndForth | src/detQMC.cpp:167-187 | the steps are exactly SweepLog, and a displaced forward sweep adds its configuration to the measured ones |
| DetQmc.DetQmc.IdleSweeps | src/detQMC.cpp:150-152 | n sweep pairs that measure nothing |
| DetQmc.DetQmc.MeasuringSweeps | src/detQMC.cpp:126-134 | nsweep/2 measuring sweep pairs; the accumulators then hold exactly the configurations of this bin |
| DetQmc.DetQmc.CloseBin | src/detQMC.cpp:143-147 | normalise, write to slot bin and clear: only slot bin changes, and it holds the normalised values of the bin's configurations |
| DetQmc.DetQmc.CloseDynamicBin | src/detQMC.cpp:143-147 | the time-displaced normalise, write and clear: only slot bin changes, it holds the bin's normalised values, and the accumulators are empty again |
| DetQmc.DetQmc.MeasureBin | src/detQMC.cpp:125-153 | one bin's steps are BinLog, and bins 0 .. bin hold their normalised values |
| DetQmc.DetQmc.MeasureBins | src/detQMC.cpp:125-153 | the bin loop's steps are BinsLog, and every bin holds its normalised values |
| DetQmc.DetQmc.ClearMeasurements | src/detQMC.cpp:86-93 | the measured quantities are cleared, one event per measured family |
| DetQmc.DetQmc.ClearAndWarmUp | src/detQMC.cpp:86-118 | the clear and then nwarm/2 sweep pairs without measurement, when warm-up is on |
| DetQmc.DetQmc.RunQMC | src/detQMC.cpp:84-165 | the steps of run_QMC are exactly Schedule(Config()); with time-displaced measurement on, bin b ends holding the normalised values of the configurations of bin b |

## Left out

- Floating point: all observable values are exact reals. IEEE rounding, inf and NaN are not modelled.
- Cosine phases: the phases cos(-r.q) and cos(r.qx) - cos(r.qy) are tables over the displacement (fields of `DynamicMeasure`), not computed cosines.
- Matrices: Eigen matrices are entry functions, and the Green's-function stacks are given per configuration. Their production is not part of this model: `Hubbard`, the B-matrix products, `init_stacks`, `SvdStack`, and the `sweep_0_to_beta*` and `sweep_beta_to_0` propagation with their stabilisation and wrap errors.
- Sweeps: a sweep is an event. The configuration a displaced forward sweep leaves behind is supplied by the caller, as the `samples` of `RunQMC`.
- Randomness and Metropolis acceptance are not modelled.
- Equal-time measurements: `eqtimeMeasure` appears only as events, because its class is not part of this model.
- TimeDisplaced.DynamicMeasure.NormalizeStats: requires a positive count and a nonzero sign sum. The source would divide by zero there and produce inf or NaN. CloseBin, MeasureBin, MeasureBins and RunQMC inherit it as `SignSum(...) != 0.0` in `Ready`.
- DetQmc.DetQmc.CloseDynamicBin: requires `SignSum(hs) != 0.0`, the same requirement as NormalizeStats, where the source would produce inf or NaN.
- AuxFieldFile.ParseRow: reads the value as an integer lexeme, where the source uses `lexical_cast<double>`. The field values are the integer spins, so non-integer lexemes are rejected rather than read.
- AuxFieldFile.LoadAcceptedIff: inherits ParseRow's integer-lexeme domain; a value lexeme such as `0.5` counts as a rejection, although `lexical_cast<double>` reads it.
- DetQmc.DetQmc.ReadAuxFieldConfigs: inherits ParseRow's integer-lexeme domain; a value lexeme such as `0.5` is returned as an error.
- AuxFieldFile.RowParses: the round trip is stated for |value| < 10^6. That is where the stream's default 6-digit format prints an integer without an exponent.
- DetQmc.DetQmc.WriteCell: prints the value column as a plain integer (`AuxFieldFile.Row`) for every value; the stream writes the double `hubb.s(i, l)` in its default 6-significant-digit format, which is the plain integer only when |value| < 10^6; for larger values it writes exponent form (`1e+06`, `1.23457e+06`), which the model does not produce.
- DetQmc.DetQmc.WriteSlice: inherits WriteCell's plain-integer value column, exact only when every |value| < 10^6.
- DetQmc.DetQmc.FileOutputAuxFieldConfigs: its output is `AuxFieldFile.ConfigText`, whose value column is a plain integer for every value; the real output agrees only when every |value| < 10^6.
- Accumulators.Observable.ClearTemporary: the accumulator class itself is not part of this model. That `clear_temporary` resets the count to 0 as well as the sum to the zero element is inferred from how src/dynamic_measure.cpp uses it: `normalize_stats` divides by the count of the current bin only.
- Accumulators.Observable.Increment: also inferred from its uses in src/dynamic_measure.cpp, where `++` counts exactly one measurement and touches nothing else.
- Accumulators.Observable.Allocate: the zero element of the vector accumulators is the zero vector. `Eigen::VectorXd(lt)` itself leaves its entries uninitialised.
- Parameters: integer parameters are `nat`, so negative extents or counts are not modelled.
- Errors: `exit(1)` and the failing `assert`s of the reader are a returned error. The field contents after an error are left unspecified, because the process has stopped. The reader's other failures are modelled as returned errors too, although the source does not report them:
  - Short line: a line with fewer than three tokens makes `data[0]`, `data[1]` or `data[2]` index past the end of the `std::vector` (src/detQMC.cpp:55-57), which is undefined behaviour. The model returns `MissingToken`.
  - Bad lexeme: `boost::lexical_cast` throws `bad_lexical_cast`, which nothing catches, so the program terminates. The model returns `BadLexeme`.
  - Cell outside the matrix: `hubb.s(i, l)` with an out-of-range index fails Eigen's bounds assertion (src/detQMC.cpp:57). The model returns `IndexOutOfRange`.
  - Build mode: the model follows a build with assertions enabled. Under `NDEBUG` the two extent asserts (src/detQMC.cpp:61-62) and Eigen's bounds check are compiled out, and the program accepts a file of any shape; that behaviour is not modelled.
- `set_model_params` and `set_lattice_momentum`: modelled only as the driver's constructor, taking the extents, the field and the phase tables.
- The statistics writers are left out as formatting of doubles: `file_output_stats_eqtime`, `file_output_stats_dynamic`, `file_output_tau_seq` and `file_output_stats_in_bins_dynamic`. Only their slot order (`TauOrdered`) is kept.
- Console and timing are left out as I/O only: `analyse_stats`, `print_params`, `print_stats`, the progress bar, `std::chrono` timing and the wrap-error output.
- Files outside the model:
  - src/main.cpp (command-line parsing and driver wiring) is not part of this model.
  - include/lattice/lattice_base.h (declarations only) is not part of this model.
  - test/test_main.cpp (printing without checks) is not part of this model.
