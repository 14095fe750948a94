/**
 * The auxiliary-field configuration file: what the writer emits and what the
 * reader makes of a file, as functions of the field and of the file text.
 *
 * The field s(i, l) (site i in [0, ls), slice l in [0, lt)) is an Eigen
 * matrix, stored column-major, so cell (i, l) sits at index i + ls*l of the
 * flat sequence `cells`; the writer visits the cells in exactly that order.
 * Field values are integers (the +-1 Hubbard-Stratonovich spins); the writer
 * prints a double with the stream's default 6 significant digits, which
 * gives the plain decimal form only for integers of magnitude below 10^6.
 */
module AuxFieldFile {
  import opened Text
  import Lattice

  /** Values printed without an exponent by the default double format. */
  const ValueBound: int := 1000000

  predicate Printable(v: int) { -ValueBound < v < ValueBound }

  predicate AllPrintable(cells: seq<int>) { forall k :: 0 <= k < |cells| ==> Printable(cells[k]) }

  /** Position of cell s(i, l) in column-major storage. */
  function CellIndex(i: nat, l: nat, ls: nat): nat { i + ls * l }

  // ---------------------------------------------------------------------
  // Writer
  // ---------------------------------------------------------------------

  /** One output row: `setw(15) << l << setw(15) << i << setw(15) << s(i,l)`. */
  function Row(l: int, i: int, v: int): string
  {
    Pad(Show(l)) + Pad(Show(i)) + Pad(Show(v))
  }

  /** The writer's rows, l in the outer loop and i in the inner one: row k is cell k. */
  function ConfigRows(cells: seq<int>, ls: nat, lt: nat): (rows: seq<string>)
    requires |cells| == ls * lt
    ensures |rows| == ls * lt
  {
    seq(ls * lt, k requires 0 <= k < ls * lt => Row(k / ls, k % ls, cells[k]))
  }

  /** The whole file: every row followed by `std::endl`. */
  function ConfigText(cells: seq<int>, ls: nat, lt: nat): string
    requires |cells| == ls * lt
  {
    Join(ConfigRows(cells, ls, lt))
  }

  /** Row number i + ls*l of the file is the row (l, i, s(i, l)). */
  lemma ConfigRowAt(cells: seq<int>, ls: nat, lt: nat, l: nat, i: nat)
    requires |cells| == ls * lt && l < lt && i < ls
    ensures CellIndex(i, l, ls) < ls * lt
    ensures ConfigRows(cells, ls, lt)[CellIndex(i, l, ls)] == Row(l, i, cells[CellIndex(i, l, ls)])
  {
    Lattice.GridIndexInRange(i, l, ls, lt);
    var k := CellIndex(i, l, ls);
    assert k / ls == l && k % ls == i;
  }

  /** Writing cell (l, i) extends the text of the rows before it by that cell's row. */
  lemma ConfigPrefixStep(cells: seq<int>, ls: nat, lt: nat, l: nat, i: nat, text: string)
    requires |cells| == ls * lt && l < lt && i < ls && ls * l + i < ls * lt
    requires text == Join(ConfigRows(cells, ls, lt)[..ls * l + i])
    ensures text + Row(l, i, cells[ls * l + i]) + "\n" == Join(ConfigRows(cells, ls, lt)[..ls * l + i + 1])
  {
    var rows := ConfigRows(cells, ls, lt);
    var k := ls * l + i;
    JoinPrefixStep(rows, k, rows[k]);
    ConfigRowAt(cells, ls, lt, l, i);
  }

  /**
   * The writer's order: the row of cell (l1, i1) comes before the row of
   * cell (l2, i2) exactly when l1 < l2, or l1 == l2 and i1 < i2.
   */
  lemma ConfigRowsOrdered(cells: seq<int>, ls: nat, lt: nat, l1: nat, i1: nat, l2: nat, i2: nat)
    requires |cells| == ls * lt && l1 < lt && i1 < ls && l2 < lt && i2 < ls
    ensures CellIndex(i1, l1, ls) < ls * lt && CellIndex(i2, l2, ls) < ls * lt
    ensures ConfigRows(cells, ls, lt)[CellIndex(i1, l1, ls)] == Row(l1, i1, cells[CellIndex(i1, l1, ls)])
    ensures ConfigRows(cells, ls, lt)[CellIndex(i2, l2, ls)] == Row(l2, i2, cells[CellIndex(i2, l2, ls)])
    ensures CellIndex(i1, l1, ls) < CellIndex(i2, l2, ls) <==> l1 < l2 || (l1 == l2 && i1 < i2)
  {
    ConfigRowAt(cells, ls, lt, l1, i1);
    ConfigRowAt(cells, ls, lt, l2, i2);
    CellIndexOrder(ls, l1, i1, l2, i2);
  }

  /** Column-major cell indices are ordered by l first and then by i. */
  lemma CellIndexOrder(ls: nat, l1: nat, i1: nat, l2: nat, i2: nat)
    requires i1 < ls && i2 < ls
    ensures CellIndex(i1, l1, ls) < CellIndex(i2, l2, ls) <==> l1 < l2 || (l1 == l2 && i1 < i2)
  {
    if l1 < l2 {
      Lattice.MulMonotone(ls, l1 + 1, l2);
      assert ls * (l1 + 1) == ls * l1 + ls;
    } else if l2 < l1 {
      Lattice.MulMonotone(ls, l2 + 1, l1);
      assert ls * (l2 + 1) == ls * l2 + ls;
    }
  }

  // ---------------------------------------------------------------------
  // Reader
  // ---------------------------------------------------------------------

  /**
   * Why a load stops: the file does not open (`exit(1)`); a line has fewer
   * than three tokens (`data[k]` out of range); a token is not a number
   * (`bad_lexical_cast`); the named cell lies outside the matrix (Eigen's
   * index assertion); or one of the two extent assertions after the loop fails.
   */
  datatype LoadError =
    | CannotOpen
    | MissingToken
    | BadLexeme
    | IndexOutOfRange
    | TimeExtentMismatch
    | SiteExtentMismatch

  datatype Entry = Entry(l: int, i: int, v: int)

  datatype RowResult = Parsed(entry: Entry) | RowError(error: LoadError)

  /**
   * The tokens of one line: tokens 0, 1 and 2 are l, i and the value, further
   * tokens are ignored. The value is read as an integer lexeme (the model's
   * field values are integers).
   */
  function ParseRow(line: string): RowResult
  {
    var data := Tokens(line);
    if |data| < 3 then RowError(MissingToken)
    else
      match (ParseInt(data[0]), ParseInt(data[1]), LexemeValue(data[2]))
      case (Some(l), Some(i), Some(v)) => Parsed(Entry(l, i, v))
      case _ => RowError(BadLexeme)
  }

  /** Every line parsed; parsing is pure, so parsing all lines first and then storing equals the interleaved loop. */
  function ParseAll(lines: seq<string>): seq<RowResult>
  {
    seq(|lines|, k requires 0 <= k < |lines| => ParseRow(lines[k]))
  }

  /** Reader state after some lines: the cells, the running maxima of l and i (both start at 0), and the first error. */
  datatype ScanState = ScanState(cells: seq<int>, maxL: int, maxI: int, error: Option<LoadError>)

  function Max(a: int, b: int): int { if a >= b then a else b }

  /** A parsed row the store accepts: its cell lies inside the matrix. */
  predicate Stores(r: RowResult, ls: nat, lt: nat)
  {
    r.Parsed? && 0 <= r.entry.i < ls && 0 <= r.entry.l < lt
  }

  /** Row r stores into cell c. */
  predicate Names(r: RowResult, ls: nat, lt: nat, c: nat)
  {
    Stores(r, ls, lt) && CellIndex(r.entry.i, r.entry.l, ls) == c
  }

  /**
   * The reader's loop body for one parsed line: the store `s(i, l) = value`
   * (rejected by Eigen's index assertion outside the matrix), then the two
   * maxima. After an error nothing changes (the process has stopped).
   */
  function Step(st: ScanState, r: RowResult, ls: nat, lt: nat): (s: ScanState)
    requires |st.cells| == ls * lt
    ensures |s.cells| == ls * lt
    ensures s.error.None? <==> st.error.None? && Stores(r, ls, lt)
  {
    if st.error.Some? then st
    else
      match r
      case RowError(e) => st.(error := Some(e))
      case Parsed(Entry(l, i, v)) =>
        if 0 <= i < ls && 0 <= l < lt then
          Lattice.GridIndexBound(i, l, ls, lt);
          ScanState(st.cells[CellIndex(i, l, ls) := v], Max(st.maxL, l), Max(st.maxI, i), None)
        else st.(error := Some(IndexOutOfRange))
  }

  /** A row naming a cell inside the field, read while no error has occurred, stores its value there. */
  lemma StepStores(st: ScanState, e: Entry, ls: nat, lt: nat)
    requires |st.cells| == ls * lt && st.error.None? && 0 <= e.i < ls && 0 <= e.l < lt
    ensures 0 <= CellIndex(e.i, e.l, ls) < ls * lt
    ensures Step(st, Parsed(e), ls, lt)
         == ScanState(st.cells[CellIndex(e.i, e.l, ls) := e.v], Max(st.maxL, e.l), Max(st.maxI, e.i), None)
  {
    Lattice.GridIndexBound(e.i, e.l, ls, lt);
  }

  /** The reader's loop over all lines. */
  function Scan(cells: seq<int>, rs: seq<RowResult>, ls: nat, lt: nat): (r: ScanState)
    requires |cells| == ls * lt
    ensures |r.cells| == ls * lt
  {
    if |rs| == 0 then ScanState(cells, 0, 0, None)
    else Step(Scan(cells, rs[..|rs| - 1], ls, lt), rs[|rs| - 1], ls, lt)
  }

  datatype LoadResult = Loaded(cells: seq<int>) | Rejected(error: LoadError)

  /** The verdict after the loop: the first line error, else the two extent checks in source order. */
  function Verdict(st: ScanState, ls: nat, lt: nat): LoadResult
  {
    if st.error.Some? then Rejected(st.error.value)
    else if st.maxL + 1 != lt then Rejected(TimeExtentMismatch)
    else if st.maxI + 1 != ls then Rejected(SiteExtentMismatch)
    else Loaded(st.cells)
  }

  /** Loading file text into a field whose cells are `cells`. */
  function Load(cells: seq<int>, text: string, ls: nat, lt: nat): LoadResult
    requires |cells| == ls * lt
  {
    Verdict(Scan(cells, ParseAll(Lines(text)), ls, lt), ls, lt)
  }

  // ---------------------------------------------------------------------
  // Properties of the reader
  // ---------------------------------------------------------------------

  /** The reader's loop after k + 1 lines is one more step after k lines. */
  lemma ScanOneMore(cells: seq<int>, rs: seq<RowResult>, k: nat, ls: nat, lt: nat)
    requires |cells| == ls * lt && k < |rs|
    ensures Scan(cells, rs[..k + 1], ls, lt) == Step(Scan(cells, rs[..k], ls, lt), rs[k], ls, lt)
  {
    assert rs[..k + 1][..k] == rs[..k];
  }

  /** Once a line has failed, the remaining lines change nothing. */
  lemma {:induction false} ScanErrorSticks(cells: seq<int>, rs: seq<RowResult>, k: nat, ls: nat, lt: nat)
    requires |cells| == ls * lt && k <= |rs|
    requires Scan(cells, rs[..k], ls, lt).error.Some?
    ensures Scan(cells, rs, ls, lt) == Scan(cells, rs[..k], ls, lt)
    decreases |rs|
  {
    if k < |rs| {
      var front := rs[..|rs| - 1];
      assert front[..k] == rs[..k];
      ScanErrorSticks(cells, front, k, ls, lt);
    } else {
      assert rs[..k] == rs;
    }
  }

  /** A scan ends with an error exactly when some line is not stored. */
  lemma {:induction false} ScanFailsOnBadRow(cells: seq<int>, rs: seq<RowResult>, ls: nat, lt: nat)
    requires |cells| == ls * lt
    ensures Scan(cells, rs, ls, lt).error.Some? <==> exists k :: 0 <= k < |rs| && !Stores(rs[k], ls, lt)
    decreases |rs|
  {
    if |rs| > 0 {
      var n := |rs| - 1;
      var front := rs[..n];
      ScanFailsOnBadRow(cells, front, ls, lt);
      assert forall k :: 0 <= k < n ==> front[k] == rs[k];
      if exists k :: 0 <= k < n && !Stores(front[k], ls, lt) {
        var k :| 0 <= k < n && !Stores(front[k], ls, lt);
        assert !Stores(rs[k], ls, lt);
      }
    }
  }

  /**
   * What a scan without error has done: each cell holds the value of the
   * last line naming it, cells named by no line keep their old value, and the
   * maxima bound every l and i read and are read on some line (or are 0).
   */
  lemma {:induction false} ScanEffect(cells: seq<int>, rs: seq<RowResult>, ls: nat, lt: nat)
    requires |cells| == ls * lt
    requires Scan(cells, rs, ls, lt).error.None?
    ensures forall c :: 0 <= c < ls * lt && (forall k :: 0 <= k < |rs| ==> !Names(rs[k], ls, lt, c)) ==>
              Scan(cells, rs, ls, lt).cells[c] == cells[c]
    ensures forall c, k ::
              (0 <= c < ls * lt && 0 <= k < |rs| && Names(rs[k], ls, lt, c) &&
               (forall k' :: k < k' < |rs| ==> !Names(rs[k'], ls, lt, c))) ==>
              Scan(cells, rs, ls, lt).cells[c] == rs[k].entry.v
    ensures var st := Scan(cells, rs, ls, lt);
            0 <= st.maxL && 0 <= st.maxI &&
            forall k :: 0 <= k < |rs| ==> Stores(rs[k], ls, lt) && rs[k].entry.l <= st.maxL && rs[k].entry.i <= st.maxI
    ensures var st := Scan(cells, rs, ls, lt);
            (st.maxL == 0 || exists k :: 0 <= k < |rs| && rs[k].Parsed? && rs[k].entry.l == st.maxL) &&
            (st.maxI == 0 || exists k :: 0 <= k < |rs| && rs[k].Parsed? && rs[k].entry.i == st.maxI)
    decreases |rs|
  {
    if |rs| > 0 {
      var n := |rs| - 1;
      var front := rs[..n];
      var prev := Scan(cells, front, ls, lt);
      ScanEffect(cells, front, ls, lt);
      assert forall k :: 0 <= k < n ==> front[k] == rs[k];
      var e := rs[n].entry;
      Lattice.GridIndexInRange(e.i, e.l, ls, lt);
      var st := Scan(cells, rs, ls, lt);
      assert st.cells == prev.cells[CellIndex(e.i, e.l, ls) := e.v];
      forall c | 0 <= c < ls * lt && (forall k :: 0 <= k < |rs| ==> !Names(rs[k], ls, lt, c))
        ensures st.cells[c] == cells[c]
      {
        assert !Names(rs[n], ls, lt, c);
        assert forall k :: 0 <= k < n ==> !Names(front[k], ls, lt, c);
      }
      forall c, k | 0 <= c < ls * lt && 0 <= k < |rs| && Names(rs[k], ls, lt, c) &&
          (forall k' :: k < k' < |rs| ==> !Names(rs[k'], ls, lt, c))
        ensures st.cells[c] == rs[k].entry.v
      {
        if k < n {
          assert !Names(rs[n], ls, lt, c);
          assert Names(front[k], ls, lt, c);
          assert forall k' :: k < k' < n ==> !Names(front[k'], ls, lt, c);
        }
      }
      if prev.maxL != 0 && prev.maxL >= e.l {
        var k :| 0 <= k < n && front[k].entry.l == prev.maxL;
        assert rs[k].entry.l == st.maxL;
      }
      if prev.maxI != 0 && prev.maxI >= e.i {
        var k :| 0 <= k < n && front[k].entry.i == prev.maxI;
        assert rs[k].entry.i == st.maxI;
      }
    }
  }

  /** After a clean scan each extent check passes exactly when some line reaches the last index, or the extent is 1. */
  lemma ScanMaxima(cells: seq<int>, rs: seq<RowResult>, ls: nat, lt: nat)
    requires |cells| == ls * lt
    requires Scan(cells, rs, ls, lt).error.None?
    ensures var st := Scan(cells, rs, ls, lt);
            st.maxL + 1 == lt <==> lt >= 1 && (lt == 1 || exists k :: 0 <= k < |rs| && rs[k].Parsed? && rs[k].entry.l == lt - 1)
    ensures var st := Scan(cells, rs, ls, lt);
            st.maxI + 1 == ls <==> ls >= 1 && (ls == 1 || exists k :: 0 <= k < |rs| && rs[k].Parsed? && rs[k].entry.i == ls - 1)
  {
    ScanEffect(cells, rs, ls, lt);
    var st := Scan(cells, rs, ls, lt);
    if st.maxL != 0 {
      var k :| 0 <= k < |rs| && rs[k].Parsed? && rs[k].entry.l == st.maxL;
      assert Stores(rs[k], ls, lt);
    }
    if st.maxI != 0 {
      var k :| 0 <= k < |rs| && rs[k].Parsed? && rs[k].entry.i == st.maxI;
      assert Stores(rs[k], ls, lt);
    }
  }

  /**
   * Exactly what the extent checks accept: every line must parse and name a
   * cell of the matrix, the matrix must not be empty, and some line must name
   * the last slice and some line the last site, unless that extent is 1.
   * Nothing requires the other cells to be present.
   */
  lemma LoadAcceptedIff(cells: seq<int>, text: string, ls: nat, lt: nat)
    requires |cells| == ls * lt
    ensures Load(cells, text, ls, lt).Loaded? <==>
      var lines := Lines(text);
      && (forall k :: 0 <= k < |lines| ==> Stores(ParseRow(lines[k]), ls, lt))
      && lt >= 1 && ls >= 1
      && (lt == 1 || exists k :: 0 <= k < |lines| && ParseRow(lines[k]).entry.l == lt - 1)
      && (ls == 1 || exists k :: 0 <= k < |lines| && ParseRow(lines[k]).entry.i == ls - 1)
  {
    var rs := ParseAll(Lines(text));
    if Scan(cells, rs, ls, lt).error.None? {
      ScanEffect(cells, rs, ls, lt);
      ScanMaxima(cells, rs, ls, lt);
      assert forall k :: 0 <= k < |rs| ==> rs[k] == ParseRow(Lines(text)[k]);
    } else {
      ScanFailsOnBadRow(cells, rs, ls, lt);
      var k :| 0 <= k < |rs| && !Stores(rs[k], ls, lt);
      assert !Stores(ParseRow(Lines(text)[k]), ls, lt);
    }
  }

  /** A successful load leaves every cell that no line names unchanged. */
  lemma LoadKeepsUnnamedCells(cells: seq<int>, text: string, ls: nat, lt: nat, c: nat)
    requires |cells| == ls * lt && c < ls * lt
    requires Load(cells, text, ls, lt).Loaded?
    requires forall k :: 0 <= k < |Lines(text)| ==> !Names(ParseRow(Lines(text)[k]), ls, lt, c)
    ensures Load(cells, text, ls, lt).cells[c] == cells[c]
  {
    var rs := ParseAll(Lines(text));
    ScanEffect(cells, rs, ls, lt);
    assert forall k :: 0 <= k < |rs| ==> !Names(rs[k], ls, lt, c);
  }

  /** A successful load stores in a named cell the value of the last line naming it. */
  lemma LoadTakesLastValue(cells: seq<int>, text: string, ls: nat, lt: nat, c: nat, k: nat)
    requires |cells| == ls * lt && c < ls * lt
    requires Load(cells, text, ls, lt).Loaded?
    requires k < |Lines(text)| && Names(ParseRow(Lines(text)[k]), ls, lt, c)
    requires forall k' :: k < k' < |Lines(text)| ==> !Names(ParseRow(Lines(text)[k']), ls, lt, c)
    ensures Load(cells, text, ls, lt).cells[c] == ParseRow(Lines(text)[k]).entry.v
  {
    var rs := ParseAll(Lines(text));
    ScanEffect(cells, rs, ls, lt);
    assert Names(rs[k], ls, lt, c);
    assert forall k' :: k < k' < |rs| ==> !Names(rs[k'], ls, lt, c);
  }

  // ---------------------------------------------------------------------
  // The writer's rows parse back
  // ---------------------------------------------------------------------

  lemma RowTokens(l: int, i: int, v: int)
    requires IsInt32(l) && IsInt32(i) && IsInt32(v)
    ensures Tokens(Row(l, i, v)) == [Show(l), Show(i), Show(v)]
  {
    ShowShort(l);
    ShowShort(i);
    ShowShort(v);
    assert Fields("") == [""];
    TokensAppendPadded("", Show(l));
    assert "" + Pad(Show(l)) == Pad(Show(l));
    TokensAppendPadded(Pad(Show(l)), Show(i));
    TokensAppendPadded(Pad(Show(l)) + Pad(Show(i)), Show(v));
  }

  /** A padded lexeme holds no newline. */
  lemma PadNoNewline(n: int)
    requires IsInt32(n)
    ensures '\n' !in Pad(Show(n))
  {
    ShowShort(n);
    var w := Show(n);
    var p := Pad(w);
    assert p == Spaces(Width - |w|) + w;
    forall k | 0 <= k < |p| ensures p[k] != '\n' {
      if k >= Width - |w| { assert p[k] == w[k - (Width - |w|)]; }
    }
  }

  /** A written row holds no newline, so getline returns it whole. */
  lemma RowNoNewline(l: int, i: int, v: int)
    requires IsInt32(l) && IsInt32(i) && IsInt32(v)
    ensures '\n' !in Row(l, i, v)
  {
    PadNoNewline(l);
    PadNoNewline(i);
    PadNoNewline(v);
    var a, b, c := Pad(Show(l)), Pad(Show(i)), Pad(Show(v));
    var r := Row(l, i, v);
    assert r == a + b + c;
    forall k | 0 <= k < |r| ensures r[k] != '\n' {
      if k < |a| { assert r[k] == a[k]; }
      else if k < |a| + |b| { assert r[k] == b[k - |a|]; }
      else { assert r[k] == c[k - |a| - |b|]; }
    }
  }

  /** A row the writer prints for indices in int range and a printable value parses back to the same three numbers. */
  lemma RowParses(l: nat, i: nat, v: int)
    requires l <= IntMax && i <= IntMax && Printable(v)
    ensures ParseRow(Row(l, i, v)) == Parsed(Entry(l, i, v))
  {
    RowTokens(l, i, v);
    ShowParseInt(l);
    ShowParseInt(i);
    ShowParseInt(v);
  }

  /** The cell (i, l) stored at index k. */
  lemma CellOf(k: nat, ls: nat, lt: nat) returns (l: nat, i: nat)
    requires k < ls * lt
    ensures l < lt && i < ls && k == CellIndex(i, l, ls) && l == k / ls && i == k % ls
  {
    Lattice.GridDecodeInRange(k, ls, lt);
    l, i := k / ls, k % ls;
  }

  /** The cell (i, l) that row k of the writer's output describes. */
  lemma RowCell(cells: seq<int>, ls: nat, lt: nat, k: nat) returns (l: nat, i: nat)
    requires |cells| == ls * lt && k < ls * lt
    ensures l < lt && i < ls && k == CellIndex(i, l, ls) && l == k / ls && i == k % ls
    ensures ConfigRows(cells, ls, lt)[k] == Row(l, i, cells[k])
  {
    Lattice.GridDecodeInRange(k, ls, lt);
    l, i := k / ls, k % ls;
    ConfigRowAt(cells, ls, lt, l, i);
  }

  /** What the reader gets from the writer's rows: entry k is (k / ls, k % ls, cells[k]). */
  function WrittenEntries(cells: seq<int>, ls: nat, lt: nat): (rs: seq<RowResult>)
    requires |cells| == ls * lt
    ensures |rs| == ls * lt
  {
    seq(ls * lt, k requires 0 <= k < ls * lt => Parsed(Entry(k / ls, k % ls, cells[k])))
  }

  /** getline returns the writer's rows, and each of them parses back to its cell's entry. */
  lemma ParseConfigText(cells: seq<int>, ls: nat, lt: nat)
    requires |cells| == ls * lt && ls <= IntMax && lt <= IntMax && AllPrintable(cells)
    ensures ParseAll(Lines(ConfigText(cells, ls, lt))) == WrittenEntries(cells, ls, lt)
  {
    var rows := ConfigRows(cells, ls, lt);
    forall k | 0 <= k < |rows| ensures '\n' !in rows[k] && ParseRow(rows[k]) == WrittenEntries(cells, ls, lt)[k] {
      var l, i := RowCell(cells, ls, lt, k);
      assert Printable(cells[k]);
      RowNoNewline(l, i, cells[k]);
      RowParses(l, i, cells[k]);
    }
    LinesOfJoin(rows);
  }

  lemma PrefixUpdate(cells0: seq<int>, cells: seq<int>, k: nat)
    requires |cells0| == |cells| && 0 < k <= |cells|
    ensures (cells[..k - 1] + cells0[k - 1..])[k - 1 := cells[k - 1]] == cells[..k] + cells0[k..]
  {
  }

  /** Scanning a prefix of the writer's entries has loaded exactly that prefix of the cells. */
  lemma {:induction false} ScanWrittenPrefix(cells0: seq<int>, cells: seq<int>, ls: nat, lt: nat, k: nat)
    requires |cells0| == |cells| == ls * lt && k <= ls * lt
    ensures var st := Scan(cells0, WrittenEntries(cells, ls, lt)[..k], ls, lt);
            && st.error.None?
            && st.cells == cells[..k] + cells0[k..]
            && 0 <= st.maxL < Max(lt, 1) && 0 <= st.maxI < Max(ls, 1)
  {
    var rs := WrittenEntries(cells, ls, lt);
    if k > 0 {
      assert rs[..k][..k - 1] == rs[..k - 1];
      ScanWrittenPrefix(cells0, cells, ls, lt, k - 1);
      var l, i := CellOf(k - 1, ls, lt);
      assert rs[k - 1] == Parsed(Entry(l, i, cells[k - 1]));
      PrefixUpdate(cells0, cells, k);
    } else {
      assert cells[..0] + cells0[0..] == cells0;
    }
  }

  /** The writer's last entry is the last site of the last slice. */
  lemma LastWrittenEntry(cells: seq<int>, ls: nat, lt: nat)
    requires |cells| == ls * lt && 1 <= ls && 1 <= lt
    ensures ls * lt >= 1 && CellIndex(ls - 1, lt - 1, ls) == ls * lt - 1
    ensures WrittenEntries(cells, ls, lt)[ls * lt - 1] == Parsed(Entry(lt - 1, ls - 1, cells[ls * lt - 1]))
  {
    var n := ls * lt;
    assert n == ls * (lt - 1) + ls;
    assert (lt - 1) * ls + (ls - 1) == n - 1;
    Lattice.DivModUnique(n - 1, ls, lt - 1, ls - 1);
  }

  /** Scanning all of the writer's entries restores the cells and ends with maxima lt-1 and ls-1. */
  lemma ScanWritten(cells0: seq<int>, cells: seq<int>, ls: nat, lt: nat)
    requires |cells0| == |cells| == ls * lt && 1 <= ls && 1 <= lt
    ensures Scan(cells0, WrittenEntries(cells, ls, lt), ls, lt) == ScanState(cells, lt - 1, ls - 1, None)
  {
    var rs := WrittenEntries(cells, ls, lt);
    LastWrittenEntry(cells, ls, lt);
    var n := ls * lt;
    // The last entry names the last slice and the last site, which fixes both maxima.
    ScanWrittenPrefix(cells0, cells, ls, lt, n - 1);
    var prev := Scan(cells0, rs[..n - 1], ls, lt);
    assert Scan(cells0, rs, ls, lt) == Step(prev, rs[n - 1], ls, lt);
    StoreLastCell(prev, cells0, cells, ls, lt);
  }

  /** Storing the last cell after all the others completes the field and both maxima. */
  lemma StoreLastCell(prev: ScanState, cells0: seq<int>, cells: seq<int>, ls: nat, lt: nat)
    requires |cells0| == |cells| == ls * lt && 1 <= ls && 1 <= lt
    requires prev.error.None? && 0 <= prev.maxL < lt && 0 <= prev.maxI < ls
    requires ls * lt >= 1 && CellIndex(ls - 1, lt - 1, ls) == ls * lt - 1
    requires prev.cells == cells[..ls * lt - 1] + cells0[ls * lt - 1..]
    ensures Step(prev, Parsed(Entry(lt - 1, ls - 1, cells[ls * lt - 1])), ls, lt) == ScanState(cells, lt - 1, ls - 1, None)
  {
    var n := ls * lt;
    PrefixUpdate(cells0, cells, n);
    assert cells[..n] + cells0[n..] == cells;
    assert prev.cells[n - 1 := cells[n - 1]] == cells;
  }

  /**
   * Round trip: reading the writer's file back into any field of the same
   * shape passes both extent checks and restores every cell.
   */
  lemma LoadConfigText(cells0: seq<int>, cells: seq<int>, ls: nat, lt: nat)
    requires |cells0| == |cells| == ls * lt
    requires 1 <= ls <= IntMax && 1 <= lt <= IntMax && AllPrintable(cells)
    ensures Load(cells0, ConfigText(cells, ls, lt), ls, lt) == Loaded(cells)
  {
    ParseConfigText(cells, ls, lt);
    ScanWritten(cells0, cells, ls, lt);
  }

  /**
   * The extent checks do not detect missing cells: a file whose only line is
   * the row of the last cell (l = lt-1, i = ls-1) is accepted and changes
   * that one cell, whatever ls*lt is.
   */
  lemma LastCellRowSuffices(cells: seq<int>, text: string, ls: nat, lt: nat, v: int)
    requires |cells| == ls * lt
    requires 1 <= ls <= IntMax && 1 <= lt <= IntMax && Printable(v)
    requires Lines(text) == [Row(lt - 1, ls - 1, v)]
    ensures CellIndex(ls - 1, lt - 1, ls) == ls * lt - 1
    ensures Load(cells, text, ls, lt) == Loaded(cells[ls * lt - 1 := v])
  {
    LastCellRowParses(text, ls, lt, v);
    ScanLastCellOnly(cells, ls, lt, v);
  }

  lemma LastCellRowParses(text: string, ls: nat, lt: nat, v: int)
    requires 1 <= ls <= IntMax && 1 <= lt <= IntMax && Printable(v)
    requires Lines(text) == [Row(lt - 1, ls - 1, v)]
    ensures ParseAll(Lines(text)) == [Parsed(Entry(lt - 1, ls - 1, v))]
  {
    RowParses(lt - 1, ls - 1, v);
    ParseAllSingle(Lines(text), Row(lt - 1, ls - 1, v), Parsed(Entry(lt - 1, ls - 1, v)));
  }

  lemma ParseAllSingle(lines: seq<string>, line: string, r: RowResult)
    requires lines == [line] && ParseRow(line) == r
    ensures ParseAll(lines) == [r]
  {
  }

  lemma ScanLastCellOnly(cells: seq<int>, ls: nat, lt: nat, v: int)
    requires |cells| == ls * lt && 1 <= ls && 1 <= lt
    ensures CellIndex(ls - 1, lt - 1, ls) == ls * lt - 1
    ensures Scan(cells, [Parsed(Entry(lt - 1, ls - 1, v))], ls, lt) == ScanState(cells[ls * lt - 1 := v], lt - 1, ls - 1, None)
  {
    assert ls * lt == ls * (lt - 1) + ls;
    var e := Parsed(Entry(lt - 1, ls - 1, v));
    assert [e][..0] == [];
    assert Scan(cells, [e], ls, lt) == Step(ScanState(cells, 0, 0, None), e, ls, lt);
  }

  /** An empty file is accepted exactly for a 1 x 1 field, which it leaves as it was. */
  lemma EmptyFileAcceptance(cells: seq<int>, ls: nat, lt: nat)
    requires |cells| == ls * lt
    ensures Load(cells, "", ls, lt).Loaded? <==> ls == 1 && lt == 1
    ensures Load(cells, "", ls, lt).Loaded? ==> Load(cells, "", ls, lt).cells == cells
  {
    assert Lines("") == [];
  }
}
