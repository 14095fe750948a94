/**
 * The text layer under the auxiliary-field file: decimal formatting of
 * integers as an ostream prints them, the right-aligned `setw(15)` padding,
 * `boost::lexical_cast` of an integer lexeme, the tokenizer made of
 * `boost::split` on ' ' followed by erasing the empty tokens, and the lines
 * that `getline` returns.
 */
module Text {

  datatype Option<T> = None | Some(value: T)

  /** The largest value of a C++ `int` (32 bits). */
  const IntMax: int := 0x7fff_ffff

  predicate IsInt32(n: int) { -IntMax - 1 <= n <= IntMax }

  function Pow10(k: nat): nat { if k == 0 then 1 else 10 * Pow10(k - 1) }

  // ---------------------------------------------------------------------
  // Decimal formatting
  // ---------------------------------------------------------------------

  predicate IsDigit(c: char) { '0' <= c <= '9' }

  predicate AllDigits(t: string) { forall k :: 0 <= k < |t| ==> IsDigit(t[k]) }

  function DigitChar(d: nat): char requires d < 10 { ('0' as int + d) as char }

  function DigitValue(c: char): nat requires IsDigit(c) { (c as int - '0' as int) as nat }

  /** Decimal digits of n, most significant first, without leading zeros. */
  function Digits(n: nat): (t: string)
    ensures |t| >= 1 && AllDigits(t)
  {
    if n < 10 then [DigitChar(n)] else Digits(n / 10) + [DigitChar(n % 10)]
  }

  /**
   * What `ostream << n` prints for an integer n; also what the default
   * 6-significant-digit format prints for a double holding an integer
   * of magnitude below 10^6.
   */
  function Show(n: int): string
  {
    if n < 0 then "-" + Digits(-n) else Digits(n)
  }

  /** Value of a non-empty run of decimal digits. */
  function DigitsValue(t: string): nat
    requires |t| >= 1 && AllDigits(t)
  {
    if |t| == 1 then DigitValue(t[0])
    else 10 * DigitsValue(t[..|t| - 1]) + DigitValue(t[|t| - 1])
  }

  /** Integer value of an optionally signed digit lexeme; None if the lexeme is not of that form. */
  function LexemeValue(t: string): Option<int>
  {
    if |t| >= 2 && t[0] == '-' && AllDigits(t[1..]) then Some(-(DigitsValue(t[1..]) as int))
    else if |t| >= 2 && t[0] == '+' && AllDigits(t[1..]) then Some(DigitsValue(t[1..]))
    else if |t| >= 1 && AllDigits(t) then Some(DigitsValue(t))
    else None
  }

  /** `boost::lexical_cast<int>`: the whole token must be a signed decimal that fits in an int. */
  function ParseInt(t: string): (r: Option<int>)
    ensures r.Some? ==> IsInt32(r.value)
  {
    match LexemeValue(t)
    case Some(v) => if IsInt32(v) then Some(v) else None
    case None => None
  }

  lemma {:induction false} DigitsRoundTrip(n: nat)
    ensures DigitsValue(Digits(n)) == n
  {
    if n >= 10 {
      var t := Digits(n);
      assert t[..|t| - 1] == Digits(n / 10);
      DigitsRoundTrip(n / 10);
    }
  }

  /** Formatting an int and parsing it back with lexical_cast<int> is the identity. */
  lemma ShowParseInt(n: int)
    requires IsInt32(n)
    ensures ParseInt(Show(n)) == Some(n)
    ensures LexemeValue(Show(n)) == Some(n)
  {
    ShowLexeme(n);
  }

  lemma ShowLexeme(n: int)
    ensures LexemeValue(Show(n)) == Some(n)
  {
    if n < 0 {
      var d := Digits(-n);
      var t := "-" + d;
      assert Show(n) == t;
      assert t[0] == '-' && t[1..] == d;
      DigitsRoundTrip(-n);
      assert LexemeValue(t) == Some(-(DigitsValue(d) as int));
    } else {
      var d := Digits(n);
      assert Show(n) == d;
      assert IsDigit(d[0]);
      DigitsRoundTrip(n);
      assert LexemeValue(d) == Some(DigitsValue(d));
    }
  }

  lemma {:induction false} DigitsLength(n: nat, k: nat)
    requires 1 <= k && n < Pow10(k)
    ensures |Digits(n)| <= k
  {
    if n >= 10 {
      if k == 1 { assert false; }
      DigitsLength(n / 10, k - 1);
    }
  }

  /** A formatted lexeme is short (at most 11 characters for an int) and contains no space or newline. */
  lemma ShowShort(n: int)
    requires IsInt32(n)
    ensures 1 <= |Show(n)| <= 11
    ensures ' ' !in Show(n) && '\n' !in Show(n)
  {
    assert Pow10(10) == 10000000000;
    DigitsLength(if n < 0 then -n else n, 10);
    var d := Digits(if n < 0 then -n else n);
    assert forall k :: 0 <= k < |d| ==> IsDigit(d[k]);
    assert forall k :: 0 <= k < |Show(n)| ==> Show(n)[k] != ' ' && Show(n)[k] != '\n' by {
      forall k | 0 <= k < |Show(n)| ensures Show(n)[k] != ' ' && Show(n)[k] != '\n' {
        if n < 0 && k > 0 { assert Show(n)[k] == d[k - 1]; }
      }
    }
  }

  // ---------------------------------------------------------------------
  // setw(15) with right alignment
  // ---------------------------------------------------------------------

  /** Column width used by the auxiliary-field writer. */
  const Width: nat := 15

  function Spaces(n: nat): (t: string)
    ensures |t| == n && forall k :: 0 <= k < n ==> t[k] == ' '
  {
    if n == 0 then "" else Spaces(n - 1) + " "
  }

  /** `setw(Width)` on a right-aligned stream: left-pad with spaces; a lexeme at least as wide is printed as is. */
  function Pad(w: string): (t: string)
    ensures |w| < Width ==> |t| == Width
    ensures |w| >= Width ==> t == w
  {
    if |w| < Width then Spaces(Width - |w|) + w else w
  }

  /** A word shorter than Width is right-aligned: it ends the padded text, and only spaces come before it. */
  lemma PadRightAligned(w: string)
    requires |w| < Width
    ensures Pad(w)[Width - |w|..] == w
    ensures forall k :: 0 <= k < Width - |w| ==> Pad(w)[k] == ' '
  {
    var fill := Spaces(Width - |w|);
    assert Pad(w) == fill + w;
    assert (fill + w)[|fill|..] == w;
  }

  // ---------------------------------------------------------------------
  // Tokens: boost::split on ' ', then erase the empty tokens
  // ---------------------------------------------------------------------

  /**
   * The fields of s separated by single spaces, as `boost::split` with
   * `is_any_of(" ")` returns them without compression: k spaces give
   * k + 1 fields, some of which may be empty.
   */
  function Fields(s: string): (r: seq<string>)
    ensures |r| >= 1
    decreases |s|
  {
    if |s| == 0 then [""]
    else if s[0] == ' ' then [""] + Fields(s[1..])
    else
      var rest := Fields(s[1..]);
      [[s[0]] + rest[0]] + rest[1..]
  }

  function RemoveEmpty(fs: seq<string>): (r: seq<string>)
    ensures forall k :: 0 <= k < |r| ==> r[k] != ""
  {
    if |fs| == 0 then []
    else if fs[0] == "" then RemoveEmpty(fs[1..])
    else [fs[0]] + RemoveEmpty(fs[1..])
  }

  /**
   * The tokens of a line as the reader sees them. `token_compress_on` only
   * merges the empty fields between adjacent spaces, and every empty field is
   * erased afterwards, so the fields of the uncompressed split with the empty
   * ones removed are exactly the reader's `data`.
   */
  function Tokens(s: string): seq<string>
  {
    RemoveEmpty(Fields(s))
  }

  lemma {:induction false} RemoveEmptyAppend(a: seq<string>, b: seq<string>)
    ensures RemoveEmpty(a + b) == RemoveEmpty(a) + RemoveEmpty(b)
  {
    if |a| > 0 {
      assert (a + b)[1..] == a[1..] + b;
      RemoveEmptyAppend(a[1..], b);
    } else {
      assert a + b == b;
    }
  }

  /** Splitting at one space: the fields on either side are concatenated. */
  lemma {:induction false} FieldsAtSpace(a: string, b: string)
    ensures Fields(a + " " + b) == Fields(a) + Fields(b)
    decreases |a|
  {
    if |a| == 0 {
      assert a + " " + b == " " + b;
      assert (" " + b)[1..] == b;
    } else {
      var s := a + " " + b;
      assert s[0] == a[0];
      assert s[1..] == a[1..] + " " + b;
      FieldsAtSpace(a[1..], b);
      var ra := Fields(a[1..]);
      var rest := Fields(s[1..]);
      assert rest == ra + Fields(b);
      if a[0] == ' ' {
        assert Fields(s) == [""] + rest;
      } else {
        assert rest[0] == ra[0] && rest[1..] == ra[1..] + Fields(b);
        assert Fields(s) == [[a[0]] + ra[0]] + (ra[1..] + Fields(b));
        assert Fields(a) == [[a[0]] + ra[0]] + ra[1..];
      }
    }
  }

  /** A space-free string is one field. */
  lemma {:induction false} FieldsOfWord(w: string)
    requires ' ' !in w
    ensures Fields(w) == [w]
    decreases |w|
  {
    if |w| > 0 {
      assert ' ' !in w[1..] by {
        forall k | 0 <= k < |w[1..]| ensures w[1..][k] != ' ' { assert w[1..][k] == w[k + 1]; }
      }
      FieldsOfWord(w[1..]);
      assert [w[0]] + w[1..] == w;
    }
  }

  /** A space splits a line into the tokens before it followed by the tokens after it. */
  lemma TokensAtSpace(a: string, b: string)
    ensures Tokens(a + " " + b) == Tokens(a) + Tokens(b)
  {
    FieldsAtSpace(a, b);
    RemoveEmptyAppend(Fields(a), Fields(b));
  }

  /** A run of two spaces yields the same tokens as a single space (so any run does). */
  lemma TokensCollapseSpaces(a: string, b: string)
    ensures Tokens(a + "  " + b) == Tokens(a + " " + b)
  {
    assert a + "  " + b == a + " " + (" " + b);
    TokensAtSpace(a, " " + b);
    assert " " + b == "" + " " + b;
    TokensAtSpace("", b);
    assert Fields("") == [""];
    TokensAtSpace(a, b);
  }

  /** Leading and trailing spaces add no tokens. */
  lemma {:induction false} TokensTrailingSpaces(a: string, n: nat)
    ensures Tokens(a + Spaces(n)) == Tokens(a)
  {
    if n > 0 {
      assert a + Spaces(n) == (a + Spaces(n - 1)) + " " + "";
      TokensAtSpace(a + Spaces(n - 1), "");
      assert Fields("") == [""];
      TokensTrailingSpaces(a, n - 1);
      assert a + Spaces(0) == a;
    } else {
      assert a + Spaces(0) == a;
    }
  }

  /** Appending one padded lexeme appends exactly that lexeme as a token. */
  lemma TokensAppendPadded(a: string, w: string)
    requires 1 <= |w| < Width && ' ' !in w
    ensures Tokens(a + Pad(w)) == Tokens(a) + [w]
  {
    var n := Width - |w| - 1;
    assert Pad(w) == Spaces(n) + " " + w;
    assert a + Pad(w) == (a + Spaces(n)) + " " + w;
    TokensAtSpace(a + Spaces(n), w);
    TokensTrailingSpaces(a, n);
    FieldsOfWord(w);
    assert [w][1..] == [];
    assert w != [];
    assert RemoveEmpty([w]) == [w] + RemoveEmpty([]);
    assert Tokens(w) == [w];
  }

  // ---------------------------------------------------------------------
  // Lines: what getline returns; what a sequence of `<< std::endl` rows writes
  // ---------------------------------------------------------------------

  /** Index of the first '\n' in t at or after position i, or |t| if there is none. */
  function LineEnd(t: string, i: nat): (k: nat)
    requires i <= |t|
    ensures i <= k <= |t|
    ensures k < |t| ==> t[k] == '\n'
    ensures forall m :: i <= m < k ==> t[m] != '\n'
    decreases |t| - i
  {
    if i == |t| || t[i] == '\n' then i else LineEnd(t, i + 1)
  }

  /**
   * The lines `getline` extracts from t: each ends at a '\n', which is
   * dropped; a final line without '\n' is still returned; nothing is
   * returned for an empty remainder.
   */
  function Lines(t: string): seq<string>
    decreases |t|
  {
    if |t| == 0 then []
    else
      var k := LineEnd(t, 0);
      if k == |t| then [t] else [t[..k]] + Lines(t[k + 1..])
  }

  /** The text written by one `<< row << std::endl` per row. */
  function Join(rows: seq<string>): string
  {
    if |rows| == 0 then "" else rows[0] + "\n" + Join(rows[1..])
  }

  /** The prefix of length k + 1 extends the prefix of length k by xs[k]. */
  lemma PrefixGrows<T>(xs: seq<T>, k: nat)
    requires k < |xs|
    ensures xs[..k] + [xs[k]] == xs[..k + 1]
  {
  }

  /** Emitting row k after the rows before it gives the text of the first k + 1 rows. */
  lemma JoinPrefixStep(rows: seq<string>, k: nat, r: string)
    requires k < |rows| && rows[k] == r
    ensures Join(rows[..k]) + r + "\n" == Join(rows[..k + 1])
  {
    PrefixGrows(rows, k);
    JoinAppend(rows[..k], r);
  }

  /** Joining one more row appends it and its newline. */
  lemma {:induction false} JoinAppend(rows: seq<string>, r: string)
    ensures Join(rows + [r]) == Join(rows) + r + "\n"
  {
    if |rows| > 0 {
      assert (rows + [r])[1..] == rows[1..] + [r];
      JoinAppend(rows[1..], r);
    } else {
      assert rows + [r] == [r];
    }
  }

  lemma {:induction false} LineEndOfRow(r: string, rest: string)
    requires '\n' !in r
    ensures LineEnd(r + "\n" + rest, 0) == |r|
  {
    var t := r + "\n" + rest;
    assert t[|r|] == '\n';
    assert forall m :: 0 <= m < |r| ==> t[m] == r[m];
  }

  /** Reading back newline-terminated rows line by line returns the rows. */
  lemma {:induction false} LinesOfJoin(rows: seq<string>)
    requires forall k :: 0 <= k < |rows| ==> '\n' !in rows[k]
    ensures Lines(Join(rows)) == rows
  {
    if |rows| > 0 {
      var t := Join(rows);
      LineEndOfRow(rows[0], Join(rows[1..]));
      assert t[..|rows[0]|] == rows[0];
      assert t[|rows[0]| + 1..] == Join(rows[1..]);
      LinesOfJoin(rows[1..]);
      assert [rows[0]] + rows[1..] == rows;
    }
  }
}
