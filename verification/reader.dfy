/** The line-by-line reader of `read_sparse_matrix` and the entry line
    `"{row} {col} {value}\n"` that `main` writes for every stored entry. */
module Reader {
  import opened SparseMatrix
  import opened Numerals

  datatype Option<T> = None | Some(value: T)

  /** One (row, col, value) triple of the text format. */
  datatype Entry = Entry(row: int, col: int, value: int)

  /** The triple a line holds, if any: blank lines and lines whose scan does
      not yield exactly three tokens are skipped. Every token is a numeral, so
      the ValueError branch is taken only for a token longer than CPython's
      int/str digit limit, which is not modelled. */
  function ParseLine(line: string): (r: Option<Entry>)
    ensures r.Some? <==> |Tokens(line)| == 3
  {
    if IsBlank(line) then
      NoDigitNoTokens(line);
      None
    else
      var parts := Tokens(line);
      if |parts| != 3 then None
      else Some(Entry(NumeralValue(parts[0]), NumeralValue(parts[1]), NumeralValue(parts[2])))
  }

  /** Stores value at (row, col), creating the row when it is absent and
      overwriting an earlier value at the same coordinate. */
  function Store(m: Matrix, e: Entry): (m': Matrix)
    ensures m'.Keys == m.Keys + {e.row}
    ensures Has(m', e.row, e.col) && m'[e.row][e.col] == e.value
    ensures forall r, c :: (r != e.row || c != e.col) ==>
              (Has(m', r, c) <==> Has(m, r, c)) && Get(m', r, c) == Get(m, r, c)
    ensures NoEmptyRows(m) ==> NoEmptyRows(m')
  {
    var row := if e.row in m then m[e.row] else map[];
    m[e.row := row[e.col := e.value]]
  }

  /** The effect of one line on the matrix read so far. */
  function ReadLine(m: Matrix, line: string): (m': Matrix)
    ensures |Tokens(line)| != 3 ==> m' == m
    ensures |Tokens(line)| == 3 ==>
              m' == Store(m, Entry(NumeralValue(Tokens(line)[0]),
                                   NumeralValue(Tokens(line)[1]),
                                   NumeralValue(Tokens(line)[2])))
  {
    match ParseLine(line)
    case None => m
    case Some(e) => Store(m, e)
  }

  /** The matrix `read_sparse_matrix` returns for the given lines of a file
      (each line as the file iterator yields it). */
  function ReadLines(lines: seq<string>): (m: Matrix)
    ensures NoEmptyRows(m)
    decreases |lines|
  {
    if |lines| == 0 then map[]
    else ReadLine(ReadLines(lines[..|lines| - 1]), lines[|lines| - 1])
  }

  /** The output line `f"{row} {col} {value}\n"`. */
  function FormatEntry(e: Entry): string {
    Decimal(e.row) + " " + Decimal(e.col) + " " + Decimal(e.value) + "\n"
  }

  /** A written entry line scans to exactly three tokens and parses back to
      the same triple, negative numbers included. */
  lemma ParseFormatted(e: Entry)
    ensures Tokens(FormatEntry(e)) == [Decimal(e.row), Decimal(e.col), Decimal(e.value)]
    ensures ParseLine(FormatEntry(e)) == Some(e)
  {
    TokensOfTriple(Decimal(e.row), Decimal(e.col), Decimal(e.value));
    DecimalRoundTrip(e.row);
    DecimalRoundTrip(e.col);
    DecimalRoundTrip(e.value);
  }

  /** The lines `main` writes for a list of entries, in list order. */
  function FormatEntries(es: seq<Entry>): (lines: seq<string>)
    ensures |lines| == |es|
  {
    if |es| == 0 then [] else FormatEntries(es[..|es| - 1]) + [FormatEntry(es[|es| - 1])]
  }

  /** The row keys of a list of entries. */
  function RowsOf(es: seq<Entry>): set<int> {
    set i | 0 <= i < |es| :: es[i].row
  }

  /** The coordinates of a list of entries. */
  function CoordsOf(es: seq<Entry>): set<(int, int)> {
    set i | 0 <= i < |es| :: (es[i].row, es[i].col)
  }

  /** Every entry of es is stored in m with its listed value. */
  ghost predicate AgreesWith(es: seq<Entry>, m: Matrix) {
    forall i :: 0 <= i < |es| ==> Has(m, es[i].row, es[i].col) && m[es[i].row][es[i].col] == es[i].value
  }

  /** es lists the stored entries of m: each listed triple is stored in m,
      and every stored coordinate is listed at least once. */
  ghost predicate Lists(es: seq<Entry>, m: Matrix) {
    && AgreesWith(es, m)
    && forall r, c :: Has(m, r, c) ==> (r, c) in CoordsOf(es)
  }

  /** The rows and coordinates of es are those of all but its last entry,
      plus the last one's. */
  lemma SplitLast(es: seq<Entry>)
    requires |es| > 0
    ensures RowsOf(es) == RowsOf(es[..|es| - 1]) + {es[|es| - 1].row}
    ensures CoordsOf(es) == CoordsOf(es[..|es| - 1]) + {(es[|es| - 1].row, es[|es| - 1].col)}
  {
  }

  /** The matrix obtained by storing the entries of es in order. */
  function StoreAll(es: seq<Entry>): Matrix
    decreases |es|
  {
    if |es| == 0 then map[] else Store(StoreAll(es[..|es| - 1]), es[|es| - 1])
  }

  /** Reading a written entry line stores that entry. */
  lemma ReadFormattedLine(m: Matrix, e: Entry)
    ensures ReadLine(m, FormatEntry(e)) == Store(m, e)
  {
    ParseFormatted(e);
  }

  /** Reading the written lines of es stores the entries of es in order. */
  lemma {:induction false} ReadFormattedStoresAll(es: seq<Entry>)
    ensures ReadLines(FormatEntries(es)) == StoreAll(es)
    decreases |es|
  {
    if |es| > 0 {
      var n := |es| - 1;
      var lines := FormatEntries(es);
      assert lines[..n] == FormatEntries(es[..n]);
      ReadFormattedStoresAll(es[..n]);
      var prev := StoreAll(es[..n]);
      assert ReadLines(lines[..n]) == prev;
      assert lines[n] == FormatEntry(es[n]);
      ReadFormattedLine(prev, es[n]);
      calc {
        ReadLines(lines);
        ReadLine(ReadLines(lines[..n]), lines[n]);
        ReadLine(prev, FormatEntry(es[n]));
        Store(prev, es[n]);
        StoreAll(es);
      }
    }
  }

  /** Storing entries that agree with m yields exactly the rows and
      coordinates listed, each with m's value. */
  lemma {:induction false} StoreAllAgrees(es: seq<Entry>, m: Matrix)
    requires AgreesWith(es, m)
    ensures StoreAll(es).Keys == RowsOf(es)
    ensures forall r, c :: Has(StoreAll(es), r, c) <==> (r, c) in CoordsOf(es)
    ensures forall r, c :: Has(StoreAll(es), r, c) ==> StoreAll(es)[r][c] == m[r][c]
    decreases |es|
  {
    if |es| > 0 {
      var n := |es| - 1;
      StoreAllAgrees(es[..n], m);
      SplitLast(es);
      var prev := StoreAll(es[..n]);
      var cur := StoreAll(es);
      var coords, prevCoords := CoordsOf(es), CoordsOf(es[..n]);
      assert coords == prevCoords + {(es[n].row, es[n].col)};
      assert cur == Store(prev, es[n]);
      forall r, c ensures Has(cur, r, c) <==> (r, c) in coords {
        if r != es[n].row || c != es[n].col {
          assert Has(cur, r, c) <==> Has(prev, r, c);
          assert (r, c) in coords <==> (r, c) in prevCoords;
        }
      }
    }
  }

  /** Writing every stored entry of a matrix and reading the lines back gives
      the same matrix, explicit zeros included. A matrix with a row holding no
      entry cannot come back, since reading never creates an empty row. */
  lemma WrittenMatrixReadsBack(m: Matrix, es: seq<Entry>)
    requires NoEmptyRows(m)
    requires Lists(es, m)
    ensures ReadLines(FormatEntries(es)) == m
  {
    ReadFormattedStoresAll(es);
    StoreAllRebuilds(m, es);
  }

  /** Storing a listing of the entries of m rebuilds m. */
  lemma StoreAllRebuilds(m: Matrix, es: seq<Entry>)
    requires NoEmptyRows(m)
    requires Lists(es, m)
    ensures StoreAll(es) == m
  {
    StoreAllAgrees(es, m);
    var back := StoreAll(es);
    forall r | r in m ensures r in back {
      NonEmpty(m[r].Keys);
      var c :| c in m[r];
      assert Has(m, r, c);
      assert Has(back, r, c);
    }
    forall r | r in back ensures r in m {
      var i :| 0 <= i < |es| && es[i].row == r;
      assert Has(m, es[i].row, es[i].col);
    }
    forall r | r in m ensures back[r] == m[r] {
      forall c | c in m[r] ensures c in back[r] && back[r][c] == m[r][c] {
        assert Has(m, r, c);
        assert Has(back, r, c);
      }
      forall c | c in back[r] ensures c in m[r] {
        assert Has(back, r, c);
      }
    }
  }

  /** A line without digits leaves the matrix unchanged. */
  lemma ReadLineWithoutDigits(m: Matrix, line: string)
    requires forall i :: 0 <= i < |line| ==> !IsDigit(line[i])
    ensures ReadLine(m, line) == m
  {
    NoDigitNoTokens(line);
  }

  /** Reading three lines reads them one after the other. */
  lemma ReadThreeLines(a: string, b: string, c: string)
    ensures ReadLines([a, b, c]) == ReadLine(ReadLine(ReadLine(map[], a), b), c)
  {
    assert [a, b, c][..2] == [a, b];
    assert [a, b][..1] == [a];
    assert [a][..0] == [];
    assert ReadLines([a]) == ReadLine(map[], a);
    assert ReadLines([a, b]) == ReadLine(ReadLine(map[], a), b);
  }

  /** The lines "1 2 3", a line without digits (such as "bad line") and
      "4 5 6": the malformed line is skipped and the two others are stored. */
  lemma ReadSkipsMalformedLine(bad: string)
    requires forall i :: 0 <= i < |bad| ==> !IsDigit(bad[i])
    ensures ReadLines([FormatEntry(Entry(1, 2, 3)), bad, FormatEntry(Entry(4, 5, 6))])
         == map[1 := map[2 := 3], 4 := map[5 := 6]]
  {
    ReadThreeLines(FormatEntry(Entry(1, 2, 3)), bad, FormatEntry(Entry(4, 5, 6)));
    var first := Store(map[], Entry(1, 2, 3));
    ReadFormattedLine(map[], Entry(1, 2, 3));
    ReadLineWithoutDigits(first, bad);
    ReadFormattedLine(first, Entry(4, 5, 6));
  }
}
