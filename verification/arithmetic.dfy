/** `add_matrices` and `subtract_matrices`. Both run the same two loops and
    differ only in the operator, so one loop (Merge) models both. */
module Arithmetic {
  import opened SparseMatrix

  datatype Op = Plus | Minus

  function Apply(op: Op, a: int, b: int): int {
    match op
    case Plus => a + b
    case Minus => a - b
  }

  /** A result row over the columns cols, each holding m1's value combined
      with m2's, a missing entry read as 0. */
  function MergedRow(op: Op, m1: Matrix, m2: Matrix, r: int, cols: set<int>): map<int, int> {
    map c | c in cols :: Apply(op, Get(m1, r, c), Get(m2, r, c))
  }

  /** The pointwise reference: every coordinate stored in either operand,
      and nothing else, holds the combination of the operands' values. */
  function Pointwise(op: Op, m1: Matrix, m2: Matrix): Matrix {
    map r | r in m1.Keys + m2.Keys :: MergedRow(op, m1, m2, r, Cols(m1, r) + Cols(m2, r))
  }

  /** The two loops shared by `add_matrices` and `subtract_matrices`: first
      every entry of m1 combined with m2's value at the same coordinate, then
      every coordinate of m2 not yet in the result, m1's value there being 0. */
  method Merge(op: Op, m1: Matrix, m2: Matrix) returns (result: Matrix)
    ensures result == Pointwise(op, m1, m2)
  {
    result := MergeFirst(op, m1, m2);
    result := MergeSecond(op, m1, m2, result);
  }

  /** The first loop: one row of the result per row of m1, holding that
      row's columns only. */
  method MergeFirst(op: Op, m1: Matrix, m2: Matrix) returns (result: Matrix)
    ensures result.Keys == m1.Keys
    ensures forall r :: r in result ==> result[r] == MergedRow(op, m1, m2, r, Cols(m1, r))
  {
    result := map[];
    var rows := m1.Keys;
    while rows != {}
      invariant rows <= m1.Keys
      invariant result.Keys == m1.Keys - rows
      invariant forall r :: r in result ==> result[r] == MergedRow(op, m1, m2, r, Cols(m1, r))
      decreases rows
    {
      NonEmpty(rows);
      var row :| row in rows;
      var acc := MergeFirstRow(op, m1, m2, row);
      result := result[row := acc];
      rows := rows - {row};
    }
  }

  /** Row r of the result while the second loop still has the rows
      `pending` of m2 to visit. */
  function SecondPassRow(op: Op, m1: Matrix, m2: Matrix, pending: set<int>, r: int): map<int, int> {
    MergedRow(op, m1, m2, r, Cols(m1, r) + (if r in pending then {} else Cols(m2, r)))
  }

  /** The second loop: every row of m2 is created when missing and receives
      the columns of m2 it does not hold yet. */
  method MergeSecond(op: Op, m1: Matrix, m2: Matrix, first: Matrix) returns (result: Matrix)
    requires first.Keys == m1.Keys
    requires forall r :: r in first ==> first[r] == MergedRow(op, m1, m2, r, Cols(m1, r))
    ensures result == Pointwise(op, m1, m2)
  {
    result := first;
    var rows2 := m2.Keys;
    while rows2 != {}
      invariant rows2 <= m2.Keys
      invariant result.Keys == m1.Keys + (m2.Keys - rows2)
      invariant forall r :: r in result ==> result[r] == SecondPassRow(op, m1, m2, rows2, r)
      decreases rows2
    {
      NonEmpty(rows2);
      var row :| row in rows2;
      var acc := if row in result then result[row] else map[];
      acc := MergeSecondRow(op, m1, m2, row, acc);
      result := result[row := acc];
      rows2 := rows2 - {row};
    }
  }

  /** The inner loop of the first pass over row `row` of m1: each of its
      columns receives m1's value combined with m2's value there (0 when m2
      lacks the row or the column). */
  method MergeFirstRow(op: Op, m1: Matrix, m2: Matrix, row: int) returns (acc: map<int, int>)
    requires row in m1
    ensures acc == MergedRow(op, m1, m2, row, Cols(m1, row))
  {
    acc := map[];
    var cols := m1[row].Keys;
    while cols != {}
      invariant cols <= m1[row].Keys
      invariant acc == MergedRow(op, m1, m2, row, m1[row].Keys - cols)
      decreases cols
    {
      NonEmpty(cols);
      var col :| col in cols;
      acc := acc[col := Apply(op, m1[row][col], Get(m2, row, col))];
      cols := cols - {col};
    }
  }

  /** The inner loop of the second pass over row `row` of m2: a column the
      row dictionary `acc` lacks receives m2's value, negated for the
      difference; a column it already holds is left alone. The row
      dictionary is the one the first pass built, or a new empty one. */
  method MergeSecondRow(op: Op, m1: Matrix, m2: Matrix, row: int, acc0: map<int, int>) returns (acc: map<int, int>)
    requires row in m2
    requires acc0 == MergedRow(op, m1, m2, row, Cols(m1, row))
    ensures acc == MergedRow(op, m1, m2, row, Cols(m1, row) + Cols(m2, row))
  {
    acc := acc0;
    var cols := m2[row].Keys;
    while cols != {}
      invariant cols <= m2[row].Keys
      invariant acc == MergedRow(op, m1, m2, row, Cols(m1, row) + (m2[row].Keys - cols))
      decreases cols
    {
      NonEmpty(cols);
      var col :| col in cols;
      if col !in acc {
        acc := acc[col := Apply(op, 0, m2[row][col])];
      }
      cols := cols - {col};
    }
  }

  /** The matrix `add_matrices` returns. */
  function Sum(m1: Matrix, m2: Matrix): (s: Matrix)
    ensures s.Keys == m1.Keys + m2.Keys
    ensures forall r, c :: Has(s, r, c) <==> Has(m1, r, c) || Has(m2, r, c)
    ensures forall r, c :: Has(s, r, c) ==> s[r][c] == Get(m1, r, c) + Get(m2, r, c)
    ensures forall r, c :: Has(m2, r, c) && !Has(m1, r, c) ==> Get(s, r, c) == m2[r][c]
  {
    Pointwise(Plus, m1, m2)
  }

  /** The matrix `subtract_matrices` returns. */
  function Difference(m1: Matrix, m2: Matrix): (d: Matrix)
    ensures d.Keys == m1.Keys + m2.Keys
    ensures forall r, c :: Has(d, r, c) <==> Has(m1, r, c) || Has(m2, r, c)
    ensures forall r, c :: Has(d, r, c) ==> d[r][c] == Get(m1, r, c) - Get(m2, r, c)
    ensures forall r, c :: Has(m2, r, c) && !Has(m1, r, c) ==> Get(d, r, c) == -m2[r][c]
  {
    Pointwise(Minus, m1, m2)
  }

  /** `add_matrices(matrix1, matrix2)`. */
  method AddMatrices(m1: Matrix, m2: Matrix) returns (result: Matrix)
    ensures result == Sum(m1, m2)
  {
    result := Merge(Plus, m1, m2);
  }

  /** `subtract_matrices(matrix1, matrix2)`. */
  method SubtractMatrices(m1: Matrix, m2: Matrix) returns (result: Matrix)
    ensures result == Difference(m1, m2)
  {
    result := Merge(Minus, m1, m2);
  }

  /** The empty matrix is an identity for addition on either side: the
      result holds exactly the operand's entries. */
  lemma SumWithEmpty(m: Matrix)
    ensures Sum(m, map[]) == m
    ensures Sum(map[], m) == m
  {
    SameEntries(Sum(m, map[]), m);
    SameEntries(Sum(map[], m), m);
  }

  /** Addition is commutative, stored coordinates included: the second loop
      checks each coordinate, not each row, so no entry of m2 is lost. */
  lemma SumCommutes(m1: Matrix, m2: Matrix)
    ensures Sum(m1, m2) == Sum(m2, m1)
  {
    SameEntries(Sum(m1, m2), Sum(m2, m1));
  }

  /** Adding a negative entry to an equal positive one stores an explicit 0:
      no zero is filtered out. */
  lemma SumKeepsZero()
    ensures Sum(map[0 := map[0 := 5]], map[0 := map[0 := -5]]) == map[0 := map[0 := 0]]
  {
    SameEntries(Sum(map[0 := map[0 := 5]], map[0 := map[0 := -5]]), map[0 := map[0 := 0]]);
  }

  /** Subtracting a matrix from itself stores 0 at each of its coordinates. */
  lemma DifferenceWithSelf(m: Matrix)
    ensures Difference(m, m) == Zeroed(m)
  {
    SameEntries(Difference(m, m), Zeroed(m));
  }

  /** Subtraction is addition of the negation `subtract({}, m2)`. */
  lemma DifferenceIsSumOfNegation(m1: Matrix, m2: Matrix)
    ensures Difference(m1, m2) == Sum(m1, Difference(map[], m2))
  {
    var n := Difference(map[], m2);
    var d, s := Difference(m1, m2), Sum(m1, n);
    forall r, c ensures (Has(d, r, c) <==> Has(s, r, c)) && Get(d, r, c) == Get(s, r, c) {
      assert Has(n, r, c) <==> Has(m2, r, c);
      assert Get(n, r, c) == -Get(m2, r, c);
    }
    SameEntries(d, s);
  }

  /** A matrix plus its negation stores 0 at each of its coordinates. */
  lemma SumWithNegation(m: Matrix)
    ensures Sum(m, Difference(map[], m)) == Zeroed(m)
  {
    DifferenceIsSumOfNegation(m, m);
    DifferenceWithSelf(m);
  }

  /** Neither operation creates an empty row from operands without one. */
  lemma KeepsRowsNonEmpty(m1: Matrix, m2: Matrix)
    requires NoEmptyRows(m1) && NoEmptyRows(m2)
    ensures NoEmptyRows(Sum(m1, m2)) && NoEmptyRows(Difference(m1, m2))
  {
  }

  /** add_matrices on A = {0: {0: 1, 1: 2}} and B = {0: {0: 3}, 1: {1: 4}}. */
  lemma SumExample()
    ensures Sum(map[0 := map[0 := 1, 1 := 2]], map[0 := map[0 := 3], 1 := map[1 := 4]])
         == map[0 := map[0 := 4, 1 := 2], 1 := map[1 := 4]]
  {
    SameEntries(Sum(map[0 := map[0 := 1, 1 := 2]], map[0 := map[0 := 3], 1 := map[1 := 4]]),
                map[0 := map[0 := 4, 1 := 2], 1 := map[1 := 4]]);
  }
}
