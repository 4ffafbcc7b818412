/** `multiply_matrices`, modelled as written: the candidate columns of the
    product are the ROW keys of m2 (line 104), and an entry is stored only
    when its accumulated sum is not zero. */
module Product {
  import opened SparseMatrix

  /** The summand of column key k for output column c: the product of
      row[k] and m2[k][c] when both are stored, otherwise nothing (0). */
  function Term(row: map<int, int>, m2: Matrix, c: int, k: int): int {
    if k in row && k in m2 && c in m2[k] then row[k] * m2[k][c] else 0
  }

  /** The sum of the summands over the column keys ks, in no particular order. */
  ghost function DotOver(ks: set<int>, row: map<int, int>, m2: Matrix, c: int): int
    decreases ks
  {
    if ks == {} then 0
    else
      NonEmpty(ks);
      var k :| k in ks;
      Term(row, m2, c, k) + DotOver(ks - {k}, row, m2, c)
  }

  /** S(r, c): the sum over the column keys k of row r of m1 that are row
      keys of m2 whose row holds column c, of m1[r][k] * m2[k][c]. */
  ghost function Dot(row: map<int, int>, m2: Matrix, c: int): int {
    DotOver(row.Keys, row, m2, c)
  }

  /** The sum does not depend on the order the keys are visited in: any key
      may be taken out first. */
  lemma {:induction false} DotOverRemove(ks: set<int>, row: map<int, int>, m2: Matrix, c: int, k: int)
    requires k in ks
    ensures DotOver(ks, row, m2, c) == Term(row, m2, c, k) + DotOver(ks - {k}, row, m2, c)
    decreases ks
  {
    var j :| j in ks && DotOver(ks, row, m2, c) == Term(row, m2, c, j) + DotOver(ks - {j}, row, m2, c);
    if j != k {
      DotOverRemove(ks - {j}, row, m2, c, k);
      DotOverRemove(ks - {k}, row, m2, c, j);
      assert ks - {j} - {k} == ks - {k} - {j};
    }
  }

  /** Visiting one more key adds its summand. */
  lemma DotOverAdd(done: set<int>, row: map<int, int>, m2: Matrix, c: int, k: int)
    requires k !in done
    ensures DotOver(done + {k}, row, m2, c) == DotOver(done, row, m2, c) + Term(row, m2, c, k)
  {
    DotOverRemove(done + {k}, row, m2, c, k);
    assert done + {k} - {k} == done;
  }

  /** Row r of the product over the candidate columns cols. */
  ghost function ProductRow(m1: Matrix, m2: Matrix, r: int, cols: set<int>): map<int, int>
    requires r in m1
  {
    map c | c in cols && Dot(m1[r], m2, c) != 0 :: Dot(m1[r], m2, c)
  }

  /** The matrix `multiply_matrices` returns. */
  ghost function Product(m1: Matrix, m2: Matrix): (p: Matrix)
    ensures forall r :: r in p ==> r in m1 && p[r] != map[]
    ensures forall r, c :: Has(p, r, c) ==> c in m2 && p[r][c] != 0
    ensures forall r, c :: Has(p, r, c) <==> r in m1 && c in m2 && Dot(m1[r], m2, c) != 0
    ensures forall r, c :: Has(p, r, c) ==> p[r][c] == Dot(m1[r], m2, c)
  {
    assert forall r, c | r in m1 && c in m2 && Dot(m1[r], m2, c) != 0 :: c in ProductRow(m1, m2, r, m2.Keys);
    map r | r in m1 && ProductRow(m1, m2, r, m2.Keys) != map[] :: ProductRow(m1, m2, r, m2.Keys)
  }

  /** `multiply_matrices(matrix1, matrix2)`: for each row of m1, for each row
      key of m2 taken as an output column, the sum over the row's columns;
      the row is created on its first nonzero sum. */
  method MultiplyMatrices(m1: Matrix, m2: Matrix) returns (result: Matrix)
    ensures result == Product(m1, m2)
  {
    result := map[];
    var rows1 := m1.Keys;
    while rows1 != {}
      invariant rows1 <= m1.Keys
      invariant forall r :: r in result <==> r in m1 && r !in rows1 && ProductRow(m1, m2, r, m2.Keys) != map[]
      invariant forall r :: r in result ==> result[r] == ProductRow(m1, m2, r, m2.Keys)
      decreases rows1
    {
      NonEmpty(rows1);
      var row1 :| row1 in rows1;
      result := MultiplyRow(m1, m2, row1, result);
      rows1 := rows1 - {row1};
    }
    ghost var p := Product(m1, m2);
    forall r ensures r in result <==> r in p {
      assert r !in rows1;
    }
    assert result.Keys == p.Keys;
  }

  /** The loop over the row keys of m2 (line 104) for one row of m1. */
  method MultiplyRow(m1: Matrix, m2: Matrix, row1: int, before: Matrix) returns (result: Matrix)
    requires row1 in m1 && row1 !in before
    ensures result - {row1} == before
    ensures row1 in result <==> ProductRow(m1, m2, row1, m2.Keys) != map[]
    ensures row1 in result ==> result[row1] == ProductRow(m1, m2, row1, m2.Keys)
  {
    result := before;
    var cols2 := m2.Keys;
    while cols2 != {}
      invariant cols2 <= m2.Keys
      invariant result - {row1} == before
      invariant row1 in result <==> ProductRow(m1, m2, row1, m2.Keys - cols2) != map[]
      invariant row1 in result ==> result[row1] == ProductRow(m1, m2, row1, m2.Keys - cols2)
      decreases cols2
    {
      NonEmpty(cols2);
      var col2 :| col2 in cols2;
      ghost var done := m2.Keys - cols2;
      assert m2.Keys - (cols2 - {col2}) == done + {col2};
      var sum := RowTimesColumn(m1[row1], m2, col2);
      if sum != 0 {
        if row1 !in result {
          result := result[row1 := map[]];
        }
        result := result[row1 := result[row1][col2 := sum]];
        assert col2 in ProductRow(m1, m2, row1, done + {col2});
      } else {
        assert ProductRow(m1, m2, row1, done + {col2}) == ProductRow(m1, m2, row1, done);
      }
      cols2 := cols2 - {col2};
    }
  }

  /** The innermost loop (lines 105-108): the sum over the columns of row. */
  method RowTimesColumn(row: map<int, int>, m2: Matrix, col2: int) returns (sum: int)
    ensures sum == Dot(row, m2, col2)
  {
    sum := 0;
    var cols1 := row.Keys;
    while cols1 != {}
      invariant cols1 <= row.Keys
      invariant sum == DotOver(row.Keys - cols1, row, m2, col2)
      decreases cols1
    {
      NonEmpty(cols1);
      var col1 :| col1 in cols1;
      if col1 in m2 && col2 in m2[col1] {
        sum := sum + row[col1] * m2[col1][col2];
      }
      DotOverAdd(row.Keys - cols1, row, m2, col2, col1);
      assert row.Keys - (cols1 - {col1}) == (row.Keys - cols1) + {col1};
      cols1 := cols1 - {col1};
    }
    assert row.Keys - cols1 == row.Keys;
  }

  /** The sum over two column keys is the sum of their two summands. */
  lemma DotOverPair(row: map<int, int>, m2: Matrix, c: int, k0: int, k1: int)
    requires k0 != k1
    ensures DotOver({k0, k1}, row, m2, c) == Term(row, m2, c, k0) + Term(row, m2, c, k1)
  {
    DotOverRemove({k0, k1}, row, m2, c, k0);
    assert {k0, k1} - {k0} == {k1};
    DotOverRemove({k1}, row, m2, c, k1);
    assert {k1} - {k1} == {};
  }

  /** multiply_matrices on A = {0: {0: 1, 1: 2}} and B = {0: {0: 3}, 1: {1: 4}}:
      (0, 0) = 1 * 3 and (0, 1) = 2 * 4. */
  lemma ProductExample()
    ensures Product(map[0 := map[0 := 1, 1 := 2]], map[0 := map[0 := 3], 1 := map[1 := 4]])
         == map[0 := map[0 := 3, 1 := 8]]
  {
    var a: Matrix := map[0 := map[0 := 1, 1 := 2]];
    var b: Matrix := map[0 := map[0 := 3], 1 := map[1 := 4]];
    assert a[0].Keys == {0, 1};
    DotOverPair(a[0], b, 0, 0, 1);
    DotOverPair(a[0], b, 1, 0, 1);
    assert Dot(a[0], b, 0) == 3;
    assert Dot(a[0], b, 1) == 8;
    SameEntries(Product(a, b), map[0 := map[0 := 3, 1 := 8]]);
  }

  /** A column of m2 that is not also a row key of m2 never appears in the
      product: with A = {0: {0: 1}} and B = {0: {5: 7}} the textbook product
      holds 7 at (0, 5), but the result is empty. */
  lemma ProductSkipsColumnsThatAreNotRows()
    ensures Product(map[0 := map[0 := 1]], map[0 := map[5 := 7]]) == map[]
  {
  }
}
