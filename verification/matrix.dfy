/** The sparse matrix of spare-matrix.py: a dictionary of dictionaries
    `row -> (col -> value)`. A coordinate with no entry stands for 0. */
module SparseMatrix {

  type Matrix = map<int, map<int, int>>

  /** True iff an entry is stored at (r, c) (an explicit zero counts as stored). */
  predicate Has(m: Matrix, r: int, c: int) {
    r in m && c in m[r]
  }

  /** The value at (r, c), a missing row or column read as 0. */
  function Get(m: Matrix, r: int, c: int): int {
    if Has(m, r, c) then m[r][c] else 0
  }

  /** The column keys stored in row r, empty when the row is absent. */
  function Cols(m: Matrix, r: int): set<int> {
    if r in m then m[r].Keys else {}
  }

  /** No row key maps to an empty column dictionary. */
  predicate NoEmptyRows(m: Matrix) {
    forall r :: r in m ==> m[r] != map[]
  }

  /** Two matrices with the same row keys, the same stored coordinates and
      the same values there are equal. */
  lemma SameEntries(a: Matrix, b: Matrix)
    requires a.Keys == b.Keys
    requires forall r, c :: Has(a, r, c) <==> Has(b, r, c)
    requires forall r, c :: Get(a, r, c) == Get(b, r, c)
    ensures a == b
  {
    forall r | r in a ensures a[r] == b[r] {
      assert a[r].Keys == b[r].Keys by {
        forall c ensures c in a[r] <==> c in b[r] {
          assert Has(a, r, c) <==> Has(b, r, c);
        }
      }
      forall c | c in a[r] ensures a[r][c] == b[r][c] {
        assert Has(a, r, c) && Get(a, r, c) == Get(b, r, c);
      }
    }
  }

  /** A set that is not empty has an element, so a loop may pick one. */
  lemma NonEmpty(s: set<int>)
    requires s != {}
    ensures exists x :: x in s
  {
    if forall x :: x !in s {
      assert false;
    }
  }

  /** The matrix with the coordinates of m, each holding an explicit zero. */
  function Zeroed(m: Matrix): Matrix {
    map r | r in m :: map c | c in m[r] :: 0
  }
}
