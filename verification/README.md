# Sparse integer matrices: reading, adding, subtracting, multiplying

A Dafny model of `spare-matrix.py`. The program stores a sparse integer matrix
as a dictionary of dictionaries, `row -> (col -> value)`. It reads such a
matrix from text lines holding `row col value` triples, adds, subtracts and
multiplies two of them, and writes every stored entry back as the line
`"{row} {col} {value}\n"`.

Modules:

- `SparseMatrix` (matrix.dfy): the `Matrix` type `map<int, map<int, int>>`.
  `Has` says an entry is stored (an explicit zero counts). `Get` reads a
  missing entry as 0.
- `Numerals` (numerals.dfy): the scan `re.findall(r'-?\d+', line)` as a
  recursive function `Tokens`. Also `int(token)` (`NumeralValue`) and
  `str(n)` (`Decimal`), with digits being the ASCII digits. `NumeralValue`
  carries no contract of its own: `DecimalRoundTrip` is its contract.
- `Reader` (reader.dfy): one line of `read_sparse_matrix` (`ParseLine`,
  `ReadLine`), the whole read as a left fold (`ReadLines`), and the written
  entry line (`FormatEntry`). `FormatEntry` carries no contract of its own:
  `ParseFormatted` is its contract.
- `Arithmetic` (arithmetic.dfy): `add_matrices` and `subtract_matrices`.
  Both run the same two loops with a different operator, so `Merge` models
  both loops for either `Op`. It is proved equal to the pointwise reference
  `Pointwise`, and `Sum`/`Difference` state what that means.
- `Product` (product.dfy): `multiply_matrices` as three nested loops. They
  are proved equal to `Product`, which is built from the ghost set-sum `Dot`.

The loops pick dictionary keys in an arbitrary order (`:|` over the key set).
So every result holds for every iteration order, not only Python's insertion
order.

Two facts about the code that the model makes explicit:

- The second loops of `add_matrices` and `subtract_matrices` (lines 69 and 90)
  test the coordinate, `col not in result[row]`. So the result's coordinates
  are the union of both operands' coordinates, and `SumCommutes` proves that
  addition is commutative on stored keys as well as on values.
- `multiply_matrices` creates a row only together with a nonzero entry
  (lines 109-112). So its result never has an empty row (`Product`'s first
  ensures).

## Model

| member | source | states |
|---|---|---|
| `Numerals.DigitRun` | spare-matrix.py:20 | the `\d+` part of the pattern is greedy: the result is the length of the longest all-digit prefix, and the next character is not a digit |
| `Numerals.MatchLength` | spare-matrix.py:20 | the match of `-?\d+` at a position is a numeral, and no longer prefix is one (greedy). Zero means no numeral starts there |
| `Numerals.Tokens` | spare-matrix.py:20 | every token the scan returns matches `-?\d+` in full, so `int()` accepts each one within the interpreter's digit limit |
| `Numerals.NoDigitNoTokens` | spare-matrix.py:19-20 | a line without digits (in particular a blank line) yields no token |
| `Numerals.TokensAfterNumeral` | spare-matrix.py:20 | a numeral followed by a non-digit is scanned as one whole token, and the scan continues after it (so "1-2" gives "1", "-2") |
| `Numerals.TokensOfTriple` | spare-matrix.py:145 | three numerals joined by single spaces and ended by a line break scan to exactly those three tokens |
| `Numerals.Decimal` | spare-matrix.py:145 | `str(n)` of every integer, negative ones included, is a string the pattern `-?\d+` matches in full |
| `Numerals.DecimalRoundTrip` | spare-matrix.py:25 | `int(str(n)) == n` for every integer n (the digit limit is not modelled, see Left out) |
| `Reader.ParseLine` | spare-matrix.py:19-28 | a line yields a triple exactly when its scan has three tokens. Blank lines yield none, and the ValueError branch is unreachable for tokens within the digit limit |
| `Reader.Store` | spare-matrix.py:30-32 | storing a triple creates its row if needed and sets its coordinate to the value, overwriting any earlier one. Every other coordinate keeps its presence and value, and no empty row appears |
| `Reader.ReadLine` | spare-matrix.py:19-32 | a line without exactly three tokens leaves the matrix unchanged. Otherwise the three converted tokens are stored as (row, col, value) (the digit limit is not modelled, see Left out) |
| `Reader.ReadLines` | spare-matrix.py:15-32 | the matrix read from any lines has no row without an entry |
| `Reader.ParseFormatted` | spare-matrix.py:145 | a written entry line scans to exactly three tokens and parses back to the same triple, negative values included |
| `Reader.ReadFormattedLine` | spare-matrix.py:145 | reading a written entry line into any matrix stores that entry |
| `Reader.ReadFormattedStoresAll` | spare-matrix.py:143-145 | reading the written lines of a list of entries stores those entries in list order |
| `Reader.StoreAllAgrees` | spare-matrix.py:30-32 | storing entries that agree with a matrix gives exactly the listed rows and coordinates, each with that matrix's value |
| `Reader.WrittenMatrixReadsBack` | spare-matrix.py:143-145 | writing every stored entry of a matrix with no empty row and reading the lines back yields the same matrix, explicit zeros included |
| `Reader.ReadSkipsMalformedLine` | spare-matrix.py:19-23 | reading "1 2 3", a line without digits such as "bad line", then "4 5 6" yields exactly {1: {2: 3}, 4: {5: 6}} |
| `Arithmetic.Merge` | spare-matrix.py:60-71 | the two loops shared by addition and subtraction produce exactly the pointwise reference: every coordinate of either operand, and no other, holding the combined values |
| `Arithmetic.MergeFirst` | spare-matrix.py:61-64 | after the first loop the result has exactly m1's rows, each holding exactly m1's columns combined with m2's value (0 when absent) |
| `Arithmetic.MergeFirstRow` | spare-matrix.py:63-64 | the inner first loop fills one row with m1's columns combined with m2's values |
| `Arithmetic.MergeSecond` | spare-matrix.py:65-70 | the second loop adds m2's rows and the columns missing from them, completing the pointwise result |
| `Arithmetic.MergeSecondRow` | spare-matrix.py:68-70 | a column already present is kept, and a missing one gets m2's value (negated for subtraction), so the row covers the union of both operands' columns |
| `Arithmetic.Sum` | spare-matrix.py:52-71 | the sum has the union of the row keys and of the coordinate sets. Each stored value is get(m1) + get(m2), and a coordinate only in m2 carries m2's value |
| `Arithmetic.Difference` | spare-matrix.py:73-92 | the difference has the union coordinate set. Each stored value is get(m1) - get(m2), and a coordinate only in m2 holds the negation of m2's value |
| `Arithmetic.AddMatrices` | spare-matrix.py:52-71 | `add_matrices` returns `Sum(m1, m2)` |
| `Arithmetic.SubtractMatrices` | spare-matrix.py:73-92 | `subtract_matrices` returns `Difference(m1, m2)` |
| `Arithmetic.SumWithEmpty` | spare-matrix.py:61-70 | adding the empty matrix on either side returns the other operand unchanged |
| `Arithmetic.SumCommutes` | spare-matrix.py:65-70 | add(m1, m2) == add(m2, m1), stored coordinates included |
| `Arithmetic.SumKeepsZero` | spare-matrix.py:64 | 5 + (-5) at a shared coordinate stores an explicit 0: no zero is filtered out |
| `Arithmetic.DifferenceWithSelf` | spare-matrix.py:81-91 | subtract(m, m) stores 0 at every coordinate of m and nowhere else |
| `Arithmetic.DifferenceIsSumOfNegation` | spare-matrix.py:73-92 | subtract(m1, m2) == add(m1, subtract({}, m2)) |
| `Arithmetic.SumWithNegation` | spare-matrix.py:52-92 | add(m, subtract({}, m)) stores 0 at every coordinate of m and nowhere else |
| `Arithmetic.KeepsRowsNonEmpty` | spare-matrix.py:60-92 | neither addition nor subtraction creates an empty row from operands without one |
| `Arithmetic.SumExample` | spare-matrix.py:52-71 | add({0: {0: 1, 1: 2}}, {0: {0: 3}, 1: {1: 4}}) == {0: {0: 4, 1: 2}, 1: {1: 4}} |
| `Product.DotOverRemove` | spare-matrix.py:106-108 | the accumulated sum does not depend on the order of the column keys: any key's summand can be taken out first |
| `Product.DotOverAdd` | spare-matrix.py:106-108 | visiting one more column key adds exactly its summand, which is 0 when line 107's guard fails |
| `Product.RowTimesColumn` | spare-matrix.py:105-108 | the innermost loop computes S(r, c), the sum of m1[r][k] * m2[k][c] over the columns k of row r with k a row of m2 and c in m2[k] |
| `Product.MultiplyRow` | spare-matrix.py:104-112 | the loop over m2's row keys leaves every other row alone. It creates row r exactly when some candidate column has a nonzero sum, holding exactly those columns with their sums |
| `Product.MultiplyMatrices` | spare-matrix.py:94-113 | `multiply_matrices` returns `Product(m1, m2)` |
| `Product.Product` | spare-matrix.py:102-113 | every stored entry is nonzero and no row is empty. Row keys come from m1 and column keys from m2's ROW keys. (r, c) is stored exactly when r is a row of m1, c a row of m2 and S(r, c) != 0, and then its value is S(r, c) |
| `Product.ProductExample` | spare-matrix.py:94-113 | multiply({0: {0: 1, 1: 2}}, {0: {0: 3}, 1: {1: 4}}) == {0: {0: 3, 1: 8}} |
| `Product.ProductSkipsColumnsThatAreNotRows` | spare-matrix.py:104 | multiply({0: {0: 1}}, {0: {5: 7}}) is empty, though the textbook product holds 7 at (0, 5): a column of m2 that is not also a row key of m2 never appears |

## Left out

- Opening the file and its failure paths (spare-matrix.py:16-17, 33-36): `FileNotFoundError` and the wrapping `InvalidMatrixFormatException` are I/O. `ReadLines` takes the lines the file iterator would yield.
- The printed warnings (spare-matrix.py:22, 27) are output only. The model just skips the line.
- The ValueError branch (spare-matrix.py:26-28) is not modelled as a branch. `NumeralValue` requires a `-?\d+` numeral, and `Tokens`' contract discharges that requirement for every token. So the branch is unreachable for tokens within CPython's int/str digit limit (`sys.get_int_max_str_digits()`, 4300 by default since 3.11). It is reachable past that limit.
- Reader.ParseLine: does not model CPython's int/str digit limit. A three-token line with a token of more than 4300 digits (such as "1 2 " followed by 5000 sevens) takes the ValueError branch and is skipped in Python, while the model returns Some for it.
- Reader.ReadLine: does not model the digit limit either. For such an over-long token Python warns and leaves the matrix unchanged, while the model stores the entry.
- Numerals.DecimalRoundTrip: holds for every integer in the model, but in CPython `str(n)` and `int(...)` raise once n has more than 4300 digits. The f-strings that print and write a result (lines 165, 172, 179, 191) therefore raise for such a value, for instance the sum or product of two 4300-digit entries. Line 145 cannot raise, since every value it writes passed `int()` at line 25.
- Unicode digits: Python's `\d` and `int()` also accept non-ASCII decimal digits. The model uses ASCII '0'..'9' only.
- `write_to_file` (spare-matrix.py:40-50) creates or appends to a file. This is I/O.
- `main` (spare-matrix.py:115-201) is interactive glue: directory listing, prompts, the menu loop, headers and output accumulation. Only its entry line format (lines 145, 150, 165, 191) is modelled, as `FormatEntry`.
- Dictionary iteration order and the order of output lines. `WrittenMatrixReadsBack` accepts any listing of the entries in any order, duplicates included.
- `Reader.WrittenMatrixReadsBack` requires a matrix without empty rows. Reading never creates an empty row, so a matrix with one cannot come back. Such rows appear only when an operand already has one (`KeepsRowsNonEmpty`).
