# Longest common subsequence in `subsequences`

This project models `lcs.py` of the `subsequences` repository. The file is a
stand-alone, pure-Python version of the longest-common-subsequence (LCS)
algorithm with its own `main`. The repository's command-line tool
(`subseq.py`) compares tokenized texts but does not call this file: it imports
compiled extension modules instead. `lcs.py` has two parts:

- `lcs(seq1, seq2)` fills a dynamic-programming chart of LCS lengths in place.
  The chart is a list of `len(seq1)+1` rows of `len(seq2)+1` zeros. Cell
  `[i][j]`, for `i < len(seq1)` and `j < len(seq2)`, receives the LCS length of
  `seq1[:i+1]` and `seq2[:j+1]`. Cells in row or column `-1` are read through
  Python's negative indexing. That lands on the extra last row and last column,
  which are never written and stay 0.
- `backtrack(chart, seq1, seq2, i, j)` walks the finished chart from `(i, j)`
  back to a boundary and returns one LCS.

Symbols are any type with equality. The model has three modules:

- `LcsSpec` (`lcs_spec.dfy`) is the chart-independent specification. It defines
  `IsSubseq`, common subsequences and longest common subsequences. It also
  defines `LcsLength`, the recurrence over prefixes, and proves that it is
  exactly the length of a longest common subsequence.
- `Lcs` (`lcs.dfy`) holds the code. `BuildChart` is the imperative `lcs`: a
  method with two nested loops over an `array2<int>`. `Backtrack` is the pure
  recursive `backtrack`: a function that reads the array. Python's negative
  index is modelled by `PyIndex`, and `chart[i][j]` by `At`.
- `LcsMain` (`lcs.dfy`) holds the concrete run of `main` and a tie-break
  example.

The chart layout differs from the usual presentation of the algorithm, which
puts a zero row and column first and indexes with a `+1` offset. The code
stores the LCS length of prefixes of length `i+1` and `j+1` at `[i][j]`, and its
zero row and column are the last ones, reached through index `-1`. The model
follows the code.

The tie-break of `backtrack` is a fixed convention. On a mismatch it moves left
to `(i, j-1)` only when that cell is strictly greater than the cell above; on a
tie it moves up to `(i-1, j)`. `LcsMain.TieBreakExample` pins it down on `"AB"`
against `"BA"`: the code returns `A`, and a walk that moved left on ties would
return `B`.

## Model

| member | source | states |
|---|---|---|
| `LcsSpec.LcsLength` | lcs.py:14-17 | The LCS-length recurrence over prefixes; its value never exceeds the length of either input |
| `LcsSpec.LcsLengthStep` | lcs.py:16-17 | The recurrence restated on prefixes `seq1[..i+1]`, `seq2[..j+1]`: diagonal plus one on a match, otherwise the maximum of the left and upper prefix pairs |
| `LcsSpec.CommonSubseqBound` | lcs.py:14-17 | Optimality: every common subsequence of `a` and `b` is at most `LcsLength(a, b)` long |
| `LcsSpec.LcsLengthAchieved` | lcs.py:14-17 | Some common subsequence of `a` and `b` has length exactly `LcsLength(a, b)` |
| `LcsSpec.LcsLengthIsMaximum` | lcs.py:11-18 | `LcsLength(a, b)` is the length of a longest common subsequence, one that no common subsequence is longer than |
| `LcsSpec.LcsLengthSymmetric` | lcs.py:11-18 | Swapping the two inputs leaves the LCS length unchanged |
| `LcsSpec.LcsLengthMonotone` | lcs.py:17 | Appending a symbol to either input raises the LCS length by zero or one |
| `Lcs.PyIndex` | lcs.py:16-17 | Python's index `k` into a list of length `n` (`-n <= k < n`) is `k mod n`, so `-1` selects the last element |
| `LcsSpec.Max` | lcs.py:17 | Python's `max` of two numbers: the result is at least both arguments and equal to one of them |
| `Lcs.AtIsModularRead` | lcs.py:16-17 | `At`, Python's `chart[i][j]` with negative indices allowed, reads the cell at row `i mod rows` and column `j mod columns` |
| `Lcs.FollowsRecurrenceWraparound` | lcs.py:16-17 | `FollowsRecurrence`, the update of lines 16-17 on every written cell, holds exactly when each cell is the diagonal plus one on a match and the maximum of its left and upper neighbours otherwise, where the row above row 0 is row `|seq1|` and the column left of column 0 is column `|seq2|` |
| `Lcs.AtIsLcsLength` | lcs.py:16-17 | A read at row or column `-1` yields 0, the LCS length of an empty prefix; other reads yield the cell |
| `Lcs.NextCell` | lcs.py:16-17 | The value written at `[i][j]` from the three cells it reads (with wraparound) is the LCS length of `seq1[..i+1]` and `seq2[..j+1]` |
| `Lcs.BuildChart` | lcs.py:11-18 | The returned chart is a newly allocated array. It has `|seq1|+1` rows and `|seq2|+1` columns. Its last row and last column are 0, and every written cell `[i, j]` equals `LcsLength(seq1[..i+1], seq2[..j+1])` |
| `Lcs.RecurrenceIffLcsChart` | lcs.py:13-17 | For a chart of that shape with a zero last row and column: every cell obeys the update of lines 16-17 (reading `-1` with wraparound) if and only if every cell holds the prefix LCS length. The recurrence has exactly one solution |
| `Lcs.RecurrenceCell` | lcs.py:14-17 | A chart obeying the update holds at each cell the LCS length of the prefixes, by induction on `i + j` |
| `Lcs.ChartBoundedMonotone` | lcs.py:13-17 | On the chart `lcs` builds, `0 <= chart[i, j] <= min(i+1, j+1)`, and within `[0, |seq1|) × [0, |seq2|)` cells never decrease along a row or down a column |
| `Lcs.Backtrack` | lcs.py:20-27 | `backtrack` from `(i, j)`: the result has at most `min(i+1, j+1)` symbols and is empty when `i` or `j` is `-1`. Each call lowers `i + j`, so the recursion terminates |
| `Lcs.BacktrackIsCommon` | lcs.py:22-27 | For any chart, `backtrack` from `(i, j)` returns a subsequence of both `seq1[..i+1]` and `seq2[..j+1]`, in left-to-right order |
| `Lcs.LcsChartStep` | lcs.py:16-17 | On the chart `lcs` builds, every written cell satisfies the update of lines 16-17 with Python indexing: diagonal plus one on a match, otherwise the maximum of the left and upper cells |
| `Lcs.BacktrackLength` | lcs.py:22-27 | On the chart `lcs` builds, the result has exactly `chart[i][j]` symbols, with index `-1` reading 0. That equals `LcsLength(seq1[..i+1], seq2[..j+1])` |
| `Lcs.BacktrackIsLongest` | lcs.py:20-27 | Called as `main` calls it, from `(|seq1|-1, |seq2|-1)` on the chart `lcs` builds, `backtrack` returns a longest common subsequence of the whole inputs. Its length equals the final cell `chart[|seq1|-1][|seq2|-1]` read with Python indexing. When an input is empty, that read lands on the zero boundary |
| `LcsMain.ExampleChart` | lcs.py:4-8 | The chart of `"XMJYAUZ"` against `"MZJAWXU"`: the final cell, 4 at `(6, 6)`, and the cells that `backtrack` reads to choose its moves from there |
| `LcsMain.MainExample` | lcs.py:3-9 | `main`'s run: the final cell is 4 and `backtrack` from `(6, 6)` returns `M, J, A, U` |
| `LcsMain.TieBreakExample` | lcs.py:25-27 | On a tie, `backtrack` moves up. For `"AB"` against `"BA"` it returns `A`, although `B` is an equally long common subsequence |

## Left out

- `main`'s `print` statements (lcs.py:7-9) are output only. `LcsMain.MainExample` returns the final cell and the LCS printed at line 9. Of the whole chart printed at line 8, `LcsMain.ExampleChart` states only the final cell and the cells `backtrack` compares.
- Python's recursion limit is not modelled. `backtrack` recurses once per step, and a walk can take up to `|seq1| + |seq2|` steps, so inputs whose lengths add up to more than about 1000 can raise `RecursionError` in the source. The model has no such limit.
- `Lcs.Backtrack` requires `-1 <= i < |seq1|`, `-1 <= j < |seq2|` and a chart with more rows than `|seq1|` and more columns than `|seq2|`. Outside these bounds the source may raise `IndexError`, walk past `-1`, return `()` at once (`j == -1` with any `i`), or read a written row as row `-1` (a chart with too few rows); the model defines none of these. The source's only caller (lcs.py:9) passes the chart `lcs` built and the last indices, which always meet the bounds.
- The chart is an `array2` rather than a list of lists. `lcs` builds every row as a fresh list (lcs.py:13), so no two rows alias and the two representations behave the same.
- The command-line front end in `subseq.py` is not part of this model. It handles option parsing, file checks, reading text, batch output naming, writing results and printing distances, all of which are I/O.
- The `LCSComparator` and `ParallelComparator` classes are not part of this model. `subseq.py` imports them (subseq.py:7-8) from Cython extension modules that setup.py:54 builds from the repository's `.pyx` files. This model covers only the pure-Python `lcs.py`, so their all-LCS enumeration, frequency aggregation, distance computation and parallel-substring extraction are not modelled.
- `setup.py` is build configuration with no logic.
