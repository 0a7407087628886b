/**
  The longest-common-subsequence kernel of lcs.py: `lcs` fills a chart of LCS
  lengths in place and `backtrack` walks the finished chart back to one LCS.

  The chart has |seq1| + 1 rows and |seq2| + 1 columns. Cell [i, j] for
  i < |seq1| and j < |seq2| holds the LCS length of seq1[..i+1] and
  seq2[..j+1]; the extra LAST row and column are never written and stay 0.
  Reads of row or column -1 wrap, as Python's negative indices do, onto that
  zero row and column.
 */
module Lcs {
  import opened LcsSpec

  /** Python's list index k into a list of length n (k < 0 counts from the end). */
  function PyIndex(k: int, n: nat): (r: nat)
    requires -(n as int) <= k < n
    ensures r < n && r == k % n
  {
    if k < 0 then n + k else k
  }

  /** chart[i][j] as Python evaluates it, negative indices included. */
  function At(chart: array2<int>, i: int, j: int): int
    reads chart
    requires -chart.Length0 <= i < chart.Length0 && -chart.Length1 <= j < chart.Length1
  {
    chart[PyIndex(i, chart.Length0), PyIndex(j, chart.Length1)]
  }

  /** A Python read chart[i][j] is the read at row i mod rows and column
      j mod columns: -1 selects the last row or column. */
  lemma AtIsModularRead(chart: array2<int>, i: int, j: int)
    requires -chart.Length0 <= i < chart.Length0 && -chart.Length1 <= j < chart.Length1
    ensures At(chart, i, j) == chart[i % chart.Length0, j % chart.Length1]
  {
  }

  /** The chart's shape, and its last row and last column all zero. */
  ghost predicate ZeroBoundary<T>(chart: array2<int>, seq1: seq<T>, seq2: seq<T>)
    reads chart
  {
    chart.Length0 == |seq1| + 1 && chart.Length1 == |seq2| + 1 &&
    (forall j :: 0 <= j <= |seq2| ==> chart[|seq1|, j] == 0) &&
    (forall i :: 0 <= i <= |seq1| ==> chart[i, |seq2|] == 0)
  }

  /** v is the LCS length of seq1[..i+1] and seq2[..j+1]. BuildChart's loop
      invariants use it so that the prefix slices stay folded; IsLcsChart
      spells the same fact out, which the proofs that read the chart need. */
  ghost predicate CellIs<T>(v: int, seq1: seq<T>, seq2: seq<T>, i: int, j: int)
    requires -1 <= i < |seq1| && -1 <= j < |seq2|
  {
    v == LcsLength(seq1[..i + 1], seq2[..j + 1])
  }

  /** Every written cell holds the LCS length of the corresponding prefixes. */
  ghost predicate IsLcsChart<T>(chart: array2<int>, seq1: seq<T>, seq2: seq<T>)
    reads chart
  {
    ZeroBoundary(chart, seq1, seq2) &&
    forall i, j :: 0 <= i < |seq1| && 0 <= j < |seq2| ==>
      chart[i, j] == LcsLength(seq1[..i + 1], seq2[..j + 1])
  }

  /** Every written cell obeys the update of lcs.py, reading row and column -1
      through Python's wraparound. */
  ghost predicate FollowsRecurrence<T>(chart: array2<int>, seq1: seq<T>, seq2: seq<T>)
    reads chart
  {
    chart.Length0 == |seq1| + 1 && chart.Length1 == |seq2| + 1 &&
    forall i, j :: 0 <= i < |seq1| && 0 <= j < |seq2| ==>
      chart[i, j] ==
        if seq1[i] == seq2[j] then At(chart, i - 1, j - 1) + 1
        else Max(At(chart, i, j - 1), At(chart, i - 1, j))
  }

  /** FollowsRecurrence with Python's wraparound spelled out: the row above
      row 0 is the last row, |seq1|, and the column left of column 0 is the last
      column, |seq2|. */
  lemma FollowsRecurrenceWraparound<T>(chart: array2<int>, seq1: seq<T>, seq2: seq<T>)
    ensures FollowsRecurrence(chart, seq1, seq2) <==>
      chart.Length0 == |seq1| + 1 && chart.Length1 == |seq2| + 1 &&
      forall i, j :: 0 <= i < |seq1| && 0 <= j < |seq2| ==>
        var up := if i == 0 then |seq1| else i - 1;
        var left := if j == 0 then |seq2| else j - 1;
        chart[i, j] ==
          if seq1[i] == seq2[j] then chart[up, left] + 1
          else Max(chart[i, left], chart[up, j])
  {
  }

  /** A read at (i, j), with -1 meaning the empty prefix, gives the LCS length
      of the prefixes of length i + 1 and j + 1 once that cell is right. */
  lemma AtIsLcsLength<T>(chart: array2<int>, seq1: seq<T>, seq2: seq<T>, i: int, j: int)
    requires ZeroBoundary(chart, seq1, seq2)
    requires -1 <= i < |seq1| && -1 <= j < |seq2|
    requires 0 <= i && 0 <= j ==> chart[i, j] == LcsLength(seq1[..i + 1], seq2[..j + 1])
    ensures At(chart, i, j) == LcsLength(seq1[..i + 1], seq2[..j + 1])
  {
  }

  /** The value lcs.py writes at (i, j) is the LCS length of the prefixes,
      once the three cells it reads are right. */
  lemma NextCell<T>(chart: array2<int>, seq1: seq<T>, seq2: seq<T>, i: int, j: int)
    requires ZeroBoundary(chart, seq1, seq2)
    requires 0 <= i < |seq1| && 0 <= j < |seq2|
    requires 0 < i && 0 < j ==> chart[i - 1, j - 1] == LcsLength(seq1[..i], seq2[..j])
    requires 0 < j ==> chart[i, j - 1] == LcsLength(seq1[..i + 1], seq2[..j])
    requires 0 < i ==> chart[i - 1, j] == LcsLength(seq1[..i], seq2[..j + 1])
    ensures LcsLength(seq1[..i + 1], seq2[..j + 1]) ==
              if seq1[i] == seq2[j] then At(chart, i - 1, j - 1) + 1
              else Max(At(chart, i, j - 1), At(chart, i - 1, j))
  {
    AtIsLcsLength(chart, seq1, seq2, i - 1, j - 1);
    AtIsLcsLength(chart, seq1, seq2, i, j - 1);
    AtIsLcsLength(chart, seq1, seq2, i - 1, j);
    LcsLengthStep(seq1, seq2, i, j);
  }

  /** lcs(seq1, seq2): fills the chart row by row. */
  method BuildChart<T(==)>(seq1: seq<T>, seq2: seq<T>) returns (chart: array2<int>)
    ensures fresh(chart)
    ensures IsLcsChart(chart, seq1, seq2)
  {
    chart := new int[|seq1| + 1, |seq2| + 1]((_, _) => 0);
    for i := 0 to |seq1|
      invariant ZeroBoundary(chart, seq1, seq2)
      invariant forall i', j' :: 0 <= i' < i && 0 <= j' < |seq2| ==>
                  CellIs(chart[i', j'], seq1, seq2, i', j')
    {
      for j := 0 to |seq2|
        invariant ZeroBoundary(chart, seq1, seq2)
        invariant forall i', j' :: 0 <= i' < i && 0 <= j' < |seq2| ==>
                    CellIs(chart[i', j'], seq1, seq2, i', j')
        invariant forall j' :: 0 <= j' < j ==> CellIs(chart[i, j'], seq1, seq2, i, j')
      {
        assert 0 < i && 0 < j ==> CellIs(chart[i - 1, j - 1], seq1, seq2, i - 1, j - 1);
        assert 0 < j ==> CellIs(chart[i, j - 1], seq1, seq2, i, j - 1);
        assert 0 < i ==> CellIs(chart[i - 1, j], seq1, seq2, i - 1, j);
        NextCell(chart, seq1, seq2, i, j);
        if seq1[i] == seq2[j] {
          chart[i, j] := At(chart, i - 1, j - 1) + 1;
        } else {
          chart[i, j] := Max(At(chart, i, j - 1), At(chart, i - 1, j));
        }
      }
    }
  }

  /** A chart with the zero boundary follows the update of lcs.py exactly when
      it holds the LCS lengths of all prefixes: the recurrence has one solution. */
  lemma RecurrenceIffLcsChart<T>(chart: array2<int>, seq1: seq<T>, seq2: seq<T>)
    requires ZeroBoundary(chart, seq1, seq2)
    ensures FollowsRecurrence(chart, seq1, seq2) <==> IsLcsChart(chart, seq1, seq2)
  {
    if IsLcsChart(chart, seq1, seq2) {
      forall i, j | 0 <= i < |seq1| && 0 <= j < |seq2|
        ensures chart[i, j] ==
          if seq1[i] == seq2[j] then At(chart, i - 1, j - 1) + 1
          else Max(At(chart, i, j - 1), At(chart, i - 1, j))
      {
        NextCell(chart, seq1, seq2, i, j);
      }
    }
    if FollowsRecurrence(chart, seq1, seq2) {
      forall i, j | 0 <= i < |seq1| && 0 <= j < |seq2|
        ensures chart[i, j] == LcsLength(seq1[..i + 1], seq2[..j + 1])
      {
        RecurrenceCell(chart, seq1, seq2, i, j);
      }
    }
  }

  lemma {:induction false} RecurrenceCell<T>(chart: array2<int>, seq1: seq<T>, seq2: seq<T>, i: int, j: int)
    requires ZeroBoundary(chart, seq1, seq2) && FollowsRecurrence(chart, seq1, seq2)
    requires 0 <= i < |seq1| && 0 <= j < |seq2|
    ensures chart[i, j] == LcsLength(seq1[..i + 1], seq2[..j + 1])
    decreases i + j
  {
    if 0 <= i - 1 && 0 <= j - 1 {
      RecurrenceCell(chart, seq1, seq2, i - 1, j - 1);
    }
    if 0 <= j - 1 {
      RecurrenceCell(chart, seq1, seq2, i, j - 1);
    }
    if 0 <= i - 1 {
      RecurrenceCell(chart, seq1, seq2, i - 1, j);
    }
    NextCell(chart, seq1, seq2, i, j);
  }

  /** Every cell of an LCS chart is bounded by both prefix lengths and does
      not decrease along a row or down a column. */
  lemma ChartBoundedMonotone<T>(chart: array2<int>, seq1: seq<T>, seq2: seq<T>)
    requires IsLcsChart(chart, seq1, seq2)
    ensures forall i, j :: 0 <= i < |seq1| && 0 <= j < |seq2| ==>
              0 <= chart[i, j] <= i + 1 && chart[i, j] <= j + 1
    ensures forall i, j :: 0 <= i < |seq1| && 0 <= j < |seq2| - 1 ==>
              chart[i, j] <= chart[i, j + 1]
    ensures forall i, j :: 0 <= i < |seq1| - 1 && 0 <= j < |seq2| ==>
              chart[i, j] <= chart[i + 1, j]
  {
    forall i, j | 0 <= i < |seq1| && 0 <= j < |seq2| - 1
      ensures chart[i, j] <= chart[i, j + 1]
    {
      assert seq2[..j + 2] == seq2[..j + 1] + [seq2[j + 1]];
      LcsLengthMonotone(seq1[..i + 1], seq2[..j + 1], seq2[j + 1]);
    }
    forall i, j | 0 <= i < |seq1| - 1 && 0 <= j < |seq2|
      ensures chart[i, j] <= chart[i + 1, j]
    {
      assert seq1[..i + 2] == seq1[..i + 1] + [seq1[i + 1]];
      LcsLengthMonotone(seq1[..i + 1], seq2[..j + 1], seq1[i + 1]);
    }
  }

  /** backtrack(chart, seq1, seq2, i, j): one common subsequence of
      seq1[..i+1] and seq2[..j+1], read off the chart from (i, j) back to a
      boundary. On a mismatch it moves left only when the left cell is strictly
      greater than the one above; on a tie it moves up. */
  function Backtrack<T(==)>(chart: array2<int>, seq1: seq<T>, seq2: seq<T>, i: int, j: int): (r: seq<T>)
    reads chart
    requires |seq1| < chart.Length0 && |seq2| < chart.Length1
    requires -1 <= i < |seq1| && -1 <= j < |seq2|
    ensures |r| <= i + 1 && |r| <= j + 1
    ensures i == -1 || j == -1 ==> r == []
    decreases i + j
  {
    if i == -1 || j == -1 then []
    else if seq1[i] == seq2[j] then Backtrack(chart, seq1, seq2, i - 1, j - 1) + [seq1[i]]
    else if At(chart, i, j - 1) > At(chart, i - 1, j) then Backtrack(chart, seq1, seq2, i, j - 1)
    else Backtrack(chart, seq1, seq2, i - 1, j)
  }

  /** Whatever the chart holds, backtrack returns a common subsequence of the
      two prefixes, in left-to-right order. */
  lemma {:induction false} BacktrackIsCommon<T>(chart: array2<int>, seq1: seq<T>, seq2: seq<T>, i: int, j: int)
    requires |seq1| < chart.Length0 && |seq2| < chart.Length1
    requires -1 <= i < |seq1| && -1 <= j < |seq2|
    ensures IsCommonSubseq(Backtrack(chart, seq1, seq2, i, j), seq1[..i + 1], seq2[..j + 1])
    decreases i + j
  {
    if i == -1 || j == -1 {
    } else {
      assert seq1[..i + 1] == seq1[..i] + [seq1[i]];
      assert seq2[..j + 1] == seq2[..j] + [seq2[j]];
      if seq1[i] == seq2[j] {
        var r := Backtrack(chart, seq1, seq2, i - 1, j - 1);
        BacktrackIsCommon(chart, seq1, seq2, i - 1, j - 1);
        SubseqAppend(r, seq1[..i], seq1[i]);
        SubseqAppend(r, seq2[..j], seq2[j]);
      } else if At(chart, i, j - 1) > At(chart, i - 1, j) {
        var r := Backtrack(chart, seq1, seq2, i, j - 1);
        BacktrackIsCommon(chart, seq1, seq2, i, j - 1);
        SubseqExtend(r, seq2[..j], seq2[j]);
      } else {
        var r := Backtrack(chart, seq1, seq2, i - 1, j);
        BacktrackIsCommon(chart, seq1, seq2, i - 1, j);
        SubseqExtend(r, seq1[..i], seq1[i]);
      }
    }
  }

  /** On an LCS chart, each written cell is what the update of lcs.py makes of
      the three cells it reads. */
  lemma LcsChartStep<T>(chart: array2<int>, seq1: seq<T>, seq2: seq<T>, i: int, j: int)
    requires IsLcsChart(chart, seq1, seq2)
    requires 0 <= i < |seq1| && 0 <= j < |seq2|
    ensures chart[i, j] ==
              if seq1[i] == seq2[j] then At(chart, i - 1, j - 1) + 1
              else Max(At(chart, i, j - 1), At(chart, i - 1, j))
  {
    NextCell(chart, seq1, seq2, i, j);
  }

  /** On an LCS chart, backtrack from (i, j) returns exactly as many symbols as
      the chart holds at (i, j), -1 reading the zero boundary; that is the LCS
      length of the prefixes. */
  lemma {:induction false} BacktrackLength<T>(chart: array2<int>, seq1: seq<T>, seq2: seq<T>, i: int, j: int)
    requires IsLcsChart(chart, seq1, seq2)
    requires -1 <= i < |seq1| && -1 <= j < |seq2|
    ensures |Backtrack(chart, seq1, seq2, i, j)| == At(chart, i, j)
    ensures |Backtrack(chart, seq1, seq2, i, j)| == LcsLength(seq1[..i + 1], seq2[..j + 1])
    decreases i + j
  {
    AtIsLcsLength(chart, seq1, seq2, i, j);
    if i != -1 && j != -1 {
      LcsChartStep(chart, seq1, seq2, i, j);
      if seq1[i] == seq2[j] {
        BacktrackLength(chart, seq1, seq2, i - 1, j - 1);
      } else if At(chart, i, j - 1) > At(chart, i - 1, j) {
        BacktrackLength(chart, seq1, seq2, i, j - 1);
      } else {
        BacktrackLength(chart, seq1, seq2, i - 1, j);
      }
    }
  }

  /** Called as lcs.py's main calls it, from (|seq1| - 1, |seq2| - 1) on the
      chart lcs builds, backtrack returns a longest common subsequence of the
      whole inputs, as long as the chart's final cell says. */
  lemma BacktrackIsLongest<T(!new)>(chart: array2<int>, seq1: seq<T>, seq2: seq<T>)
    requires IsLcsChart(chart, seq1, seq2)
    ensures IsLongestCommonSubseq(Backtrack(chart, seq1, seq2, |seq1| - 1, |seq2| - 1), seq1, seq2)
    ensures |Backtrack(chart, seq1, seq2, |seq1| - 1, |seq2| - 1)| == At(chart, |seq1| - 1, |seq2| - 1)
  {
    var n1, n2 := |seq1| - 1, |seq2| - 1;
    var r := Backtrack(chart, seq1, seq2, n1, n2);
    assert seq1[..n1 + 1] == seq1 && seq2[..n2 + 1] == seq2;
    BacktrackIsCommon(chart, seq1, seq2, n1, n2);
    assert IsCommonSubseq(r, seq1, seq2);
    BacktrackLength(chart, seq1, seq2, n1, n2);
    assert |r| == LcsLength(seq1, seq2);
    forall d | IsCommonSubseq(d, seq1, seq2)
      ensures |d| <= |r|
    {
      CommonSubseqBound(d, seq1, seq2);
    }
  }
}

module LcsMain {
  import opened LcsSpec
  import opened Lcs

  /** Part of the chart lcs.py's main prints: the final cell (6, 6) and the
      cells backtrack compares on its way from there. */
  lemma ExampleChart(chart: array2<int>)
    requires ZeroBoundary(chart, "XMJYAUZ", "MZJAWXU")
    requires FollowsRecurrence(chart, "XMJYAUZ", "MZJAWXU")
    ensures chart[6, 6] == 4 && chart[6, 5] == 3 && chart[5, 6] == 4
    ensures chart[4, 4] == 3 && chart[3, 5] == 2 && chart[4, 3] == 3 && chart[3, 4] == 2
    ensures chart[3, 1] == 1 && chart[2, 2] == 2 && chart[1, 0] == 1 && chart[0, 1] == 0
  {
  }

  /** lcs.py's main: build the chart of "XMJYAUZ" against "MZJAWXU" and
      backtrack from (6, 6). The final cell is 4 and the LCS is M, J, A, U. */
  method MainExample() returns (finalCell: int, first: seq<char>)
    ensures finalCell == 4
    ensures first == ['M', 'J', 'A', 'U']
  {
    var seq1, seq2 := "XMJYAUZ", "MZJAWXU";
    var chart := BuildChart(seq1, seq2);
    RecurrenceIffLcsChart(chart, seq1, seq2);
    ExampleChart(chart);
    assert Backtrack(chart, seq1, seq2, 1, 0) == ['M'];
    assert Backtrack(chart, seq1, seq2, 1, 1) == ['M'];
    assert Backtrack(chart, seq1, seq2, 2, 2) == ['M', 'J'];
    assert Backtrack(chart, seq1, seq2, 3, 2) == ['M', 'J'];
    assert Backtrack(chart, seq1, seq2, 4, 3) == ['M', 'J', 'A'];
    assert Backtrack(chart, seq1, seq2, 4, 5) == ['M', 'J', 'A'];
    assert Backtrack(chart, seq1, seq2, 5, 6) == ['M', 'J', 'A', 'U'];
    finalCell := chart[6, 6];
    first := Backtrack(chart, seq1, seq2, 6, 6);
  }

  /** The tie-break of backtrack: "AB" against "BA" has two longest common
      subsequences, A and B. At (1, 1) the symbols differ and both neighbours
      hold 1, so backtrack moves up to (0, 1) and returns A; moving left would
      have returned B. */
  method TieBreakExample() returns (first: seq<char>)
    ensures first == ['A']
    ensures IsCommonSubseq(['B'], "AB", "BA") && |first| == LcsLength("AB", "BA")
  {
    var seq1, seq2 := "AB", "BA";
    var chart := BuildChart(seq1, seq2);
    RecurrenceIffLcsChart(chart, seq1, seq2);
    assert chart[0, 0] == 0 && chart[0, 1] == 1 && chart[1, 0] == 1 && chart[1, 1] == 1;
    BacktrackLength(chart, seq1, seq2, 1, 1);
    assert seq1[..2] == seq1 && seq2[..2] == seq2;
    assert IsSubseq(['B'], "BA"[..1]);
    first := Backtrack(chart, seq1, seq2, 1, 1);
  }
}
