/**
  Specification of longest common subsequences, independent of any chart.

  A subsequence keeps the order of the symbols it takes and may skip any of
  them. LcsLength is the classical recurrence over prefixes; the lemmas below
  show that it is exactly the length of a longest common subsequence.
 */
module LcsSpec {

  function Max(x: int, y: int): (m: int)
    ensures m >= x && m >= y && (m == x || m == y)
  {
    if x >= y then x else y
  }

  /** c can be obtained from s by deleting symbols: either the last symbol of
      s is the last symbol of c, or it is skipped. */
  ghost predicate IsSubseq<T>(c: seq<T>, s: seq<T>)
    decreases |s|
  {
    c == [] ||
    (s != [] &&
     ((c[|c| - 1] == s[|s| - 1] && IsSubseq(c[..|c| - 1], s[..|s| - 1])) ||
      IsSubseq(c, s[..|s| - 1])))
  }

  ghost predicate IsCommonSubseq<T>(c: seq<T>, a: seq<T>, b: seq<T>)
  {
    IsSubseq(c, a) && IsSubseq(c, b)
  }

  /** c is a common subsequence of a and b that no other is longer than. */
  ghost predicate IsLongestCommonSubseq<T(!new)>(c: seq<T>, a: seq<T>, b: seq<T>)
  {
    IsCommonSubseq(c, a, b) &&
    forall d :: IsCommonSubseq(d, a, b) ==> |d| <= |c|
  }

  /** Length of a longest common subsequence of a and b, by recursion on the
      last symbols. */
  ghost function LcsLength<T>(a: seq<T>, b: seq<T>): (n: nat)
    ensures n <= |a| && n <= |b|
    decreases |a| + |b|
  {
    if |a| == 0 || |b| == 0 then 0
    else if a[|a| - 1] == b[|b| - 1] then LcsLength(a[..|a| - 1], b[..|b| - 1]) + 1
    else Max(LcsLength(a[..|a| - 1], b), LcsLength(a, b[..|b| - 1]))
  }

  /** The recurrence, stated on the prefixes a[..i+1] and b[..j+1]. */
  lemma LcsLengthStep<T>(a: seq<T>, b: seq<T>, i: nat, j: nat)
    requires i < |a| && j < |b|
    ensures LcsLength(a[..i + 1], b[..j + 1]) ==
            if a[i] == b[j] then LcsLength(a[..i], b[..j]) + 1
            else Max(LcsLength(a[..i + 1], b[..j]), LcsLength(a[..i], b[..j + 1]))
  {
    assert a[..i + 1][..i] == a[..i];
    assert b[..j + 1][..j] == b[..j];
  }

  lemma SubseqOfEmpty<T>(c: seq<T>, s: seq<T>)
    requires s == [] && IsSubseq(c, s)
    ensures c == []
  {
  }

  /** Appending a symbol to the sequence keeps every subsequence. */
  lemma SubseqExtend<T>(c: seq<T>, s: seq<T>, x: T)
    requires IsSubseq(c, s)
    ensures IsSubseq(c, s + [x])
  {
    assert (s + [x])[..|s|] == s;
  }

  /** Appending the same symbol to both keeps the relation. */
  lemma SubseqAppend<T>(c: seq<T>, s: seq<T>, x: T)
    requires IsSubseq(c, s)
    ensures IsSubseq(c + [x], s + [x])
  {
    assert (c + [x])[..|c|] == c;
    assert (s + [x])[..|s|] == s;
  }

  /** Dropping the last symbol of a subsequence leaves a subsequence. */
  lemma {:induction false} SubseqDropLast<T>(c: seq<T>, s: seq<T>)
    requires c != [] && IsSubseq(c, s)
    ensures IsSubseq(c[..|c| - 1], s)
    decreases |s|
  {
    var c', s' := c[..|c| - 1], s[..|s| - 1];
    if c[|c| - 1] == s[|s| - 1] && IsSubseq(c', s') {
      if c' != [] {
        assert s[..|s| - 1] == s';
      }
    } else {
      SubseqDropLast(c, s');
      if c' != [] {
        assert s[..|s| - 1] == s';
      }
    }
  }

  /** Optimality: no common subsequence is longer than LcsLength. */
  lemma {:induction false} CommonSubseqBound<T>(c: seq<T>, a: seq<T>, b: seq<T>)
    requires IsCommonSubseq(c, a, b)
    ensures |c| <= LcsLength(a, b)
    decreases |a| + |b|
  {
    if c == [] {
    } else if a == [] {
      SubseqOfEmpty(c, a);
    } else if b == [] {
      SubseqOfEmpty(c, b);
    } else {
      var a', b', c' := a[..|a| - 1], b[..|b| - 1], c[..|c| - 1];
      var x, y, z := a[|a| - 1], b[|b| - 1], c[|c| - 1];
      var takeA := z == x && IsSubseq(c', a');
      var takeB := z == y && IsSubseq(c', b');
      if x == y {
        if IsSubseq(c, a') && IsSubseq(c, b') {
          CommonSubseqBound(c, a', b');
        } else {
          if !takeA {
            SubseqDropLast(c, a');
          }
          if !takeB {
            SubseqDropLast(c, b');
          }
          CommonSubseqBound(c', a', b');
        }
      } else if !takeA {
        assert IsSubseq(c, a');
        CommonSubseqBound(c, a', b);
      } else {
        assert IsSubseq(c, b');
        CommonSubseqBound(c, a, b');
      }
    }
  }

  /** Achievability: some common subsequence has length LcsLength. */
  lemma {:induction false} LcsLengthAchieved<T>(a: seq<T>, b: seq<T>)
    ensures exists c :: IsCommonSubseq(c, a, b) && |c| == LcsLength(a, b)
    decreases |a| + |b|
  {
    if |a| == 0 || |b| == 0 {
      assert IsCommonSubseq([], a, b);
    } else {
      var a', b' := a[..|a| - 1], b[..|b| - 1];
      var x, y := a[|a| - 1], b[|b| - 1];
      assert a == a' + [x] && b == b' + [y];
      if x == y {
        LcsLengthAchieved(a', b');
        var c :| IsCommonSubseq(c, a', b') && |c| == LcsLength(a', b');
        SubseqAppend(c, a', x);
        SubseqAppend(c, b', y);
        assert IsCommonSubseq(c + [x], a, b);
      } else if LcsLength(a', b) >= LcsLength(a, b') {
        LcsLengthAchieved(a', b);
        var c :| IsCommonSubseq(c, a', b) && |c| == LcsLength(a', b);
        SubseqExtend(c, a', x);
        assert IsCommonSubseq(c, a, b);
      } else {
        LcsLengthAchieved(a, b');
        var c :| IsCommonSubseq(c, a, b') && |c| == LcsLength(a, b');
        SubseqExtend(c, b', y);
        assert IsCommonSubseq(c, a, b);
      }
    }
  }

  /** LcsLength is the length of a longest common subsequence. */
  lemma LcsLengthIsMaximum<T(!new)>(a: seq<T>, b: seq<T>)
    ensures exists c :: IsLongestCommonSubseq(c, a, b) && |c| == LcsLength(a, b)
  {
    LcsLengthAchieved(a, b);
    var c :| IsCommonSubseq(c, a, b) && |c| == LcsLength(a, b);
    forall d | IsCommonSubseq(d, a, b)
      ensures |d| <= |c|
    {
      CommonSubseqBound(d, a, b);
    }
    assert IsLongestCommonSubseq(c, a, b);
  }

  /** Swapping the two inputs does not change the LCS length. */
  lemma {:induction false} LcsLengthSymmetric<T>(a: seq<T>, b: seq<T>)
    ensures LcsLength(a, b) == LcsLength(b, a)
  {
    LcsLengthAchieved(a, b);
    var c :| IsCommonSubseq(c, a, b) && |c| == LcsLength(a, b);
    CommonSubseqBound(c, b, a);
    LcsLengthAchieved(b, a);
    var d :| IsCommonSubseq(d, b, a) && |d| == LcsLength(b, a);
    CommonSubseqBound(d, a, b);
  }

  /** Lengthening either input never shortens the LCS, and by at most one. */
  lemma LcsLengthMonotone<T>(a: seq<T>, b: seq<T>, x: T)
    ensures LcsLength(a, b) <= LcsLength(a + [x], b) <= LcsLength(a, b) + 1
    ensures LcsLength(a, b) <= LcsLength(a, b + [x]) <= LcsLength(a, b) + 1
  {
    LcsLengthAchieved(a, b);
    var c :| IsCommonSubseq(c, a, b) && |c| == LcsLength(a, b);
    SubseqExtend(c, a, x);
    CommonSubseqBound(c, a + [x], b);
    SubseqExtend(c, b, x);
    CommonSubseqBound(c, a, b + [x]);

    LcsLengthAchieved(a + [x], b);
    var d :| IsCommonSubseq(d, a + [x], b) && |d| == LcsLength(a + [x], b);
    if d != [] {
      DropLastCommon(d, a, x, b);
      CommonSubseqBound(d[..|d| - 1], a, b);
    }
    LcsLengthAchieved(a, b + [x]);
    var e :| IsCommonSubseq(e, a, b + [x]) && |e| == LcsLength(a, b + [x]);
    if e != [] {
      DropLastCommon(e, b, x, a);
      CommonSubseqBound(e[..|e| - 1], a, b);
    }
  }

  /** A common subsequence of s + [x] and t loses at most its last symbol when
      x is removed again. */
  lemma DropLastCommon<T>(d: seq<T>, s: seq<T>, x: T, t: seq<T>)
    requires d != [] && IsSubseq(d, s + [x]) && IsSubseq(d, t)
    ensures IsSubseq(d[..|d| - 1], s) && IsSubseq(d[..|d| - 1], t)
  {
    assert (s + [x])[..|s|] == s;
    SubseqDropLast(d, t);
    if !IsSubseq(d[..|d| - 1], s) {
      assert IsSubseq(d, s);
      SubseqDropLast(d, s);
    }
  }
}
