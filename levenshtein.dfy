/** The byte-wise edit distance of src/run.rs (`levenshtein_distance`): a recursive
    definition of the table's cells, the table fill itself, and the algebraic facts the
    task lookup relies on. */
module Levenshtein {
  import opened Prelude

  function Min(x: nat, y: nat): nat
  {
    if x <= y then x else y
  }

  function Max(x: nat, y: nat): nat
  {
    if x <= y then y else x
  }

  /** Cell (|a|, |b|) of the table built from prefixes a of s1 and b of s2: row 0 holds
      the column number, column 0 the row number, equal last bytes copy the diagonal
      and otherwise the cell is one more than the least of its three neighbours. */
  function Distance(a: Str, b: Str): nat
    decreases |a| + |b|
  {
    if |a| == 0 then |b|
    else if |b| == 0 then |a|
    else if a[|a| - 1] == b[|b| - 1] then Distance(a[..|a| - 1], b[..|b| - 1])
    else 1 + Min(Distance(a[..|a| - 1], b),
                 Min(Distance(a, b[..|b| - 1]), Distance(a[..|a| - 1], b[..|b| - 1])))
  }

  /** The dynamic-programming fill of a (|s1|+1) x (|s2|+1) table, row by row. */
  method LevenshteinDistance(s1: Str, s2: Str) returns (d: nat)
    ensures d == Distance(s1, s2)
    ensures s2 == [] ==> d == |s1|
    ensures s1 == [] ==> d == |s2|
  {
    var len1, len2 := |s1|, |s2|;
    var dp := new nat[len1 + 1, len2 + 1];
    for i := 0 to len1 + 1
      invariant forall r, c {:trigger dp[r, c]} :: 0 <= r < i && 0 <= c <= len2 ==> dp[r, c] == Distance(s1[..r], s2[..c])
    {
      for j := 0 to len2 + 1
        invariant forall r, c {:trigger dp[r, c]} :: 0 <= r < i && 0 <= c <= len2 ==> dp[r, c] == Distance(s1[..r], s2[..c])
        invariant forall c {:trigger dp[i, c]} :: 0 <= c < j ==> dp[i, c] == Distance(s1[..i], s2[..c])
      {
        if i == 0 {
          dp[i, j] := j;
        } else if j == 0 {
          dp[i, j] := i;
        } else if s1[i - 1] == s2[j - 1] {
          dp[i, j] := dp[i - 1, j - 1];
        } else {
          dp[i, j] := 1 + Min(dp[i - 1, j], Min(dp[i, j - 1], dp[i - 1, j - 1]));
        }
        PrefixStep(s1, s2, i, j);
      }
    }
    d := dp[len1, len2];
    assert s1[..len1] == s1 && s2[..len2] == s2;
  }

  /** How the recursion looks on the prefixes s1[..i] and s2[..j]. */
  lemma PrefixStep(s1: Str, s2: Str, i: nat, j: nat)
    requires i <= |s1| && j <= |s2|
    ensures i == 0 ==> Distance(s1[..i], s2[..j]) == j
    ensures i > 0 && j == 0 ==> Distance(s1[..i], s2[..j]) == i
    ensures i > 0 && j > 0 && s1[i - 1] == s2[j - 1] ==>
      Distance(s1[..i], s2[..j]) == Distance(s1[..i - 1], s2[..j - 1])
    ensures i > 0 && j > 0 && s1[i - 1] != s2[j - 1] ==>
      Distance(s1[..i], s2[..j]) ==
        1 + Min(Distance(s1[..i - 1], s2[..j]),
                Min(Distance(s1[..i], s2[..j - 1]), Distance(s1[..i - 1], s2[..j - 1])))
  {
    if i > 0 && j > 0 {
      assert s1[..i][..i - 1] == s1[..i - 1];
      assert s2[..j][..j - 1] == s2[..j - 1];
    }
  }

  /** A name is at distance 0 from itself. */
  lemma {:induction false} DistanceToSelf(a: Str)
    ensures Distance(a, a) == 0
    decreases |a|
  {
    if |a| > 0 {
      DistanceToSelf(a[..|a| - 1]);
    }
  }

  /** Distance 0 means the two byte strings are equal, and only then. */
  lemma {:induction false} DistanceZeroIff(a: Str, b: Str)
    ensures Distance(a, b) == 0 <==> a == b
    decreases |a| + |b|
  {
    if a == b {
      DistanceToSelf(a);
    } else if |a| > 0 && |b| > 0 && a[|a| - 1] == b[|b| - 1] {
      DistanceZeroIff(a[..|a| - 1], b[..|b| - 1]);
    }
  }

  /** The distance never exceeds the length of the longer name. */
  lemma {:induction false} DistanceAtMostLonger(a: Str, b: Str)
    ensures Distance(a, b) <= Max(|a|, |b|)
    decreases |a| + |b|
  {
    if |a| > 0 && |b| > 0 {
      DistanceAtMostLonger(a[..|a| - 1], b[..|b| - 1]);
    }
  }

  /** The distance is at least the difference of the lengths. */
  lemma {:induction false} DistanceAtLeastLengthGap(a: Str, b: Str)
    ensures Distance(a, b) >= |a| - |b| && Distance(a, b) >= |b| - |a|
    decreases |a| + |b|
  {
    if |a| > 0 && |b| > 0 {
      DistanceAtLeastLengthGap(a[..|a| - 1], b[..|b| - 1]);
      if a[|a| - 1] != b[|b| - 1] {
        DistanceAtLeastLengthGap(a[..|a| - 1], b);
        DistanceAtLeastLengthGap(a, b[..|b| - 1]);
      }
    }
  }

  /** The order of the two names does not matter. */
  lemma {:induction false} DistanceSymmetric(a: Str, b: Str)
    ensures Distance(a, b) == Distance(b, a)
    decreases |a| + |b|
  {
    if |a| > 0 && |b| > 0 {
      DistanceSymmetric(a[..|a| - 1], b[..|b| - 1]);
      if a[|a| - 1] != b[|b| - 1] {
        DistanceSymmetric(a[..|a| - 1], b);
        DistanceSymmetric(a, b[..|b| - 1]);
      }
    }
  }

  /** The textbook recurrence: the least of a deletion, an insertion and a substitution
      (free when the bytes agree), without the table's shortcut for equal bytes. */
  function StandardDistance(a: Str, b: Str): nat
    decreases |a| + |b|
  {
    if |a| == 0 then |b|
    else if |b| == 0 then |a|
    else
      Min(StandardDistance(a[..|a| - 1], b) + 1,
          Min(StandardDistance(a, b[..|b| - 1]) + 1,
              StandardDistance(a[..|a| - 1], b[..|b| - 1]) + (if a[|a| - 1] == b[|b| - 1] then 0 else 1)))
  }

  /** Appending a byte to the first name raises the distance by at most one. */
  lemma {:induction false} AppendToFirstAtMostOne(a: Str, b: Str)
    requires |a| > 0
    ensures Distance(a, b) <= Distance(a[..|a| - 1], b) + 1
    decreases |a| + |b|, 1
  {
    var a' := a[..|a| - 1];
    if |b| == 0 {
    } else if |a'| == 0 {
      DistanceAtMostLonger(a, b);
    } else if a[|a| - 1] == b[|b| - 1] {
      // Distance(a', b[..|b|-1]) <= Distance(a', b) + 1, read through symmetry.
      DropFromFirstAtMostOne(b, a');
      DistanceSymmetric(b, a');
      DistanceSymmetric(b[..|b| - 1], a');
    }
  }

  /** Dropping the last byte of the first name lowers the distance by at most one. */
  lemma {:induction false} DropFromFirstAtMostOne(a: Str, b: Str)
    requires |a| > 0
    ensures Distance(a[..|a| - 1], b) <= Distance(a, b) + 1
    decreases |a| + |b|, 0
  {
    var a' := a[..|a| - 1];
    if |b| == 0 {
    } else if |a'| == 0 {
      DistanceAtLeastLengthGap(a, b);
    } else {
      var b' := b[..|b| - 1];
      // Distance(a', b) <= Distance(a', b') + 1, read through symmetry.
      AppendToFirstAtMostOne(b, a');
      DistanceSymmetric(b, a');
      DistanceSymmetric(b', a');
      if a[|a| - 1] != b[|b| - 1] {
        DropFromFirstAtMostOne(a, b');
      }
    }
  }

  /** The table's shortcut for equal bytes is sound: the recurrence the source fills in
      agrees everywhere with the textbook one. */
  lemma {:induction false} DistanceIsStandard(a: Str, b: Str)
    ensures Distance(a, b) == StandardDistance(a, b)
    decreases |a| + |b|
  {
    if |a| > 0 && |b| > 0 {
      var a', b' := a[..|a| - 1], b[..|b| - 1];
      DistanceIsStandard(a', b);
      DistanceIsStandard(a, b');
      DistanceIsStandard(a', b');
      if a[|a| - 1] == b[|b| - 1] {
        DropFromFirstAtMostOne(a, b');
        DropFromFirstAtMostOne(b, a');
        DistanceSymmetric(b, a');
        DistanceSymmetric(b', a');
      }
    }
  }
}
