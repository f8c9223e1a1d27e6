/** base2-smartcontractbase/task1/MergeSortedArray.sol: three loops into a preallocated array. */
module MergeSortedArray {
  import opened Prelude

  /** The merge by recursion: on ties the second array goes first. */
  function Merge(a: seq<U256>, b: seq<U256>): seq<U256>
    decreases |a| + |b|
  {
    if a == [] then b
    else if b == [] then a
    else if a[0] < b[0] then [a[0]] + Merge(a[1..], b)
    else [b[0]] + Merge(a, b[1..])
  }

  ghost predicate Ascending(s: seq<U256>) {
    forall i, j :: 0 <= i < j < |s| ==> s[i] <= s[j]
  }

  /** Every entry of both inputs, and no other, is merged. */
  lemma {:induction false} MergePermutes(a: seq<U256>, b: seq<U256>)
    ensures multiset(Merge(a, b)) == multiset(a) + multiset(b)
    decreases |a| + |b|
  {
    if a != [] && b != [] {
      if a[0] < b[0] {
        MergePermutes(a[1..], b);
        assert a == [a[0]] + a[1..];
      } else {
        MergePermutes(a, b[1..]);
        assert b == [b[0]] + b[1..];
      }
    }
  }

  lemma MembersFromInputs(a: seq<U256>, b: seq<U256>, x: U256)
    requires x in Merge(a, b)
    ensures x in a || x in b
  {
    MergePermutes(a, b);
    assert x in multiset(Merge(a, b));
  }

  /** Ascending inputs merge into an ascending array. */
  lemma {:induction false} MergeAscending(a: seq<U256>, b: seq<U256>)
    requires Ascending(a) && Ascending(b)
    ensures Ascending(Merge(a, b))
    decreases |a| + |b|
  {
    if a != [] && b != [] {
      if a[0] < b[0] {
        MergeAscending(a[1..], b);
        Prepend(a[0], a[1..], b);
      } else {
        MergeAscending(a, b[1..]);
        Prepend(b[0], a, b[1..]);
      }
    }
  }

  /** An entry that is no larger than any to be merged goes in front. */
  lemma Prepend(first: U256, a: seq<U256>, b: seq<U256>)
    requires Ascending(Merge(a, b))
    requires forall x :: x in a || x in b ==> first <= x
    ensures Ascending([first] + Merge(a, b))
  {
    forall k | 0 <= k < |Merge(a, b)|
      ensures first <= Merge(a, b)[k]
    {
      MembersFromInputs(a, b, Merge(a, b)[k]);
    }
  }

  lemma FirstIsLeast(s: seq<U256>, x: U256)
    requires Ascending(s) && x in s
    ensures s[0] <= x
  {
  }

  lemma TailMultiset(s: seq<U256>)
    requires s != []
    ensures multiset(s[1..]) == multiset(s) - multiset{s[0]}
  {
    assert s == [s[0]] + s[1..];
  }

  lemma SameLeast(s: seq<U256>, t: seq<U256>)
    requires Ascending(s) && Ascending(t) && multiset(s) == multiset(t)
    requires s != [] && t != []
    ensures s[0] == t[0]
  {
    assert s[0] in multiset(t) && t[0] in multiset(s);
    FirstIsLeast(t, s[0]);
    FirstIsLeast(s, t[0]);
  }

  /** Only one ascending array has given contents. */
  lemma {:induction false} AscendingUnique(s: seq<U256>, t: seq<U256>)
    requires Ascending(s) && Ascending(t) && multiset(s) == multiset(t)
    ensures s == t
  {
    if s == [] || t == [] {
      assert |multiset(s)| == |s| && |multiset(t)| == |t|;
    } else {
      SameLeast(s, t);
      TailMultiset(s);
      TailMultiset(t);
      AscendingUnique(s[1..], t[1..]);
      assert s == [s[0]] + s[1..] && t == [t[0]] + t[1..];
    }
  }

  /** On ascending inputs the tie rule is invisible: both orders give the one ascending
      arrangement of all entries. */
  lemma MergeCommutes(a: seq<U256>, b: seq<U256>)
    requires Ascending(a) && Ascending(b)
    ensures Merge(a, b) == Merge(b, a)
  {
    MergePermutes(a, b);
    MergePermutes(b, a);
    MergeAscending(a, b);
    MergeAscending(b, a);
    AscendingUnique(Merge(a, b), Merge(b, a));
  }

  // ---------- where each entry goes, whatever the inputs ----------

  /** The largest entry. */
  function Highest(s: seq<U256>): U256
    requires s != []
  {
    if |s| == 1 || Highest(s[1..]) < s[0] then s[0] else Highest(s[1..])
  }

  /** How many entries come before the first one above `m`. */
  function UpTo(s: seq<U256>, m: U256): nat {
    if s == [] || s[0] > m then 0 else 1 + UpTo(s[1..], m)
  }

  /** How many entries come before the first one of at least `m`. */
  function Below(s: seq<U256>, m: U256): nat {
    if s == [] || s[0] >= m then 0 else 1 + Below(s[1..], m)
  }

  /** Behind its predecessors, entry `i` of the first array follows the entries of the second up
      to the first that exceeds everything in `a[..i + 1]`. */
  lemma {:induction false} FirstPlaces(a: seq<U256>, b: seq<U256>, i: nat)
    requires i < |a|
    ensures var p := i + UpTo(b, Highest(a[..i + 1])); p < |Merge(a, b)| && Merge(a, b)[p] == a[i]
    decreases |a| + |b|
  {
    if b != [] {
      if a[0] >= b[0] {
        HighestStarts(a, i);
        FirstPlaces(a, b[1..], i);
      } else if i > 0 {
        HighestNext(a, i);
        FirstPlaces(a[1..], b, i - 1);
      } else {
        assert a[..1] == [a[0]];
      }
    }
  }

  /** Entry `j` of the second array follows the entries of the first up to the first that
      reaches the largest of `b[..j + 1]`, so on a tie the second array goes first. */
  lemma {:induction false} SecondPlaces(a: seq<U256>, b: seq<U256>, j: nat)
    requires j < |b|
    ensures var p := j + Below(a, Highest(b[..j + 1])); p < |Merge(a, b)| && Merge(a, b)[p] == b[j]
    decreases |a| + |b|
  {
    if a != [] {
      if a[0] < b[0] {
        HighestStarts(b, j);
        SecondPlaces(a[1..], b, j);
      } else if j > 0 {
        HighestNext(b, j);
        SecondPlaces(a, b[1..], j - 1);
      } else {
        assert b[..1] == [b[0]];
      }
    }
  }

  lemma HighestStarts(s: seq<U256>, i: nat)
    requires i < |s|
    ensures Highest(s[..i + 1]) >= s[0]
  {
  }

  lemma HighestNext(s: seq<U256>, i: nat)
    requires 0 < i < |s|
    ensures var m := Highest(s[1..][..i]); Highest(s[..i + 1]) == if m < s[0] then s[0] else m
  {
    assert s[..i + 1][1..] == s[1..][..i];
  }

  /** What is written so far, then the merge of what remains, is the merge. */
  ghost predicate Merging(written: seq<U256>, a: seq<U256>, b: seq<U256>, i: nat, j: nat) {
    i <= |a| && j <= |b| && |written| == i + j && written + Merge(a[i..], b[j..]) == Merge(a, b)
  }

  lemma MergingStarts(a: seq<U256>, b: seq<U256>)
    ensures Merging([], a, b, 0, 0)
  {
    assert a[0..] == a && b[0..] == b;
  }

  /** Writing the smaller head, the second array's on a tie. */
  lemma MergingStep(written: seq<U256>, a: seq<U256>, b: seq<U256>, i: nat, j: nat)
    requires Merging(written, a, b, i, j) && i < |a| && j < |b|
    ensures if a[i] < b[j] then Merging(written + [a[i]], a, b, i + 1, j)
            else Merging(written + [b[j]], a, b, i, j + 1)
  {
    var s, t := a[i..], b[j..];
    assert s[1..] == a[i + 1..] && t[1..] == b[j + 1..];
    if a[i] < b[j] {
      assert Merge(s, t) == [a[i]] + Merge(s[1..], t);
      Regroup(written, [a[i]], Merge(s[1..], t));
    } else {
      assert Merge(s, t) == [b[j]] + Merge(s, t[1..]);
      Regroup(written, [b[j]], Merge(s, t[1..]));
    }
  }

  lemma Regroup(x: seq<U256>, y: seq<U256>, z: seq<U256>)
    ensures x + (y + z) == x + y + z
  {
  }

  /** When one array is used up, the rest of the other completes the merge. */
  lemma MergingEnds(written: seq<U256>, a: seq<U256>, b: seq<U256>, i: nat, j: nat)
    requires Merging(written, a, b, i, j) && (i == |a| || j == |b|)
    ensures written + a[i..] + b[j..] == Merge(a, b)
  {
  }

  /** The second and the third loop: what is left of one array goes behind what is written. */
  method CopyRest(result: array<U256>, start: nat, arr: array<U256>, first: nat) returns (k: nat)
    requires first <= arr.Length && start + (arr.Length - first) <= result.Length && result != arr
    modifies result
    ensures k == start + arr.Length - first
    ensures result[..k] == old(result[..start]) + arr[first..]
  {
    var i := first;
    k := start;
    while i < arr.Length
      invariant first <= i <= arr.Length && k == start + i - first
      invariant result[..k] == old(result[..start]) + arr[first..i]
    {
      result[k] := arr[i];
      i := i + 1;
      k := k + 1;
    }
  }

  /** The combined length is a checked addition; its overflow reverts. */
  method MergeArrays(arr1: array<U256>, arr2: array<U256>) returns (r: Option<seq<U256>>)
    ensures r == None <==> arr1.Length + arr2.Length > U256_MAX
    ensures r.Some? ==> r.value == Merge(arr1[..], arr2[..])
  {
    var length1, length2 := arr1.Length, arr2.Length;
    if length1 + length2 > U256_MAX { return None; }
    ghost var a, b := arr1[..], arr2[..];
    MergingStarts(a, b);
    var result := new U256[length1 + length2](_ => 0);
    var i, j, k := 0, 0, 0;
    while i < length1 && j < length2
      invariant 0 <= i <= length1 && 0 <= j <= length2 && k == i + j
      invariant Merging(result[..k], a, b, i, j)
      decreases length1 - i + length2 - j
    {
      ghost var written := result[..k];
      MergingStep(written, a, b, i, j);
      if arr1[i] < arr2[j] {
        result[k] := arr1[i];
        assert result[..k + 1] == written + [a[i]];
        i := i + 1;
      } else {
        result[k] := arr2[j];
        assert result[..k + 1] == written + [b[j]];
        j := j + 1;
      }
      k := k + 1;
    }
    MergingEnds(result[..k], a, b, i, j);
    k := CopyRest(result, k, arr1, i);
    k := CopyRest(result, k, arr2, j);
    assert result[..k] == result[..];
    return Some(result[..]);
  }
}
