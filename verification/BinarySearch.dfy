/** base2-smartcontractbase/task1/BinarySearch.sol: checked 256-bit arithmetic and a sentinel. */
module BinarySearch {
  import opened Prelude

  datatype Outcome = Panic | Returned(index: U256)

  datatype Answer = Reverted | Answered(found: bool, index: U256)

  ghost predicate Ascending(s: seq<U256>) {
    forall i, j :: 0 <= i < j < |s| ==> s[i] <= s[j]
  }

  /** The search by halves of the entries from `left` to `right`: the middle one first, the left
      of two; a step left of index 0 reverts. */
  function Bisect(s: seq<U256>, left: nat, right: int, target: U256): Outcome
    requires |s| <= U256_MAX && left <= right + 1 <= |s|
    decreases right + 1 - left
  {
    if left > right then Returned(U256_MAX)
    else
      var m := left + (right - left) / 2;
      if s[m] == target then Returned(m)
      else if s[m] < target then Bisect(s, m + 1, right, target)
      else if m == 0 then Panic
      else Bisect(s, left, m - 1, target)
  }

  /** Among equal entries the middle one is found, the left of two. */
  lemma MiddleFound(s: seq<U256>, left: nat, right: int, target: U256)
    requires |s| <= U256_MAX && left <= right < |s|
    requires forall k :: left <= k <= right ==> s[k] == target
    ensures Bisect(s, left, right, target).Returned?
    ensures var i := Bisect(s, left, right, target).index; left <= i && i - left <= right - i <= i - left + 1
  {
  }

  /** What is found is the target; only an array that begins above the target reverts. */
  lemma {:induction false} BisectSound(s: seq<U256>, left: nat, right: int, target: U256)
    requires |s| <= U256_MAX && left <= right + 1 <= |s|
    ensures match Bisect(s, left, right, target)
            case Panic => s != [] && s[0] > target
            case Returned(i) => i == U256_MAX || (i < |s| && s[i] == target)
    decreases right + 1 - left
  {
    if left <= right {
      var m := left + (right - left) / 2;
      if s[m] < target {
        BisectSound(s, m + 1, right, target);
      } else if s[m] > target && m > 0 {
        BisectSound(s, left, m - 1, target);
      }
    }
  }

  /** The target can only be in the window. */
  ghost predicate Narrowed(s: seq<U256>, left: nat, right: int, target: U256) {
    && (forall k :: 0 <= k < |s| && k < left ==> s[k] < target)
    && (forall k :: 0 <= k < |s| && k > right ==> s[k] > target)
  }

  lemma NarrowedHalf(s: seq<U256>, left: nat, right: int, target: U256, m: nat)
    requires Ascending(s) && m < |s| && Narrowed(s, left, right, target)
    ensures s[m] < target ==> Narrowed(s, m + 1, right, target)
    ensures s[m] > target ==> Narrowed(s, left, m - 1, target)
  {
  }

  /** In an ascending array the target is found if it occurs, and an array that begins above the
      target reverts. */
  lemma {:induction false} BisectComplete(s: seq<U256>, left: nat, right: int, target: U256)
    requires |s| <= U256_MAX && left <= right + 1 <= |s|
    requires Ascending(s) && Narrowed(s, left, right, target)
    ensures Bisect(s, left, right, target) == Returned(U256_MAX) ==> target !in s
    ensures left == 0 <= right && s[0] > target ==> Bisect(s, left, right, target) == Panic
    decreases right + 1 - left
  {
    if left <= right {
      var m := left + (right - left) / 2;
      NarrowedHalf(s, left, right, target, m);
      if s[m] < target {
        BisectComplete(s, m + 1, right, target);
      } else if s[m] > target && m > 0 {
        BisectComplete(s, left, m - 1, target);
      }
    }
  }

  /** What an outcome says about the array. */
  ghost predicate Answers(s: seq<U256>, target: U256, r: Outcome) {
    && (r.Returned? && r.index != U256_MAX ==> r.index < |s| && s[r.index] == target)
    && (r == Returned(U256_MAX) && Ascending(s) ==> target !in s)
    && (s == [] || (Ascending(s) && s[0] > target) ==> r == Panic)
    && (r == Panic ==> s == [] || s[0] > target)
  }

  /** The whole search; an empty array reverts. */
  function Sought(s: seq<U256>, target: U256): Outcome
    requires |s| <= U256_MAX
  {
    if s == [] then Panic else Bisect(s, 0, |s| - 1, target)
  }

  lemma SoughtAnswers(s: seq<U256>, target: U256)
    requires |s| <= U256_MAX
    ensures Answers(s, target, Sought(s, target))
  {
    if s != [] {
      BisectSound(s, 0, |s| - 1, target);
      if Ascending(s) {
        BisectComplete(s, 0, |s| - 1, target);
      }
    }
  }

  /** The window from `left` to `right` decides the whole search, whose outcome is `r`. */
  ghost predicate Seeks(s: seq<U256>, left: nat, right: int, target: U256, r: Outcome) {
    |s| <= U256_MAX && left <= right + 1 <= |s| && Bisect(s, left, right, target) == r
  }

  lemma SeeksFirst(s: seq<U256>, target: U256)
    requires 0 < |s| <= U256_MAX
    ensures Seeks(s, 0, |s| - 1, target, Sought(s, target))
  {
  }

  lemma SeeksOn(s: seq<U256>, left: nat, right: int, target: U256, r: Outcome)
    requires Seeks(s, left, right, target, r) && left <= right
    ensures var m := left + (right - left) / 2;
            && left <= m <= right
            && if s[m] == target then r == Returned(m)
               else if s[m] < target then Seeks(s, m + 1, right, target, r)
               else if m == 0 then r == Panic
               else Seeks(s, left, m - 1, target, r)
  {
  }

  lemma SeeksNothing(s: seq<U256>, left: nat, right: int, target: U256, r: Outcome)
    requires Seeks(s, left, right, target, r) && left > right
    ensures r == Returned(U256_MAX)
  {
  }

  /** The private search. `length - 1` of an empty array and `middle - 1` at index 0 revert;
      the sentinel is the largest word. A length is itself a 256-bit word. */
  method Search(sortedArr: array<U256>, target: U256) returns (r: Outcome)
    requires sortedArr.Length <= U256_MAX
    ensures r == Sought(sortedArr[..], target)
    ensures Answers(sortedArr[..], target, r)
  {
    ghost var s := sortedArr[..];
    ghost var expected := Sought(s, target);
    SoughtAnswers(s, target);
    if sortedArr.Length == 0 { return Panic; }
    SeeksFirst(s, target);
    var left: U256, right: U256 := 0, sortedArr.Length - 1;
    while left <= right
      invariant Seeks(s, left, right, target, expected)
      decreases right + 1 - left
    {
      var middle: U256 := left + (right - left) / 2;
      SeeksOn(s, left, right, target, expected);
      var middleValue := sortedArr[middle];
      if middleValue == target {
        return Returned(middle);
      } else if middleValue < target {
        left := middle + 1;
      } else {
        if middle == 0 { return Panic; }
        right := middle - 1;
      }
    }
    SeeksNothing(s, left, right, target, expected);
    return Returned(U256_MAX);
  }

  /** On any array a positive answer is right and a revert has one of two causes; on an
      ascending one the answer is exact and the causes are exactly when it reverts. */
  method SearchResult(sortedArr: array<U256>, target: U256) returns (r: Answer)
    requires sortedArr.Length <= U256_MAX
    ensures r == match Sought(sortedArr[..], target) {
                   case Panic => Reverted
                   case Returned(i) => if i == U256_MAX then Answered(false, 0) else Answered(true, i)
                 }
    ensures r.Answered? && r.found ==> r.index < sortedArr.Length && sortedArr[r.index] == target
    ensures r.Answered? && !r.found ==> r.index == 0
    ensures r == Reverted ==> sortedArr.Length == 0 || target < sortedArr[0]
    ensures Ascending(sortedArr[..]) ==>
              && (r == Reverted <==> sortedArr.Length == 0 || target < sortedArr[0])
              && (r.Answered? ==> (r.found <==> target in sortedArr[..]))
  {
    var result := Search(sortedArr, target);
    if result == Panic { return Reverted; }
    if result.index == U256_MAX {
      return Answered(false, 0);
    }
    return Answered(true, result.index);
  }
}
