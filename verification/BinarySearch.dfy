/**
 * Index search of analysis/binary_search.py.
 *
 * The source slices the list and recurses on one half; the comparison method is a
 * parameter, so the same code serves the ascending ask side and the descending bid side.
 */
module BinarySearch {

  /** `before` is a strict total order up to `same`, which is what `__eq__` decides. */
  ghost predicate Ordering<T(!new)>(same: (T, T) -> bool, before: (T, T) -> bool) {
    forall a, b, c :: Obeys(same, before, a, b, c)
  }

  predicate Obeys<T>(same: (T, T) -> bool, before: (T, T) -> bool, a: T, b: T, c: T) {
    && (same(a, b) <==> !before(a, b) && !before(b, a))
    && (before(a, b) ==> !before(b, a))
    && (before(a, b) && before(b, c) ==> before(a, c))
    && (before(a, b) && same(b, c) ==> before(a, c))
    && (same(a, b) && before(b, c) ==> before(a, c))
  }

  ghost predicate Sorted<T>(list: seq<T>, before: (T, T) -> bool) {
    forall i, j | 0 <= i < j < |list| :: !before(list[j], list[i])
  }

  ghost predicate StrictlySorted<T>(list: seq<T>, before: (T, T) -> bool) {
    forall i, j | 0 <= i < j < |list| :: before(list[i], list[j])
  }

  /** Position at which `target` is looked up, overwritten, deleted or inserted. */
  function Search<T>(list: seq<T>, target: T, same: (T, T) -> bool, before: (T, T) -> bool): (index: nat)
    ensures index <= |list|
  {
    if |list| == 0 then 0
    else if |list| == 1 then
      if before(list[0], target) then 1 else 0
    else
      var mid := (|list| - 1) / 2;
      if same(list[mid], target) then mid
      else if before(list[mid], target) then mid + 1 + Search(list[mid + 1..], target, same, before)
      else Search(list[..mid], target, same, before)
  }

  /** `index` separates smaller from larger elements, and an equal element exists exactly when one
      stands there. */
  ghost predicate Separates<T>(list: seq<T>, target: T, same: (T, T) -> bool, before: (T, T) -> bool, index: nat) {
    && index <= |list|
    && (forall k | 0 <= k < index :: !before(target, list[k]))
    && (forall k | index <= k < |list| :: !before(list[k], target))
    && ((exists k | 0 <= k < |list| :: same(list[k], target)) <==> index < |list| && same(list[index], target))
  }

  lemma RightSeparates<T(!new)>(list: seq<T>, target: T, same: (T, T) -> bool, before: (T, T) -> bool, mid: nat, i: nat)
    requires Ordering(same, before) && Sorted(list, before) && mid < |list| && before(list[mid], target)
    requires Separates(list[mid + 1..], target, same, before, i)
    ensures Separates(list, target, same, before, mid + 1 + i)
  {
    var right := list[mid + 1..];
    forall k | mid < k < |list| ensures list[k] == right[k - mid - 1] {
    }
    forall k | 0 <= k <= mid ensures !before(target, list[k]) && !same(list[k], target) {
      assert Obeys(same, before, list[k], list[mid], target) && Obeys(same, before, list[k], target, target);
      assert k == mid || !before(list[mid], list[k]);
    }
  }

  lemma LeftSeparates<T(!new)>(list: seq<T>, target: T, same: (T, T) -> bool, before: (T, T) -> bool, mid: nat, i: nat)
    requires Ordering(same, before) && Sorted(list, before) && mid < |list|
    requires !same(list[mid], target) && !before(list[mid], target)
    requires Separates(list[..mid], target, same, before, i)
    ensures Separates(list, target, same, before, i)
  {
    var left := list[..mid];
    forall k | 0 <= k < mid ensures list[k] == left[k] {
    }
    assert Obeys(same, before, list[mid], target, target);
    forall k | mid <= k < |list| ensures !before(list[k], target) && !same(list[k], target) {
      assert Obeys(same, before, target, list[mid], list[k]) && Obeys(same, before, list[mid], list[k], target);
      assert Obeys(same, before, target, list[k], target) && Obeys(same, before, list[k], target, target);
      assert k == mid || !before(list[k], list[mid]);
    }
  }

  lemma MiddleSeparates<T(!new)>(list: seq<T>, target: T, same: (T, T) -> bool, before: (T, T) -> bool, mid: nat)
    requires Ordering(same, before) && Sorted(list, before) && mid < |list| && same(list[mid], target)
    ensures Separates(list, target, same, before, mid)
  {
    var x := list[mid];
    assert Obeys(same, before, x, target, x) && Obeys(same, before, target, x, x);
    forall k | 0 <= k < mid ensures !before(target, list[k]) {
      assert Obeys(same, before, x, target, list[k]);
    }
    forall k | mid <= k < |list| ensures !before(list[k], target) {
      assert Obeys(same, before, list[k], target, x);
    }
  }

  lemma ShortSeparates<T(!new)>(list: seq<T>, target: T, same: (T, T) -> bool, before: (T, T) -> bool)
    requires Ordering(same, before) && |list| <= 1
    ensures Separates(list, target, same, before, Search(list, target, same, before))
  {
    if list != [] {
      assert Obeys(same, before, list[0], target, target);
    }
  }

  lemma SlicesAreSorted<T>(list: seq<T>, before: (T, T) -> bool, mid: nat)
    requires Sorted(list, before) && mid < |list|
    ensures Sorted(list[..mid], before) && Sorted(list[mid + 1..], before)
  {
  }

  /** On any sorted list, duplicates included, the search finds such an index. */
  lemma {:induction false} SearchSeparates<T(!new)>(list: seq<T>, target: T, same: (T, T) -> bool,
      before: (T, T) -> bool)
    requires Ordering(same, before) && Sorted(list, before)
    ensures Separates(list, target, same, before, Search(list, target, same, before))
  {
    if |list| <= 1 {
      ShortSeparates(list, target, same, before);
    } else {
      var mid := (|list| - 1) / 2;
      SlicesAreSorted(list, before, mid);
      if same(list[mid], target) {
        MiddleSeparates(list, target, same, before, mid);
      } else if before(list[mid], target) {
        SearchSeparates(list[mid + 1..], target, same, before);
        RightSeparates(list, target, same, before, mid, Search(list[mid + 1..], target, same, before));
      } else {
        SearchSeparates(list[..mid], target, same, before);
        LeftSeparates(list, target, same, before, mid, Search(list[..mid], target, same, before));
      }
    }
  }

  lemma StrictlySortedIsSorted<T(!new)>(list: seq<T>, same: (T, T) -> bool, before: (T, T) -> bool)
    requires Ordering(same, before) && StrictlySorted(list, before)
    ensures Sorted(list, before)
  {
    forall i, j | 0 <= i < j < |list| ensures !before(list[j], list[i]) {
      assert Obeys(same, before, list[i], list[j], list[j]);
    }
  }

  /** On a strictly sorted list the index is the lower bound of `target`, and no other
      index is: everything in front is smaller, nothing from it on is. */
  lemma {:induction false} SearchIsTheLowerBound<T(!new)>(list: seq<T>, target: T, same: (T, T) -> bool,
      before: (T, T) -> bool, i: nat)
    requires Ordering(same, before) && StrictlySorted(list, before) && i <= |list|
    ensures i == Search(list, target, same, before) <==>
      && (forall k | 0 <= k < i :: before(list[k], target))
      && (forall k | i <= k < |list| :: !before(list[k], target))
  {
    StrictlySortedIsSorted(list, same, before);
    SearchSeparates(list, target, same, before);
    var index := Search(list, target, same, before);
    forall k | 0 <= k < index ensures before(list[k], target) {
      assert Obeys(same, before, list[k], target, target);
      if index < |list| {
        assert Obeys(same, before, list[k], list[index], target);
      }
    }
    if i < index {
      assert before(list[i], target);
    } else if index < i {
      assert !before(list[index], target);
    }
  }
}
