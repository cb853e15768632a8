/**
 * The sorted-slice searches of src/algo/search.rs. Each search recurses over a closed
 * index interval [low, high] of a haystack. The source's `resolver` is a pure projection
 * of each element onto its key, so the haystack is modelled by the keys it resolves to,
 * and keys (any `Ord` type) are modelled as integers.
 */
module Search {
  import opened Wrappers

  /** The haystack is sorted in the natural order of its keys. */
  ghost predicate SortedBy(haystack: seq<int>) {
    forall i, j :: 0 <= i < j < |haystack| ==> haystack[i] <= haystack[j]
  }

  /** What a call of the source's `binary_search` does: return an index, return `None`, or panic. */
  datatype Probe = Hit(index: nat) | Miss | Underflow

  /**
   * `binary_search_internal` as written: with `usize` indices, `index - 1` at `index == 0`
   * underflows (a panic in a debug build; in a release build `high` wraps to `usize::MAX`
   * and the next `haystack[index]` is out of bounds).
   */
  function BinarySearchInternalAsWritten(haystack: seq<int>, low: nat, high: nat, needle: int): (r: Probe)
    requires high < |haystack| && low <= high + 1
    decreases high + 1 - low
    ensures r.Hit? ==> low <= r.index <= high && haystack[r.index] == needle
    ensures r.Underflow? ==> low == 0 && needle < haystack[0]
  {
    if high >= low then
      var index := low + (high - low) / 2;
      var middle := haystack[index];
      if middle == needle then Hit(index)
      else if middle < needle then BinarySearchInternalAsWritten(haystack, index + 1, high, needle)
      else if index == 0 then Underflow
      else BinarySearchInternalAsWritten(haystack, low, index - 1, needle)
    else
      Miss
  }

  /** `binary_search` as written. */
  function BinarySearchAsWritten(haystack: seq<int>, needle: int): (r: Probe)
    ensures |haystack| == 0 ==> r == Miss
    ensures r.Hit? ==> r.index < |haystack| && haystack[r.index] == needle
    ensures r.Underflow? ==> 0 < |haystack| && needle < haystack[0]
  {
    if |haystack| == 0 then Miss
    else BinarySearchInternalAsWritten(haystack, 0, |haystack| - 1, needle)
  }

  /** On a sorted haystack every needle below the first key makes the as-written search underflow. */
  lemma {:induction false} UnderflowBelowFirstKey(haystack: seq<int>, high: nat, needle: int)
    requires SortedBy(haystack)
    requires high < |haystack| && needle < haystack[0]
    ensures BinarySearchInternalAsWritten(haystack, 0, high, needle) == Underflow
    decreases high
  {
    var index := high / 2;
    assert haystack[0] <= haystack[index];
    if index != 0 {
      UnderflowBelowFirstKey(haystack, index - 1, needle);
    }
  }

  /** The panic, on the haystack of the source's own tests. */
  lemma BinarySearchUnderflowExample()
    ensures BinarySearchAsWritten([1, 3, 5, 7, 9], 0) == Underflow
  {
    UnderflowBelowFirstKey([1, 3, 5, 7, 9], 4, 0);
  }

  /**
   * `binary_search_internal` as evidently intended: `high` may step below `low`, which
   * ends the search with `None`.
   */
  function BinarySearchInternal(haystack: seq<int>, low: nat, high: int, needle: int): (r: Option<nat>)
    requires high < |haystack| && low <= high + 1
    decreases high + 1 - low
    ensures r.Some? ==> low <= r.value <= high && haystack[r.value] == needle
  {
    if high >= low then
      var index := low + (high - low) / 2;
      var middle := haystack[index];
      if middle == needle then Some(index)
      else if middle < needle then BinarySearchInternal(haystack, index + 1, high, needle)
      else BinarySearchInternal(haystack, low, index - 1, needle)
    else
      None
  }

  /** `binary_search`: an index it returns holds the needle. */
  function BinarySearch(haystack: seq<int>, needle: int): (r: Option<nat>)
    ensures |haystack| == 0 ==> r == None
    ensures r.Some? ==> r.value < |haystack| && haystack[r.value] == needle
  {
    if |haystack| == 0 then None
    else BinarySearchInternal(haystack, 0, |haystack| - 1, needle)
  }

  /**
   * On a sorted haystack the search misses only when no key in `[low, high]` is the needle
   * (the converse is the function's own postcondition).
   */
  lemma {:induction false} BinarySearchInternalExact(haystack: seq<int>, low: nat, high: int, needle: int)
    requires high < |haystack| && low <= high + 1 && SortedBy(haystack)
    ensures BinarySearchInternal(haystack, low, high, needle).None? ==>
              forall j :: low <= j <= high ==> haystack[j] != needle
    decreases high + 1 - low
  {
    if high >= low {
      var index := low + (high - low) / 2;
      var middle := haystack[index];
      if middle < needle {
        BinarySearchInternalExact(haystack, index + 1, high, needle);
        forall j | low <= j <= index
          ensures haystack[j] != needle
        {
          assert j == index || haystack[j] <= middle;
        }
      } else if middle > needle {
        BinarySearchInternalExact(haystack, low, index - 1, needle);
        forall j | index <= j <= high
          ensures haystack[j] != needle
        {
          assert j == index || middle <= haystack[j];
        }
      }
    }
  }

  /** On a sorted haystack, `binary_search` finds an index of the needle exactly when it is present. */
  lemma BinarySearchExact(haystack: seq<int>, needle: int)
    requires SortedBy(haystack)
    ensures BinarySearch(haystack, needle).Some? <==>
              exists j :: 0 <= j < |haystack| && haystack[j] == needle
  {
    if |haystack| > 0 {
      BinarySearchInternalExact(haystack, 0, |haystack| - 1, needle);
    }
  }

  /** The outcome of the intended search, as a probe of the as-written one. */
  function AsProbe(found: Option<nat>): Probe {
    match found
    case Some(i) => Hit(i)
    case None => Miss
  }

  /** Wherever the as-written search does not panic, it agrees with the intended one. */
  lemma {:induction false} AsWrittenAgreesInternal(haystack: seq<int>, low: nat, high: nat, needle: int)
    requires high < |haystack| && low <= high + 1
    requires low > 0 || haystack[0] <= needle
    ensures BinarySearchInternalAsWritten(haystack, low, high, needle)
            == AsProbe(BinarySearchInternal(haystack, low, high, needle))
    decreases high + 1 - low
  {
    if high >= low {
      var index := low + (high - low) / 2;
      var middle := haystack[index];
      if middle < needle {
        AsWrittenAgreesInternal(haystack, index + 1, high, needle);
        assert BinarySearchInternal(haystack, low, high, needle)
            == BinarySearchInternal(haystack, index + 1, high, needle);
      } else if middle > needle {
        assert index != 0;
        AsWrittenAgreesInternal(haystack, low, index - 1, needle);
        assert BinarySearchInternal(haystack, low, high, needle)
            == BinarySearchInternal(haystack, low, index - 1, needle);
      }
    }
  }

  /** Needles at or above the first key never reach the underflow. */
  lemma AsWrittenAgrees(haystack: seq<int>, needle: int)
    requires |haystack| == 0 || haystack[0] <= needle
    ensures BinarySearchAsWritten(haystack, needle) == AsProbe(BinarySearch(haystack, needle))
  {
    if |haystack| > 0 {
      AsWrittenAgreesInternal(haystack, 0, |haystack| - 1, needle);
    }
  }

  /** `greatest_not_exceeding_internal`. */
  function GreatestNotExceedingInternal(haystack: seq<int>, low: nat, high: nat, needle: int): (r: Option<nat>)
    requires low <= high < |haystack|
    decreases high - low
    ensures r.Some? ==> low <= r.value <= high && haystack[r.value] <= needle
                        && (r.value == high || needle < haystack[r.value + 1])
    ensures SortedBy(haystack) ==> (r.None? <==> needle < haystack[low])
  {
    var index := low + (high - low) / 2;
    var middle := haystack[index];
    if index == low && needle < middle then
      None
    else
      var isCandidate := middle <= needle;
      if isCandidate && (index == high || needle < haystack[index + 1]) then
        Some(index)
      else if isCandidate then
        GreatestNotExceedingInternal(haystack, index + 1, high, needle)
      else
        GreatestNotExceedingInternal(haystack, low, index, needle)
  }

  /**
   * `greatest_not_exceeding`: on a sorted haystack, the last index whose key does not
   * exceed the needle, present exactly when the first key does not exceed it.
   */
  function GreatestNotExceeding(haystack: seq<int>, needle: int): (r: Option<nat>)
    ensures |haystack| == 0 ==> r == None
    ensures r.Some? ==> r.value < |haystack| && haystack[r.value] <= needle
                        && (r.value == |haystack| - 1 || needle < haystack[r.value + 1])
    ensures SortedBy(haystack) ==>
              (r.Some? <==> 0 < |haystack| && haystack[0] <= needle)
    ensures SortedBy(haystack) && r.Some? ==>
              forall j :: r.value < j < |haystack| ==> needle < haystack[j]
  {
    if |haystack| == 0 then None
    else GreatestNotExceedingInternal(haystack, 0, |haystack| - 1, needle)
  }

  /** `next_largest_internal`. */
  function NextLargestInternal(haystack: seq<int>, low: nat, high: nat, needle: int): (r: Option<nat>)
    requires low <= high < |haystack|
    decreases high - low
    ensures r.Some? ==> low <= r.value <= high && needle < haystack[r.value]
                        && (r.value == low || haystack[r.value - 1] <= needle)
    ensures SortedBy(haystack) ==> (r.Some? <==> needle < haystack[high])
  {
    var index := low + (high - low) / 2;
    var middle := haystack[index];
    if low != high then
      if middle <= needle then
        NextLargestInternal(haystack, index + 1, high, needle)
      else
        NextLargestInternal(haystack, low, index, needle)
    else if needle < middle then
      Some(index)
    else
      None
  }

  /**
   * `next_largest`: on a sorted haystack, the first index whose key exceeds the needle,
   * present exactly when some key exceeds it.
   */
  function NextLargest(haystack: seq<int>, needle: int): (r: Option<nat>)
    ensures |haystack| == 0 ==> r == None
    ensures r.Some? ==> r.value < |haystack| && needle < haystack[r.value]
                        && (r.value == 0 || haystack[r.value - 1] <= needle)
    ensures SortedBy(haystack) ==>
              (r.Some? <==> exists j :: 0 <= j < |haystack| && needle < haystack[j])
    ensures SortedBy(haystack) && r.Some? ==>
              forall j :: 0 <= j < r.value ==> haystack[j] <= needle
  {
    if |haystack| == 0 then None
    else NextLargestInternal(haystack, 0, |haystack| - 1, needle)
  }

  /** The expectations of the source's unit tests, on the keys 1, 3, 5, 7, 9. */
  lemma BinarySearchUnitTests()
    ensures var odd: seq<int> := [1, 3, 5, 7, 9];
      && BinarySearch([], 3) == None
      && BinarySearch(odd, 5) == Some(2)
      && BinarySearch(odd, 1) == Some(0)
      && BinarySearch(odd, 9) == Some(4)
      && BinarySearch(odd, 11) == None
  {
    var odd: seq<int> := [1, 3, 5, 7, 9];
    assert BinarySearchInternal(odd, 0, 1, 1) == Some(0);
  }

  /** The expectations of the unit tests of `greatest_not_exceeding`. */
  lemma GreatestNotExceedingUnitTests()
    ensures var odd: seq<int> := [1, 3, 5, 7, 9];
      && GreatestNotExceeding([], 3) == None
      && GreatestNotExceeding(odd, 6) == Some(2)
      && GreatestNotExceeding(odd, 1) == Some(0)
      && GreatestNotExceeding(odd, 10) == Some(4)
      && GreatestNotExceeding(odd, 0) == None
  {
  }

  /** The expectations of the unit tests of `next_largest`. */
  lemma NextLargestUnitTests()
    ensures var odd: seq<int> := [1, 3, 5, 7, 9];
      && NextLargest([], 3) == None
      && NextLargest(odd, 3) == Some(2)
      && NextLargest(odd, 0) == Some(0)
      && NextLargest(odd, 8) == Some(4)
      && NextLargest(odd, 9) == None
  {
  }
}
