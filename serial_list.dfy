/**
 * The list behind the file-serial registry of src/io/luxor_file.rs, as values: the
 * `Vec<Weak<FileSerial>>` is a sequence of serial identities, and what the weak references
 * point at is a heap from identity to the serial's key and strong count. The functions here
 * are the closures and standard-library calls the registry applies to that list.
 */
module SerialList {
  import opened Wrappers
  import opened MachineInts

  /** The identity of one `FileSerial` allocation (the target of an `Arc`). */
  type SerialId = nat

  /** A `FileSerial` allocation: its key and its `Arc::strong_count`. */
  datatype Serial = Serial(key: u64, strong: nat)

  /** Every `FileSerial` allocated so far. A serial whose strong count is 0 has been dropped. */
  type Heap = map<SerialId, Serial>

  /** A weak reference to `id` can still be upgraded. */
  predicate Live(heap: Heap, id: SerialId) {
    id in heap && heap[id].strong > 0
  }

  /** `Weak::upgrade`, seen through the key of the serial it yields. */
  function Upgrade(heap: Heap, id: SerialId): (r: Option<u64>)
    ensures r.Some? <==> Live(heap, id)
    ensures r.Some? ==> r.value == heap[id].key
  {
    if Live(heap, id) then Some(heap[id].key) else None
  }

  datatype Ordering = Less | Equal | Greater

  /** `partial_cmp(..).unwrap()` on two integers. */
  function Compare(a: int, b: int): (o: Ordering)
    ensures o == Less <==> a < b
    ensures o == Equal <==> a == b
    ensures o == Greater <==> a > b
  {
    if a < b then Less else if a == b then Equal else Greater
  }

  /** The closure that `find_existing_serial` hands to `binary_search_by`. */
  function LookupOrdering(heap: Heap, id: SerialId, key: u64): Ordering {
    match Upgrade(heap, id)
    case Some(k) => Compare(k, key)
    case None => Less
  }

  /** The closure that `FileSerial::find` hands to `sort_by`. */
  function SortOrdering(heap: Heap, lhs: SerialId, rhs: SerialId): Ordering {
    match (Upgrade(heap, lhs), Upgrade(heap, rhs))
    case (None, None) => Equal
    case (None, _) => Greater
    case (_, None) => Less
    case (Some(l), Some(r)) => Compare(l, r)
  }

  /** The position a serial sorts to: its key while it is live, past every key once expired. */
  function Rank(heap: Heap, id: SerialId): nat {
    if Live(heap, id) then heap[id].key else U64_LIMIT
  }

  /** The sort closure is the order of ranks, so it is a total preorder with expired entries last. */
  lemma SortOrderingIsRankOrder(heap: Heap, lhs: SerialId, rhs: SerialId)
    ensures SortOrdering(heap, lhs, rhs) == Compare(Rank(heap, lhs), Rank(heap, rhs))
    ensures Live(heap, lhs) && !Live(heap, rhs) ==> SortOrdering(heap, lhs, rhs) == Less
  {
  }

  /** The entries' ranks never decrease. */
  ghost predicate SortedByRank(heap: Heap, entries: seq<SerialId>) {
    forall i, j :: 0 <= i < j < |entries| ==> Rank(heap, entries[i]) <= Rank(heap, entries[j])
  }

  /** The entries' ranks strictly increase: sorted and no rank twice. */
  ghost predicate StrictlySortedByRank(heap: Heap, entries: seq<SerialId>) {
    forall i, j :: 0 <= i < j < |entries| ==> Rank(heap, entries[i]) < Rank(heap, entries[j])
  }

  /** Every entry can be upgraded. */
  ghost predicate AllLive(heap: Heap, entries: seq<SerialId>) {
    forall i :: 0 <= i < |entries| ==> Live(heap, entries[i])
  }

  /**
   * Stable insertion of `x` into `sorted`: after every entry that does not compare
   * `Greater` than it.
   */
  function Insert(heap: Heap, x: SerialId, sorted: seq<SerialId>): (r: seq<SerialId>)
    ensures multiset(r) == multiset(sorted) + multiset{x}
  {
    if |sorted| == 0 then [x]
    else if SortOrdering(heap, sorted[0], x) == Greater then [x] + sorted
    else
      assert sorted == [sorted[0]] + sorted[1..];
      [sorted[0]] + Insert(heap, x, sorted[1..])
  }

  /** `slice::sort_by` with the sort closure: a stable sort, here insertion of each entry in turn. */
  function SortBy(heap: Heap, entries: seq<SerialId>): (r: seq<SerialId>)
    ensures multiset(r) == multiset(entries)
  {
    if |entries| == 0 then []
    else
      assert entries == entries[..|entries| - 1] + [entries[|entries| - 1]];
      Insert(heap, entries[|entries| - 1], SortBy(heap, entries[..|entries| - 1]))
  }

  /** Inserting into a sorted sequence keeps it sorted. */
  lemma {:induction false} InsertSorted(heap: Heap, x: SerialId, sorted: seq<SerialId>)
    requires SortedByRank(heap, sorted)
    ensures SortedByRank(heap, Insert(heap, x, sorted))
  {
    if |sorted| > 0 {
      var head, tail := sorted[0], sorted[1..];
      SortOrderingIsRankOrder(heap, head, x);
      if SortOrdering(heap, head, x) == Greater {
        forall i | 0 <= i < |sorted|
          ensures Rank(heap, x) <= Rank(heap, sorted[i])
        {
          assert i == 0 || Rank(heap, head) <= Rank(heap, sorted[i]);
        }
        SortedCons(heap, x, sorted);
      } else {
        assert SortedByRank(heap, tail) by {
          forall i, j | 0 <= i < j < |tail|
            ensures Rank(heap, tail[i]) <= Rank(heap, tail[j])
          {
            assert tail[i] == sorted[i + 1] && tail[j] == sorted[j + 1];
          }
        }
        var rest := Insert(heap, x, tail);
        InsertSorted(heap, x, tail);
        forall k | 0 <= k < |rest|
          ensures Rank(heap, head) <= Rank(heap, rest[k])
        {
          assert rest[k] in multiset(tail) + multiset{x};
          if rest[k] != x {
            assert rest[k] in tail;
            var i :| 0 <= i < |tail| && tail[i] == rest[k];
            assert tail[i] == sorted[i + 1];
          }
        }
        SortedCons(heap, head, rest);
      }
    }
  }

  /** An entry ranked no higher than every entry of a sorted list can head it. */
  lemma SortedCons(heap: Heap, x: SerialId, sorted: seq<SerialId>)
    requires SortedByRank(heap, sorted)
    requires forall i :: 0 <= i < |sorted| ==> Rank(heap, x) <= Rank(heap, sorted[i])
    ensures SortedByRank(heap, [x] + sorted)
  {
    var r := [x] + sorted;
    forall i, j | 0 <= i < j < |r|
      ensures Rank(heap, r[i]) <= Rank(heap, r[j])
    {
      assert r[j] == sorted[j - 1];
      if i > 0 {
        assert r[i] == sorted[i - 1];
      }
    }
  }

  /** The result of the sort is sorted by rank: live entries by key, then every expired one. */
  lemma {:induction false} SortBySorted(heap: Heap, entries: seq<SerialId>)
    ensures SortedByRank(heap, SortBy(heap, entries))
  {
    if |entries| > 0 {
      SortBySorted(heap, entries[..|entries| - 1]);
      InsertSorted(heap, entries[|entries| - 1], SortBy(heap, entries[..|entries| - 1]));
    }
  }

  /** An entry that ranks no lower than all of a sorted sequence is appended at its end. */
  lemma {:induction false} InsertAtEnd(heap: Heap, x: SerialId, sorted: seq<SerialId>)
    requires forall i :: 0 <= i < |sorted| ==> Rank(heap, sorted[i]) <= Rank(heap, x)
    ensures Insert(heap, x, sorted) == sorted + [x]
  {
    if |sorted| > 0 {
      SortOrderingIsRankOrder(heap, sorted[0], x);
      InsertAtEnd(heap, x, sorted[1..]);
      assert [sorted[0]] + (sorted[1..] + [x]) == sorted + [x];
    }
  }

  /** The sort is stable: an already sorted list comes out as it went in. */
  lemma {:induction false} SortByKeepsSorted(heap: Heap, entries: seq<SerialId>)
    requires SortedByRank(heap, entries)
    ensures SortBy(heap, entries) == entries
  {
    if |entries| > 0 {
      var init := entries[..|entries| - 1];
      var last := entries[|entries| - 1];
      assert SortedByRank(heap, init) by {
        forall i, j | 0 <= i < j < |init|
          ensures Rank(heap, init[i]) <= Rank(heap, init[j])
        {
          assert init[i] == entries[i] && init[j] == entries[j];
        }
      }
      SortByKeepsSorted(heap, init);
      forall i | 0 <= i < |init|
        ensures Rank(heap, init[i]) <= Rank(heap, last)
      {
        assert init[i] == entries[i];
      }
      InsertAtEnd(heap, last, init);
      assert init + [last] == entries;
    }
  }

  /**
   * Inserting a live entry whose key no entry has into a strictly sorted list of live
   * entries gives a strictly sorted list of live entries.
   */
  lemma {:induction false} InsertStrictlySorted(heap: Heap, x: SerialId, sorted: seq<SerialId>)
    requires StrictlySortedByRank(heap, sorted) && AllLive(heap, sorted) && Live(heap, x)
    requires forall i :: 0 <= i < |sorted| ==> heap[sorted[i]].key != heap[x].key
    ensures StrictlySortedByRank(heap, Insert(heap, x, sorted))
    ensures AllLive(heap, Insert(heap, x, sorted))
  {
    if |sorted| > 0 {
      var head, tail := sorted[0], sorted[1..];
      SortOrderingIsRankOrder(heap, head, x);
      if SortOrdering(heap, head, x) == Greater {
        forall i | 0 <= i < |sorted|
          ensures Rank(heap, x) < Rank(heap, sorted[i])
        {
          assert i == 0 || Rank(heap, head) < Rank(heap, sorted[i]);
        }
        StrictlySortedCons(heap, x, sorted);
      } else {
        assert Rank(heap, head) < Rank(heap, x) by {
          assert heap[head].key != heap[x].key;
        }
        StrictlySortedTail(heap, x, sorted);
        InsertStrictlySorted(heap, x, tail);
        InsertRanksAbove(heap, head, x, tail);
        StrictlySortedCons(heap, head, Insert(heap, x, tail));
      }
    }
  }

  /**
   * The tail of a strictly sorted list of live entries whose keys differ from that of `x` is
   * again such a list, ranked above its head.
   */
  lemma StrictlySortedTail(heap: Heap, x: SerialId, sorted: seq<SerialId>)
    requires |sorted| > 0 && StrictlySortedByRank(heap, sorted) && AllLive(heap, sorted)
    requires Live(heap, x) && forall i :: 0 <= i < |sorted| ==> heap[sorted[i]].key != heap[x].key
    ensures var tail := sorted[1..];
      StrictlySortedByRank(heap, tail) && AllLive(heap, tail) &&
      (forall i :: 0 <= i < |tail| ==> heap[tail[i]].key != heap[x].key) &&
      (forall i :: 0 <= i < |tail| ==> Rank(heap, sorted[0]) < Rank(heap, tail[i]))
  {
    var tail := sorted[1..];
    forall i, j | 0 <= i < j < |tail|
      ensures Rank(heap, tail[i]) < Rank(heap, tail[j])
    {
      assert tail[i] == sorted[i + 1] && tail[j] == sorted[j + 1];
    }
    forall i | 0 <= i < |tail|
      ensures Live(heap, tail[i]) && heap[tail[i]].key != heap[x].key
      ensures Rank(heap, sorted[0]) < Rank(heap, tail[i])
    {
      assert tail[i] == sorted[i + 1];
    }
  }

  /** Inserting an entry ranked above `head` into entries ranked above it keeps them so. */
  lemma InsertRanksAbove(heap: Heap, head: SerialId, x: SerialId, tail: seq<SerialId>)
    requires Rank(heap, head) < Rank(heap, x)
    requires forall i :: 0 <= i < |tail| ==> Rank(heap, head) < Rank(heap, tail[i])
    ensures forall k :: 0 <= k < |Insert(heap, x, tail)| ==>
      Rank(heap, head) < Rank(heap, Insert(heap, x, tail)[k])
  {
    var rest := Insert(heap, x, tail);
    forall k | 0 <= k < |rest|
      ensures Rank(heap, head) < Rank(heap, rest[k])
    {
      assert rest[k] in multiset(tail) + multiset{x};
      if rest[k] != x {
        assert rest[k] in tail;
      }
    }
  }

  /** A live entry ranked below every entry of a strictly sorted list of live entries heads it. */
  lemma StrictlySortedCons(heap: Heap, x: SerialId, sorted: seq<SerialId>)
    requires StrictlySortedByRank(heap, sorted) && AllLive(heap, sorted) && Live(heap, x)
    requires forall i :: 0 <= i < |sorted| ==> Rank(heap, x) < Rank(heap, sorted[i])
    ensures StrictlySortedByRank(heap, [x] + sorted) && AllLive(heap, [x] + sorted)
  {
    var r := [x] + sorted;
    forall i, j | 0 <= i < j < |r|
      ensures Rank(heap, r[i]) < Rank(heap, r[j])
    {
      assert r[j] == sorted[j - 1];
      if i > 0 {
        assert r[i] == sorted[i - 1];
      }
    }
    forall i | 0 <= i < |r|
      ensures Live(heap, r[i])
    {
      if i > 0 {
        assert r[i] == sorted[i - 1];
      }
    }
  }

  /** `iter().rposition(|e| e.strong_count() == 0)`: the last entry that can no longer be upgraded. */
  function LastExpired(heap: Heap, entries: seq<SerialId>): (r: Option<nat>)
    ensures r.Some? ==> r.value < |entries| && !Live(heap, entries[r.value])
    ensures r.Some? ==> forall j :: r.value < j < |entries| ==> Live(heap, entries[j])
    ensures r.None? ==> AllLive(heap, entries)
  {
    if |entries| == 0 then None
    else if !Live(heap, entries[|entries| - 1]) then Some(|entries| - 1)
    else LastExpired(heap, entries[..|entries| - 1])
  }

  /** `Vec::remove`: the entry at `index` leaves, the others keep their order. */
  function RemoveAt(entries: seq<SerialId>, index: nat): (r: seq<SerialId>)
    requires index < |entries|
    ensures |r| == |entries| - 1
    ensures forall k :: 0 <= k < index ==> r[k] == entries[k]
    ensures forall k :: index <= k < |r| ==> r[k] == entries[k + 1]
    ensures multiset(r) + multiset{entries[index]} == multiset(entries)
  {
    assert entries == entries[..index] + [entries[index]] + entries[index + 1..];
    entries[..index] + entries[index + 1..]
  }

  /** The first entry that is live with `key`: the reference definition of a lookup. */
  function FindLive(heap: Heap, entries: seq<SerialId>, key: u64): (r: Option<nat>)
    ensures r.Some? ==> r.value < |entries| && Upgrade(heap, entries[r.value]) == Some(key)
    ensures r.None? ==> forall i :: 0 <= i < |entries| ==> Upgrade(heap, entries[i]) != Some(key)
  {
    if |entries| == 0 then None
    else if Upgrade(heap, entries[0]) == Some(key) then Some(0)
    else match FindLive(heap, entries[1..], key)
      case Some(i) => Some(i + 1)
      case None => None
  }

  /** The comparisons `binary_search_by` would see, one per entry. */
  function LookupOrderings(heap: Heap, entries: seq<SerialId>, key: u64): (r: seq<Ordering>)
    ensures |r| == |entries|
    ensures forall i :: 0 <= i < |r| ==> r[i] == LookupOrdering(heap, entries[i], key)
  {
    seq(|entries|, i requires 0 <= i < |entries| => LookupOrdering(heap, entries[i], key))
  }

  /** Comparison results that go `Less`, then `Equal`, then `Greater`. */
  ghost predicate Monotone(orderings: seq<Ordering>) {
    forall i, j :: 0 <= i < j < |orderings| ==> OrderingRank(orderings[i]) <= OrderingRank(orderings[j])
  }

  function OrderingRank(o: Ordering): nat {
    match o
    case Less => 0
    case Equal => 1
    case Greater => 2
  }

  /**
   * `slice::binary_search_by` (the loop of Rust 1.52 to 1.81) on the half-open range
   * `[left, right)`: `Ok` with the first probed index that compares `Equal`, else `Err`
   * with the insertion point.
   */
  function SearchBy(orderings: seq<Ordering>, left: nat, right: nat): (r: Result<nat, nat>)
    requires left <= right <= |orderings|
    ensures r.Ok? ==> left <= r.value < right && orderings[r.value] == Equal
    ensures r.Err? ==> left <= r.error <= right
    decreases right - left
  {
    if left >= right then Err(left)
    else
      var mid := left + (right - left) / 2;
      match orderings[mid]
      case Equal => Ok(mid)
      case Less => SearchBy(orderings, mid + 1, right)
      case Greater => SearchBy(orderings, left, mid)
  }

  /**
   * On monotone comparisons a failed search is exact: everything before the insertion
   * point compares `Less` (so no entry in the range compares `Equal`; see `SearchByGreaterFrom`
   * for the rest of the range).
   */
  lemma {:induction false} SearchByLessBefore(orderings: seq<Ordering>, left: nat, right: nat)
    requires left <= right <= |orderings| && Monotone(orderings)
    ensures SearchBy(orderings, left, right).Err? ==>
      forall i :: left <= i < SearchBy(orderings, left, right).error ==> orderings[i] == Less
    decreases right - left
  {
    if left < right {
      var mid := left + (right - left) / 2;
      match orderings[mid]
      case Equal =>
      case Less =>
        SearchByLessBefore(orderings, mid + 1, right);
        LessBefore(orderings, mid);
      case Greater =>
        SearchByLessBefore(orderings, left, mid);
    }
  }

  /** On monotone comparisons everything from the insertion point of a failed search is `Greater`. */
  lemma {:induction false} SearchByGreaterFrom(orderings: seq<Ordering>, left: nat, right: nat)
    requires left <= right <= |orderings| && Monotone(orderings)
    ensures SearchBy(orderings, left, right).Err? ==>
      forall i :: SearchBy(orderings, left, right).error <= i < right ==> orderings[i] == Greater
    decreases right - left
  {
    if left < right {
      var mid := left + (right - left) / 2;
      match orderings[mid]
      case Equal =>
      case Less =>
        SearchByGreaterFrom(orderings, mid + 1, right);
      case Greater =>
        SearchByGreaterFrom(orderings, left, mid);
        GreaterAfter(orderings, mid);
    }
  }

  /** One probe of the search: the middle of a non-empty range decides where it goes on. */
  lemma SearchByStep(orderings: seq<Ordering>, left: nat, right: nat)
    requires left < right <= |orderings|
    ensures var mid := left + (right - left) / 2;
      SearchBy(orderings, left, right) == match orderings[mid]
        case Equal => Ok(mid)
        case Less => SearchBy(orderings, mid + 1, right)
        case Greater => SearchBy(orderings, left, mid)
  {
  }

  /** In monotone comparisons everything before a `Less` is `Less`. */
  lemma LessBefore(orderings: seq<Ordering>, at: nat)
    requires Monotone(orderings) && at < |orderings| && orderings[at] == Less
    ensures forall i :: 0 <= i <= at ==> orderings[i] == Less
  {
    forall i | 0 <= i < at
      ensures orderings[i] == Less
    {
      assert OrderingRank(orderings[i]) <= OrderingRank(orderings[at]);
    }
  }

  /** In monotone comparisons everything after a `Greater` is `Greater`. */
  lemma GreaterAfter(orderings: seq<Ordering>, at: nat)
    requires Monotone(orderings) && at < |orderings| && orderings[at] == Greater
    ensures forall i :: at <= i < |orderings| ==> orderings[i] == Greater
  {
    forall i | at < i < |orderings|
      ensures orderings[i] == Greater
    {
      assert OrderingRank(orderings[at]) <= OrderingRank(orderings[i]);
    }
  }

  /** `find_existing_serial` as a value: search, then upgrade the entry that was found. */
  function Lookup(heap: Heap, entries: seq<SerialId>, key: u64): (r: Option<SerialId>)
    ensures r.Some? ==> r.value in entries && Upgrade(heap, r.value) == Some(key)
  {
    match SearchBy(LookupOrderings(heap, entries, key), 0, |entries|)
    case Ok(i) => if Live(heap, entries[i]) then Some(entries[i]) else None
    case Err(_) => None
  }

  /** On a list of live entries with strictly increasing keys the comparisons are monotone. */
  lemma LookupOrderingsMonotone(heap: Heap, entries: seq<SerialId>, key: u64)
    requires AllLive(heap, entries) && StrictlySortedByRank(heap, entries)
    ensures Monotone(LookupOrderings(heap, entries, key))
  {
    var o := LookupOrderings(heap, entries, key);
    forall i, j | 0 <= i < j < |o|
      ensures OrderingRank(o[i]) <= OrderingRank(o[j])
    {
      assert Rank(heap, entries[i]) < Rank(heap, entries[j]);
    }
  }

  /**
   * When every entry is live and the keys strictly increase, the lookup finds a serial
   * exactly when one is registered under the key, and it is that serial.
   */
  lemma LookupCorrect(heap: Heap, entries: seq<SerialId>, key: u64)
    requires AllLive(heap, entries) && StrictlySortedByRank(heap, entries)
    ensures match FindLive(heap, entries, key)
      case Some(i) => Lookup(heap, entries, key) == Some(entries[i])
      case None => Lookup(heap, entries, key) == None
  {
    var o := LookupOrderings(heap, entries, key);
    LookupOrderingsMonotone(heap, entries, key);
    SearchByLessBefore(o, 0, |entries|);
    SearchByGreaterFrom(o, 0, |entries|);
    match FindLive(heap, entries, key)
    case Some(i) =>
      assert o[i] == Equal;
      var j := SearchBy(o, 0, |entries|).value;
      assert Rank(heap, entries[j]) == key == Rank(heap, entries[i]);
      assert !(i < j) && !(j < i);
    case None =>
  }

  /**
   * The lookup closure ranks an expired entry `Less` while the sort puts it after every
   * live one, so a list that holds an expired entry can hide a live key: here key 5 is
   * live at index 0 and the search, probing the expired entry at index 1 first, misses it.
   */
  lemma LookupMissesBehindExpired()
    ensures var heap := map[0 := Serial(5, 1), 1 := Serial(7, 0)];
      SortedByRank(heap, [0, 1]) && FindLive(heap, [0, 1], 5) == Some(0) &&
      Lookup(heap, [0, 1], 5) == None
  {
    var heap := map[0 := Serial(5, 1), 1 := Serial(7, 0)];
    var o := LookupOrderings(heap, [0, 1], 5);
    assert o[1] == Less;
    assert SearchBy(o, 2, 2) == Err(2);
  }

  /**
   * The registry's invariant between calls: every allocated serial has an identity below
   * `nextId`, every entry is live, ranks (that is, keys) strictly increase along the list,
   * and every live serial has an entry.
   */
  ghost predicate Registered(heap: Heap, entries: seq<SerialId>, nextId: SerialId) {
    (forall id :: id in heap ==> id < nextId) &&
    AllLive(heap, entries) &&
    StrictlySortedByRank(heap, entries) &&
    (forall id :: Live(heap, id) ==> id in entries)
  }

  /** Strictly increasing ranks never repeat an entry. */
  lemma StrictlySortedDistinct(heap: Heap, entries: seq<SerialId>, i: nat, j: nat)
    requires StrictlySortedByRank(heap, entries)
    requires i < |entries| && j < |entries| && entries[i] == entries[j]
    ensures i == j
  {
  }

  /** Changing the strong count of a live serial, while it stays live, keeps the invariant. */
  lemma RecountKeepsRegistered(heap: Heap, entries: seq<SerialId>, nextId: SerialId,
                               id: SerialId, strong: nat)
    requires Registered(heap, entries, nextId) && Live(heap, id) && strong > 0
    ensures Registered(heap[id := Serial(heap[id].key, strong)], entries, nextId)
  {
    var heap' := heap[id := Serial(heap[id].key, strong)];
    forall other
      ensures Live(heap', other) == Live(heap, other) && Rank(heap', other) == Rank(heap, other)
    {
    }
  }

  /** A live serial is found under its key, at its own entry. */
  lemma RegisteredKeyFound(heap: Heap, entries: seq<SerialId>, nextId: SerialId, id: SerialId)
    requires Registered(heap, entries, nextId) && Live(heap, id)
    ensures FindLive(heap, entries, heap[id].key).Some?
    ensures entries[FindLive(heap, entries, heap[id].key).value] == id
  {
    assert id in entries;
    var at :| 0 <= at < |entries| && entries[at] == id;
    assert Upgrade(heap, entries[at]) == Some(heap[id].key);
  }

  /**
   * Pushing a new live serial whose key has no live entry and sorting again amounts to
   * inserting it in key order, and keeps the invariant.
   */
  lemma InsertKeepsRegistered(heap: Heap, entries: seq<SerialId>, nextId: SerialId, key: u64,
                              grown: Heap)
    requires Registered(heap, entries, nextId) && FindLive(heap, entries, key).None?
    requires grown == heap[nextId := Serial(key, 1)]
    ensures SortBy(grown, entries + [nextId]) == Insert(grown, nextId, entries)
    ensures Registered(grown, Insert(grown, nextId, entries), nextId + 1)
  {
    NewSerialKeepsOrder(heap, entries, nextId, key, grown);
    assert (entries + [nextId])[..|entries|] == entries;
    SortByKeepsSorted(grown, entries);
    InsertStrictlySorted(grown, nextId, entries);
    GrownLiveListed(heap, entries, nextId, key, grown);
    assert forall id :: id in grown ==> id < nextId + 1;
  }

  /** After the allocation, every live serial is listed once the new one is inserted. */
  lemma GrownLiveListed(heap: Heap, entries: seq<SerialId>, nextId: SerialId, key: u64,
                        grown: Heap)
    requires Registered(heap, entries, nextId)
    requires grown == heap[nextId := Serial(key, 1)]
    ensures forall other :: Live(grown, other) ==> other in Insert(grown, nextId, entries)
  {
    InsertKeepsMembers(grown, nextId, entries);
    forall other | Live(grown, other)
      ensures other in entries || other == nextId
    {
      if other != nextId {
        assert Live(heap, other);
      }
    }
  }

  /** Inserting keeps every entry and adds the new one. */
  lemma InsertKeepsMembers(heap: Heap, x: SerialId, entries: seq<SerialId>)
    ensures forall other :: other in entries || other == x ==> other in Insert(heap, x, entries)
  {
    forall other | other in entries || other == x
      ensures other in Insert(heap, x, entries)
    {
      assert other in multiset(Insert(heap, x, entries));
    }
  }

  /** Allocating a serial with a fresh identity and an unused key leaves the entries as they were. */
  lemma NewSerialKeepsOrder(heap: Heap, entries: seq<SerialId>, nextId: SerialId, key: u64,
                            grown: Heap)
    requires Registered(heap, entries, nextId) && FindLive(heap, entries, key).None?
    requires grown == heap[nextId := Serial(key, 1)]
    ensures AllLive(grown, entries) && StrictlySortedByRank(grown, entries)
    ensures SortedByRank(grown, entries) && Live(grown, nextId)
    ensures forall i :: 0 <= i < |entries| ==> grown[entries[i]].key != grown[nextId].key
  {
    assert nextId !in heap;
    forall i | 0 <= i < |entries|
      ensures entries[i] != nextId && Live(grown, entries[i])
      ensures Rank(grown, entries[i]) == Rank(heap, entries[i])
      ensures grown[entries[i]].key != key
    {
      assert Live(heap, entries[i]);
      assert Upgrade(heap, entries[i]) != Some(key);
    }
  }

  /** Taking one entry out of a strictly sorted list of live entries keeps it so, and drops that entry. */
  lemma RemoveAtKeepsOrder(heap: Heap, entries: seq<SerialId>, at: nat)
    requires at < |entries| && AllLive(heap, entries) && StrictlySortedByRank(heap, entries)
    ensures var rest := RemoveAt(entries, at);
      AllLive(heap, rest) && StrictlySortedByRank(heap, rest) && entries[at] !in rest
  {
    var rest := RemoveAt(entries, at);
    forall k | 0 <= k < |rest|
      ensures rest[k] == entries[if k < at then k else k + 1]
    {
    }
    forall k | 0 <= k < |rest|
      ensures rest[k] != entries[at]
    {
      var j := if k < at then k else k + 1;
      assert Rank(heap, entries[j]) != Rank(heap, entries[at]);
    }
    forall i, j | 0 <= i < j < |rest|
      ensures Rank(heap, rest[i]) < Rank(heap, rest[j])
    {
      var i', j' := if i < at then i else i + 1, if j < at then j else j + 1;
      assert Rank(heap, entries[i']) < Rank(heap, entries[j']);
    }
  }

  /** Expiring a serial that has no entry changes nothing the entries can observe. */
  lemma ExpireOutside(heap: Heap, entries: seq<SerialId>, id: SerialId)
    requires id in heap && id !in entries
    requires AllLive(heap, entries) && StrictlySortedByRank(heap, entries)
    ensures var heap' := heap[id := Serial(heap[id].key, 0)];
      AllLive(heap', entries) && StrictlySortedByRank(heap', entries)
  {
    var heap' := heap[id := Serial(heap[id].key, 0)];
    forall k | 0 <= k < |entries|
      ensures Live(heap', entries[k]) && Rank(heap', entries[k]) == Rank(heap, entries[k])
    {
      assert entries[k] != id;
    }
  }

  /**
   * When the last strong reference to a registered serial goes, its entry is the only
   * expired one, so it is the last expired entry.
   */
  lemma ExpiredIsLast(heap: Heap, entries: seq<SerialId>, at: nat)
    requires at < |entries| && AllLive(heap, entries) && StrictlySortedByRank(heap, entries)
    ensures var id := entries[at];
      LastExpired(heap[id := Serial(heap[id].key, 0)], entries) == Some(at)
  {
    var id := entries[at];
    var heap' := heap[id := Serial(heap[id].key, 0)];
    forall k | 0 <= k < |entries| && k != at
      ensures Live(heap', entries[k])
    {
      assert Rank(heap, entries[k]) != Rank(heap, entries[at]);
    }
  }

  /** Every live serial other than the one removed keeps its entry. */
  lemma RemoveAtKeepsOthers(heap: Heap, entries: seq<SerialId>, at: nat)
    requires at < |entries| && !Live(heap, entries[at])
    requires forall id :: Live(heap, id) ==> id in entries
    ensures forall id :: Live(heap, id) ==> id in RemoveAt(entries, at)
  {
    var rest := RemoveAt(entries, at);
    forall other | Live(heap, other)
      ensures other in rest
    {
      var k :| 0 <= k < |entries| && entries[k] == other;
      assert rest[if k < at then k else k - 1] == other;
    }
  }

  /**
   * When the last strong reference to a registered serial goes, it is the last (indeed
   * the only) expired entry, and removing that entry restores the invariant.
   */
  lemma ReleaseLastKeepsRegistered(heap: Heap, entries: seq<SerialId>, nextId: SerialId,
                                   id: SerialId) returns (at: nat)
    requires Registered(heap, entries, nextId) && Live(heap, id) && heap[id].strong == 1
    ensures var heap' := heap[id := Serial(heap[id].key, 0)];
      at < |entries| && entries[at] == id && LastExpired(heap', entries) == Some(at) &&
      id !in RemoveAt(entries, at) && Registered(heap', RemoveAt(entries, at), nextId)
  {
    var heap' := heap[id := Serial(heap[id].key, 0)];
    assert id in entries;
    at :| 0 <= at < |entries| && entries[at] == id;
    ExpiredIsLast(heap, entries, at);
    var rest := RemoveAt(entries, at);
    RemoveAtKeepsOrder(heap, entries, at);
    ExpireOutside(heap, rest, id);
    assert forall other :: Live(heap', other) ==> Live(heap, other);
    RemoveAtKeepsOthers(heap', entries, at);
    assert forall other :: other in heap' ==> other < nextId;
  }

  /**
   * Setting one serial to a positive strong count under its own key (or under any key, when
   * it was not live) leaves every live serial live with its key.
   */
  lemma KeepsLive(heap: Heap, id: SerialId, key: u64, strong: nat)
    requires strong > 0 && (Live(heap, id) ==> heap[id].key == key)
    ensures var heap' := heap[id := Serial(key, strong)];
      forall other :: Live(heap, other) ==> Live(heap', other) && heap'[other].key == heap[other].key
  {
  }
}
