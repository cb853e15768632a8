# luxo-rs storage-access core, modelled in Dafny

This project models the parts of luxo-rs that decide values and bookkeeping beneath its file
access layer, and proves what they promise:

- **The file-serial registry** (`src/io/luxor_file.rs`). This is the process-wide list `SERIALS`
  of weak references to `FileSerial`s, kept sorted by key. `FileSerial::find` looks a key up and
  hands out a shared serial, or creates, pushes and re-sorts a new one. Dropping the last `Arc`
  removes the last expired entry. `LuxorFile::open` opens the file before it looks up the serial.
  - `SerialList` models the list as values: a sequence of serial identities over a heap of
    allocated serials, each with a key and a strong count. It also models the two closures the
    registry passes to the standard library, `binary_search_by` as the loop of Rust 1.52–1.81,
    the stable `sort_by`, `rposition` and `Vec::remove`.
  - `Registry` is the class `SerialRegistry`. Its methods update these fields in place under the
    invariant `Registered`: every entry is live, the keys strictly increase, and every live serial
    has exactly one entry.
- **Page-aligned regions** (`src/fs/mmap.rs`). This covers the page-size fallback of
  `sys_page_size` and the two constructors `AlignedFileRegion::new` and `new_aligned`.
- **Sorted-slice searches** (`src/algo/search.rs`): `binary_search`, `greatest_not_exceeding` and
  `next_largest`, with their recursive `_internal` helpers.
- **FNV-1a** (`src/algo/fnv1a.rs`). The class `Hasher` holds the state. `HashBytes` is the fold
  that specifies it. Every step is invertible, so hashing is injective in the starting state.
  The byte encodings of the `FNV1aIterator` impls are modelled, and the source's test vectors
  are proved.
- **Error classification** (`src/fs/errors.rs`): the mapping from `std::io::Error` to `IOError`.

Integers are unbounded in Dafny. The model writes out each `u64`/`usize`/`i32`/`i64` range as a
subset type. It also writes out each wrap-around explicitly: the `u128` product truncated to
`u64`, the `as usize` cast of the `sysconf` answer, and two's-complement byte patterns.

Some things come from outside the process. These are the key `resolve_file_key` returns, the
outcome of `path::absolute` and `OpenOptions::open`, and the page size. They enter the model as
parameters: a `Result` whose error is a modelled `std::io::Error`, or a number.

Where the code and the prose design of the system disagree, the model follows the code:

- The design describes the page size as memoized once per process. `sys_page_size` is called
  afresh by every constructor. The model takes the page size as a parameter of each constructor.
- The design says `new_aligned` never fails. `next_multiple_of` overflows at the top of the
  `u64` range. `Mmap.NewAligned` requires that the rounded values fit, and
  `Mmap.NewAlignedOverflowsAtTop` shows a value that does not.

The lookup closure ranks an expired entry `Less`, but the sort closure puts expired entries after
every live one. A list that still holds an expired entry can therefore hide a live key from the
lookup (`SerialList.LookupMissesBehindExpired`). In the sequential model this never happens:
`Registered` holds between calls, and `Release` removes the entry in the same step that expires
it. With concurrent callers, a `find` that runs between the last strong reference going and
`Drop` taking the write lock could miss the key and create a second serial for the same file.
Concurrency is not part of this model, so this is stated here and not proved.

## Model

| member | source | states |
|---|---|---|
| IoErrors.FromIoError | src/fs/errors.rs:25-35 | Each named error kind maps to its own variant (both directions), every other kind maps to `Generic`, the original error is kept as the source, and exactly the `Interrupted` kind yields a retryable error |
| IoErrors.FromIoErrorInjective | src/fs/errors.rs:25-35 | Distinct `std::io::Error`s never classify to the same `IOError` (a corollary of every variant keeping the original error) |
| Mmap.SysPageSize | src/fs/mmap.rs:17-38 | A `sysconf` value becomes the page size, wrapped to `usize` when negative; "not supported" and an errno both give the fallback 4096 |
| Mmap.New | src/fs/mmap.rs:92-107 | Succeeds exactly when offset and length are both multiples of the page size, returning them unchanged; otherwise the error names the offset when it is misaligned, else the length, together with the page size |
| Mmap.NextMultipleOf | src/fs/mmap.rs:128-129 | The result is a multiple of the page size, at least the input and less than one page above it, and equal to the input exactly when the input is aligned |
| Mmap.MultipleIsAligned | src/fs/mmap.rs:128-129 | Every multiple of the page size is aligned |
| Mmap.NextMultipleIsLeast | src/fs/mmap.rs:109-116 | No multiple of the page size lies between an input and its rounded value, so rounding gives the next multiple |
| Mmap.NewAligned | src/fs/mmap.rs:126-135 | Offset and length are each rounded up to a page multiple that is at least the input and less than a page above it, and each equals its input exactly when that input was aligned |
| Mmap.NewAlignedIdempotent | src/fs/mmap.rs:109-135 | Rounding an already rounded region changes nothing |
| Mmap.NewAcceptsNewAligned | src/fs/mmap.rs:71-72 | Every region `new_aligned` builds is accepted by `new` unchanged |
| Mmap.NewAlignedOnAlignedInput | src/fs/mmap.rs:113-116 | On inputs `new` accepts, `new_aligned` cannot overflow and returns the same region |
| Mmap.NewAlignedOverflowsAtTop | src/fs/mmap.rs:128 | The next multiple of 4096 above the largest `u64` is 2^64, so rounding that offset overflows |
| Search.BinarySearchInternalAsWritten | src/algo/search.rs:39-61 | A hit holds the needle within `[low, high]`; the underflow happens only from `low == 0` with a needle below the first key |
| Search.BinarySearchAsWritten | src/algo/search.rs:13-26 | An empty haystack misses; a hit holds the needle; an underflow needs a needle below the first key |
| Search.UnderflowBelowFirstKey | src/algo/search.rs:49-57 | On a sorted haystack every needle below the first key drives the as-written search into `index - 1` at index 0 |
| Search.BinarySearchUnderflowExample | src/algo/search.rs:56 | Searching 0 in the keys 1, 3, 5, 7, 9 reaches the underflow |
| Search.BinarySearchInternal | src/algo/search.rs:39-61 | A returned index lies in `[low, high]` and holds the needle |
| Search.BinarySearch | src/algo/search.rs:13-26 | An empty haystack gives `None`; a returned index holds the needle |
| Search.BinarySearchInternalExact | src/algo/search.rs:39-61 | On a sorted haystack a miss means no index in `[low, high]` holds the needle |
| Search.BinarySearchExact | src/algo/search.rs:5-12 | On a sorted haystack the search finds an index exactly when the needle is present |
| Search.AsWrittenAgreesInternal | src/algo/search.rs:39-61 | Wherever the as-written search cannot underflow, it returns what the corrected one returns |
| Search.AsWrittenAgrees | src/algo/search.rs:13-26 | For needles not below the first key, the as-written and corrected searches agree |
| Search.GreatestNotExceedingInternal | src/algo/search.rs:98-123 | A returned index in `[low, high]` holds a key not above the needle whose successor in the range exceeds it; on a sorted haystack `None` exactly when the needle is below the key at `low` |
| Search.GreatestNotExceeding | src/algo/search.rs:63-85 | The last index whose key does not exceed the needle, with every later key above it; on a sorted haystack present exactly when the first key does not exceed the needle |
| Search.NextLargestInternal | src/algo/search.rs:166-190 | A returned index in `[low, high]` holds a key above the needle whose predecessor in the range does not exceed it; on a sorted haystack present exactly when the key at `high` exceeds the needle |
| Search.NextLargest | src/algo/search.rs:125-150 | The first index whose key exceeds the needle, with no earlier key above it; on a sorted haystack present exactly when some key exceeds the needle |
| Search.BinarySearchUnitTests | src/algo/search.rs:200-280 | The results the unit tests of `binary_search` expect on the empty haystack and on 1, 3, 5, 7, 9 |
| Search.GreatestNotExceedingUnitTests | src/algo/search.rs:282-363 | The results the unit tests of `greatest_not_exceeding` expect |
| Search.NextLargestUnitTests | src/algo/search.rs:365-446 | The results the unit tests of `next_largest` expect |
| Fnv1a.BitXorTwice | src/algo/fnv1a.rs:39 | Xor-ing the same value in twice restores the original bits |
| Fnv1a.XorByte | src/algo/fnv1a.rs:39 | Xor-ing a widened byte into the state leaves every byte above the lowest one unchanged |
| Fnv1a.XorByteTwice | src/algo/fnv1a.rs:39 | Xor-ing the same byte into the state twice restores it |
| Fnv1a.MulInverse | src/algo/fnv1a.rs:40 | Multiplying by the FNV prime and then by its inverse, both modulo 2^64, is the identity |
| Fnv1a.StepInvertible | src/algo/fnv1a.rs:38-41 | Every `iterate` step is undone by its inverse step, so it is a bijection on states |
| Fnv1a.HashBytesAppend | src/algo/fnv1a.rs:55-64 | Hashing a concatenation is hashing the second part from the state the first part reaches |
| Fnv1a.HashBytesInjective | src/algo/fnv1a.rs:38-41 | Hashing the same bytes from two different states never gives the same state |
| Fnv1a.LeBytes | src/algo/fnv1a.rs:72 | `to_le_bytes` of an `n`-byte value gives `n` bytes |
| Fnv1a.LeBytesRoundTrip | src/algo/fnv1a.rs:68-79 | Decoding the little-endian bytes of a value in range gives the value back |
| Fnv1a.I32BytesRoundTrip | src/algo/fnv1a.rs:81-83 | The four bytes hashed for an `i32` decode, with the sign, to that `i32` |
| Fnv1a.I64BytesRoundTrip | src/algo/fnv1a.rs:89-91 | The eight bytes hashed for an `i64` decode, with the sign, to that `i64` |
| Fnv1a.HashI32Vector | src/algo/fnv1a.rs:117-124 | The `i32` 1337 hashes to 0x9358f934873276db from the offset basis |
| Fnv1a.HashU32Vector | src/algo/fnv1a.rs:126-133 | The `u32` 1337 hashes to 0x9358f934873276db |
| Fnv1a.HashI64Vector | src/algo/fnv1a.rs:135-142 | The `i64` 1337 hashes to 0x41ff8641d035260b |
| Fnv1a.HashU64Vector | src/algo/fnv1a.rs:144-151 | The `u64` 1337 hashes to 0x41ff8641d035260b |
| Fnv1a.HashBoolVector | src/algo/fnv1a.rs:153-159 | `false`, hashed as the `i32` 1237, gives 0x4b91cd1c0e0a959c |
| Fnv1a.HashBytesVector | src/algo/fnv1a.rs:161-170 | The bytes of "deadbeef" hash to 0xcd4f3b6f56d93515 |
| Fnv1a.Hasher.CreateNew | src/algo/fnv1a.rs:20-23 | A new hasher's `State()` is the offset basis |
| Fnv1a.Hasher.CreateInit | src/algo/fnv1a.rs:25-28 | A hasher created with a state reads that state back through `State()` |
| Fnv1a.Hasher.State | src/algo/fnv1a.rs:31-33 | The accessor every contract of `Hasher` is written over: the constructors, `Iterate` and the `FNV1aIterator` methods state the new `State()` |
| Fnv1a.Hasher.Iterate | src/algo/fnv1a.rs:35-41 | The new `State()` is one FNV-1a step of the old `State()` and the byte |
| Fnv1a.Hasher.IterateBytes | src/algo/fnv1a.rs:55-64 | The new state is the fold of the steps over the bytes, in order |
| Fnv1a.Hasher.IterateI32 | src/algo/fnv1a.rs:81-83 | Hashes the four little-endian bytes of the `i32` |
| Fnv1a.Hasher.IterateU32 | src/algo/fnv1a.rs:85-87 | Hashes the four little-endian bytes of the `u32` |
| Fnv1a.Hasher.IterateI64 | src/algo/fnv1a.rs:89-91 | Hashes the eight little-endian bytes of the `i64` |
| Fnv1a.Hasher.IterateU64 | src/algo/fnv1a.rs:93-95 | Hashes the eight little-endian bytes of the `u64` |
| Fnv1a.Hasher.IterateBool | src/algo/fnv1a.rs:44-53 | Hashes `true` as the `i32` 1231 and `false` as 1237 |
| Fnv1a.CreateNewReadsBasis | src/algo/fnv1a.rs:101-109 | A new hasher reads back 0xcbf29ce484222325 |
| Fnv1a.CreateInitReadsInitial | src/algo/fnv1a.rs:111-115 | A hasher created with 1337 reads back 1337 |
| Fnv1a.Iterate32Expectations | src/algo/fnv1a.rs:117-133 | Iterating the `i32` and the `u32` 1337 from a new hasher both read back 0x9358f934873276db |
| Fnv1a.Iterate64Expectations | src/algo/fnv1a.rs:135-151 | Iterating the `i64` and the `u64` 1337 from a new hasher both read back 0x41ff8641d035260b |
| Fnv1a.IterateBoolAndBytesExpectations | src/algo/fnv1a.rs:153-170 | Iterating `false` reads back 0x4b91cd1c0e0a959c and iterating the bytes of "deadbeef" reads back 0xcd4f3b6f56d93515 |
| SerialList.Upgrade | src/io/luxor_file.rs:235-237 | An upgrade succeeds exactly for a serial with strong references, and yields its key |
| SerialList.Compare | src/io/luxor_file.rs:236 | `partial_cmp(..).unwrap()` on keys: `Less`, `Equal` or `Greater` exactly as the keys compare |
| SerialList.SortOrderingIsRankOrder | src/io/luxor_file.rs:286-291 | The sort closure compares ranks: live serials by key, every expired one after every live one |
| SerialList.Insert | src/io/luxor_file.rs:284-291 | Inserting adds exactly the new entry to the multiset of entries |
| SerialList.SortBy | src/io/luxor_file.rs:286-291 | The sort is a permutation of the list |
| SerialList.InsertSorted | src/io/luxor_file.rs:286-291 | Inserting into a list sorted by rank keeps it sorted |
| SerialList.SortedCons | src/io/luxor_file.rs:286-291 | An entry ranked no higher than a sorted list can head it |
| SerialList.SortBySorted | src/io/luxor_file.rs:222-223 | The sorted list is ordered by key, with expired entries last |
| SerialList.InsertAtEnd | src/io/luxor_file.rs:284-291 | An entry ranked at least as high as every entry is placed last |
| SerialList.SortByKeepsSorted | src/io/luxor_file.rs:284-291 | The sort is stable: a list already sorted comes out unchanged |
| SerialList.InsertStrictlySorted | src/io/luxor_file.rs:284-291 | Inserting a live serial with a new key into strictly sorted live entries keeps them strictly sorted and live |
| SerialList.StrictlySortedCons | src/io/luxor_file.rs:284-291 | A live entry ranked below every entry of a strictly sorted live list can head it |
| SerialList.LastExpired | src/io/luxor_file.rs:309 | `rposition`: the found entry is expired and every later one is live; `None` means every entry is live |
| SerialList.RemoveAt | src/io/luxor_file.rs:311 | `Vec::remove`: exactly the entry at the index leaves, and the others keep their order |
| SerialList.FindLive | src/io/luxor_file.rs:228-229 | The reference lookup: a returned index upgrades to the key; `None` means no entry does |
| SerialList.SearchBy | src/io/luxor_file.rs:233-238 | `binary_search_by`: `Ok` at an index that compares `Equal`, else `Err` with an insertion point inside the range |
| SerialList.SearchByLessBefore | src/io/luxor_file.rs:233-238 | On monotone comparisons, everything before the insertion point of a failed search compares `Less` |
| SerialList.SearchByGreaterFrom | src/io/luxor_file.rs:233-238 | On monotone comparisons, everything from the insertion point of a failed search compares `Greater` |
| SerialList.Lookup | src/io/luxor_file.rs:230-244 | `find_existing_serial`: a found serial is listed and upgrades to the key |
| SerialList.LookupOrderingsMonotone | src/io/luxor_file.rs:235-238 | On live entries with strictly increasing keys, the closure's comparisons go `Less`, then `Equal`, then `Greater` |
| SerialList.LookupCorrect | src/io/luxor_file.rs:228-244 | On live entries with strictly increasing keys, the lookup finds a serial exactly when one is live under the key, and it is that serial |
| SerialList.LookupMissesBehindExpired | src/io/luxor_file.rs:235-238 | On a sorted list holding an expired entry after a live key, the lookup misses that key |
| SerialList.StrictlySortedDistinct | src/io/luxor_file.rs:222-223 | A list sorted strictly by key holds no entry twice |
| SerialList.RecountKeepsRegistered | src/io/luxor_file.rs:240-243 | Changing a live serial's strong count, while it stays positive, keeps the registry invariant |
| SerialList.RegisteredKeyFound | src/io/luxor_file.rs:228-244 | Under the invariant, every live serial is the one found under its key |
| SerialList.InsertKeepsRegistered | src/io/luxor_file.rs:275-293 | Pushing a new serial with an unused key and re-sorting is the same as inserting it in key order, and keeps the invariant with the next identity advanced |
| SerialList.NewSerialKeepsOrder | src/io/luxor_file.rs:275-285 | A new serial with a fresh identity and an unused key leaves the existing entries live, ordered and with keys different from its own |
| SerialList.RemoveAtKeepsOrder | src/io/luxor_file.rs:309-312 | Removing one entry keeps the others live and strictly sorted, and drops that entry |
| SerialList.ExpiredIsLast | src/io/luxor_file.rs:307-309 | When a registered serial's last strong reference goes, its entry is the last expired one |
| SerialList.RemoveAtKeepsOthers | src/io/luxor_file.rs:309-312 | Removing an expired entry keeps an entry for every live serial |
| SerialList.ReleaseLastKeepsRegistered | src/io/luxor_file.rs:299-318 | When the last strong reference goes, `Drop` finds exactly that serial's entry, and removing it restores the invariant |
| Registry.BinarySearchBy | src/io/luxor_file.rs:233-238 | The search loop computes `SearchBy` over the whole list |
| Registry.SerialRegistry.constructor | src/io/luxor_file.rs:225-226 | The registry starts empty and satisfies its invariant |
| Registry.SerialRegistry.FindExisting | src/io/luxor_file.rs:230-244 | Returns the lookup's result; a found serial gains one strong reference and nothing else changes |
| Registry.SerialRegistry.Find | src/io/luxor_file.rs:257-296 | A failed key resolution is classified and changes nothing. A key with a live serial returns that serial with one more strong reference. Any other key gets a new serial with strong count 1, inserted in key order. The invariant holds and every live serial stays live with its key |
| Registry.SerialRegistry.Allocate | src/io/luxor_file.rs:275-293 | The new serial takes the next identity with strong count 1, and the list becomes the pushed list sorted, which equals insertion in key order |
| Registry.SerialRegistry.DropSerial | src/io/luxor_file.rs:301-318 | Removes the last expired entry when there is one, else leaves the list as it is |
| Registry.SerialRegistry.Release | src/io/luxor_file.rs:299-318 | The strong count drops by one. At zero, exactly that serial's entry leaves the list. The invariant holds |
| Registry.Open | src/io/luxor_file.rs:52-69 | A failed absolute path or open returns that error with the registry unchanged; a failed key resolution returns the classified error with the registry unchanged. Otherwise the file carries the absolute path and the descriptor, and the serial is what `find` gives: a live serial of the key reused with one more strong reference and the list and next identity unchanged, or else a new serial at the next identity with strong count 1, pushed and sorted into key order. Every serial live before stays live with its key |
| Registry.FindMissingPath | src/io/luxor_file.rs:325-332 | Finding the serial of a missing path fails with `FileNotFoundError` |
| Registry.FindOnce | src/io/luxor_file.rs:334-346 | The first find of a key holds exactly one strong reference |
| Registry.FindTwiceThenRelease | src/io/luxor_file.rs:348-363 | Two finds of one key share a serial with two strong references; releasing them leaves one, then none and an empty list |
| Registry.FindOther | src/io/luxor_file.rs:373-374 | Finding another key gives a different live serial and leaves the first one live with its key |
| Registry.DropOther | src/io/luxor_file.rs:373-374 | Dropping another serial leaves the first one live with its key |
| Registry.FindFromMultiple | src/io/luxor_file.rs:365-380 | After two other keys are found and dropped, finding the first key again returns the first serial, with its key |

## Left out

- Locking: the `RwLock` and `Mutex` of each `FileSerial`, the `RwLock` around `SERIALS`, `LockableFile`/`FileRwLock` and the OS advisory locks. The model is sequential, so concurrent callers are not modelled.
- `Arc`/`Weak` reference counting itself. Each allocation is an identity in a heap that keeps its key and strong count. A weak reference is the identity, and memory is never reclaimed.
- `FileKeyResolver::resolve_file_key` (the inode lookup), `path::absolute` and `OpenOptions::open`. These are I/O, and their outcomes are parameters.
- `LuxorFile::path`, `size` and `sync`, and the `ReadableFile`/`WritableFile` traits. These are plain accessors and positioned I/O.
- `MemoryMappable::map_shared` and `MappedMemorySegment`. These are memory mapping, which is I/O.
- Trace events, `Debug` formatting and the `to_string` rendering of `AlignmentError`. The error carries the numbers themselves.
- The `FNV1aIterator` impls return the hasher for chaining. The methods here update it in place and return nothing.
- The standard library's sort algorithm. `sort_by` is stable, and with a total preorder every stable sort gives the same output, so it is modelled as insertion sort.
- Newer versions of `binary_search_by`. Rust 1.82 and later use a different loop, which may probe other indices.
- Mmap.New: requires a page size above 0, because the source's `%` by a zero page size panics. That panic is not modelled.
- Mmap.NewAligned: requires that both rounded values fit in 64 bits. The source's overflow in `next_multiple_of` (a panic in debug builds, wrap-around in release builds) is not modelled.
- Registry.FindFromMultiple: requires the second and third keys to differ from the first, as they do for distinct temporary files that exist at the same time.
- Registry.FindOther: states only what `FindFromMultiple` needs of it, not the whole new state that `Find` describes.
- Registry.DropOther: states only what `FindFromMultiple` needs of it, not the whole new state that `Release` describes.

## Findings

| source | as written | input that shows it | evidently intended | confidence | as-written member | corrected member |
|---|---|---|---|---|---|---|
| src/algo/search.rs:56 | `binary_search_internal(haystack, low, index - 1, ..)` with `usize` indices subtracts 1 from index 0 whenever the needle is below the first key, which underflows | keys 1, 3, 5, 7, 9 and needle 0: the search reaches index 0 with the middle key above the needle | the search returns `None` | not executed | Search.BinarySearchUnderflowExample | Search.BinarySearchExact |
