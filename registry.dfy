/**
 * The process-wide file-serial registry of src/io/luxor_file.rs (`SERIALS`, `FileSerial::find`,
 * `find_existing_serial` and `impl Drop for FileSerial`) and the order of the steps of
 * `LuxorFile::open`. The registry is one object whose list of weak references is sorted,
 * grown and shrunk in place; it is used sequentially here.
 */
module Registry {
  import opened Wrappers
  import opened MachineInts
  import opened IoErrors
  import opened SerialList

  /**
   * `slice::binary_search_by` as the loop of Rust 1.52 to 1.81, run over the comparisons the
   * closure gives for each element.
   */
  method BinarySearchBy(orderings: seq<Ordering>) returns (r: Result<nat, nat>)
    ensures r == SearchBy(orderings, 0, |orderings|)
  {
    var size := |orderings|;
    var left := 0;
    var right := size;
    while left < right
      invariant left <= right <= |orderings| && size == right - left
      invariant SearchBy(orderings, left, right) == SearchBy(orderings, 0, |orderings|)
      decreases size
    {
      var mid := left + size / 2;
      var cmp := orderings[mid];
      SearchByStep(orderings, left, right);
      left := if cmp == Less then mid + 1 else left;
      right := if cmp == Greater then mid else right;
      if cmp == Equal {
        return Ok(mid);
      }
      size := right - left;
    }
    return Err(left);
  }

  /** `SERIALS`: the list of weak references, and the serials they point at. */
  class SerialRegistry {
    /** The `Vec<Weak<FileSerial>>`, one serial identity per weak reference. */
    var entries: seq<SerialId>
    /** Every serial allocated so far, with its key and strong count. */
    var heap: Heap
    /** The identity the next allocated serial gets. */
    var nextId: SerialId

    /** The registry's invariant between calls (see `Registered`). */
    ghost predicate Valid()
      reads this
    {
      Registered(heap, entries, nextId)
    }

    /** `Vec::with_capacity(32)`: an empty list. */
    constructor ()
      ensures Valid() && entries == [] && heap == map[] && nextId == 0
    {
      entries := [];
      heap := map[];
      nextId := 0;
    }

    /**
     * `find_existing_serial`: binary-search the list with the lookup closure and upgrade the
     * entry found, which adds a strong reference to it.
     */
    method FindExisting(key: u64) returns (found: Option<SerialId>)
      requires Valid()
      modifies this
      ensures Valid()
      ensures found == Lookup(old(heap), old(entries), key)
      ensures entries == old(entries) && nextId == old(nextId)
      ensures found.Some? ==>
        heap == old(heap)[found.value := Serial(key, old(heap)[found.value].strong + 1)]
      ensures found.None? ==> heap == old(heap)
    {
      var orderings := LookupOrderings(heap, entries, key);
      var searched := BinarySearchBy(orderings);
      match searched
      case Ok(index) =>
        var id := entries[index];
        if Live(heap, id) {
          RecountKeepsRegistered(heap, entries, nextId, id, heap[id].strong + 1);
          heap := heap[id := Serial(heap[id].key, heap[id].strong + 1)];
          found := Some(id);
        } else {
          found := None;
        }
      case Err(_) =>
        found := None;
    }

    /**
     * `FileSerial::find`, given the outcome of resolving the path's key. A failed resolution
     * is classified and changes nothing. A key with a live serial yields that serial with one
     * more strong reference. Any other key gets a new serial with one strong reference,
     * pushed onto the list, which is then sorted again.
     */
    method Find(resolved: Result<u64, IoError>) returns (r: Result<SerialId, IOError>)
      requires Valid()
      modifies this
      ensures Valid()
      ensures resolved.Err? ==> r == Err(FromIoError(resolved.error)) && unchanged(this)
      ensures resolved.Ok? ==> r.Ok? && Upgrade(heap, r.value) == Some(resolved.value)
      ensures forall id :: Live(old(heap), id) ==> Live(heap, id) && heap[id].key == old(heap[id].key)
      ensures resolved.Ok? && old(FindLive(heap, entries, resolved.value)).Some? ==>
        var id := old(entries[FindLive(heap, entries, resolved.value).value]);
        r == Ok(id) && entries == old(entries) && nextId == old(nextId) &&
        heap == old(heap)[id := Serial(resolved.value, old(heap[id].strong) + 1)]
      ensures resolved.Ok? && old(FindLive(heap, entries, resolved.value)).None? ==>
        r == Ok(old(nextId)) && nextId == old(nextId) + 1 &&
        heap == old(heap)[old(nextId) := Serial(resolved.value, 1)] &&
        entries == SortBy(heap, old(entries) + [old(nextId)]) &&
        entries == Insert(heap, old(nextId), old(entries))
    {
      match resolved
      case Err(e) =>
        r := Err(FromIoError(e));
      case Ok(key) =>
        ghost var before := heap;
        LookupCorrect(heap, entries, key);
        var existing := FindExisting(key);
        match existing
        case Some(id) =>
          KeepsLive(before, id, key, before[id].strong + 1);
          r := Ok(id);
        case None =>
          var id := Allocate(key);
          KeepsLive(before, id, key, 1);
          r := Ok(id);
    }

    /**
     * The second half of `FileSerial::find`, for a key no live serial has: a new serial with
     * one strong reference, pushed onto the list, which is then sorted again.
     */
    method Allocate(key: u64) returns (id: SerialId)
      requires Valid() && FindLive(heap, entries, key).None?
      modifies this
      ensures Valid() && id == old(nextId) && nextId == old(nextId) + 1
      ensures heap == old(heap)[id := Serial(key, 1)]
      ensures entries == SortBy(heap, old(entries) + [id])
      ensures entries == Insert(heap, id, old(entries))
    {
      id := nextId;
      var grown := heap[id := Serial(key, 1)];
      var pushed := entries + [id];
      var sorted := SortBy(grown, pushed);
      assert sorted == Insert(grown, id, entries) && Registered(grown, sorted, id + 1) by {
        InsertKeepsRegistered(heap, entries, nextId, key, grown);
      }
      nextId := nextId + 1;
      heap := grown;
      entries := sorted;
    }

    /**
     * `impl Drop for FileSerial`: remove the last entry whose strong count is 0, or leave the
     * list as it is (and only log) when there is none.
     */
    method DropSerial() returns (removed: bool)
      modifies this
      ensures heap == old(heap) && nextId == old(nextId)
      ensures match LastExpired(old(heap), old(entries))
        case Some(i) => removed && entries == RemoveAt(old(entries), i)
        case None => !removed && entries == old(entries)
    {
      match LastExpired(heap, entries)
      case Some(index) =>
        entries := RemoveAt(entries, index);
        removed := true;
      case None =>
        removed := false;
    }

    /**
     * Dropping one `Arc<FileSerial>`: the strong count goes down by one, and when it reaches
     * 0 the serial's `Drop` takes exactly its entry out of the list.
     */
    method Release(id: SerialId) returns (removed: bool)
      requires Valid() && Live(heap, id)
      modifies this
      ensures Valid()
      ensures nextId == old(nextId)
      ensures heap == old(heap)[id := Serial(old(heap[id].key), old(heap[id].strong) - 1)]
      ensures old(heap[id].strong) > 1 ==> !removed && entries == old(entries)
      ensures old(heap[id].strong) == 1 ==>
        removed && id !in entries &&
        exists i :: 0 <= i < |old(entries)| && old(entries)[i] == id &&
          entries == RemoveAt(old(entries), i)
    {
      var serial := heap[id];
      if serial.strong == 1 {
        ghost var at := ReleaseLastKeepsRegistered(heap, entries, nextId, id);
        heap := heap[id := Serial(serial.key, serial.strong - 1)];
        removed := DropSerial();
      } else {
        RecountKeepsRegistered(heap, entries, nextId, id, serial.strong - 1);
        heap := heap[id := Serial(serial.key, serial.strong - 1)];
        removed := false;
      }
    }
  }

  /** A path, and the OS file descriptor `OpenOptions::open` yields. */
  type Path = string
  type FileDescriptor = nat

  /** `LuxorFile`: its absolute path, its shared serial and its file. */
  datatype LuxorFile = LuxorFile(path: Path, serial: SerialId, file: FileDescriptor)

  /** What `LuxorFile::open` propagates: a standard I/O error, or the serial's `IOError`. */
  datatype OpenError = IoFailure(io: IoError) | SerialFailure(cause: IOError)

  /**
   * `LuxorFile::open`, given the outcomes of `path::absolute`, of opening the file and of
   * resolving its key. The file is opened before the serial is looked up, so a failure of
   * either earlier step leaves the registry untouched.
   */
  method Open(
    registry: SerialRegistry,
    absolute: Result<Path, IoError>,
    descriptor: Result<FileDescriptor, IoError>,
    resolved: Result<u64, IoError>
  ) returns (r: Result<LuxorFile, OpenError>)
    requires registry.Valid()
    modifies registry
    ensures registry.Valid()
    ensures absolute.Err? ==> r == Err(IoFailure(absolute.error)) && unchanged(registry)
    ensures absolute.Ok? && descriptor.Err? ==>
      r == Err(IoFailure(descriptor.error)) && unchanged(registry)
    ensures absolute.Ok? && descriptor.Ok? && resolved.Err? ==>
      r == Err(SerialFailure(FromIoError(resolved.error))) && unchanged(registry)
    ensures absolute.Ok? && descriptor.Ok? && resolved.Ok? ==>
      r.Ok? && r.value.path == absolute.value && r.value.file == descriptor.value &&
      Upgrade(registry.heap, r.value.serial) == Some(resolved.value)
    ensures forall id :: Live(old(registry.heap), id) ==>
      Live(registry.heap, id) && registry.heap[id].key == old(registry.heap[id].key)
    ensures (absolute.Ok? && descriptor.Ok? && resolved.Ok? &&
             old(FindLive(registry.heap, registry.entries, resolved.value)).Some?) ==>
        var id := old(registry.entries[FindLive(registry.heap, registry.entries, resolved.value).value]);
        r.Ok? && r.value.serial == id &&
        registry.entries == old(registry.entries) && registry.nextId == old(registry.nextId) &&
        registry.heap == old(registry.heap)[id := Serial(resolved.value, old(registry.heap[id].strong) + 1)]
    ensures (absolute.Ok? && descriptor.Ok? && resolved.Ok? &&
             old(FindLive(registry.heap, registry.entries, resolved.value)).None?) ==>
        r.Ok? && r.value.serial == old(registry.nextId) &&
        registry.nextId == old(registry.nextId) + 1 &&
        registry.heap == old(registry.heap)[old(registry.nextId) := Serial(resolved.value, 1)] &&
        registry.entries == SortBy(registry.heap, old(registry.entries) + [old(registry.nextId)]) &&
        registry.entries == Insert(registry.heap, old(registry.nextId), old(registry.entries))
  {
    if absolute.Err? {
      return Err(IoFailure(absolute.error));
    }
    var absPath := absolute.value;
    if descriptor.Err? {
      return Err(IoFailure(descriptor.error));
    }
    var data := descriptor.value;
    var serial := registry.Find(resolved);
    if serial.Err? {
      assert resolved.Err?;
      return Err(SerialFailure(serial.error));
    }
    return Ok(LuxorFile(absPath, serial.value, data));
  }

  /** `find_serial_of_non_existing_path`: a missing path is a `FileNotFoundError`. */
  method FindMissingPath(detail: string) returns (r: Result<SerialId, IOError>)
    ensures r.Err? && r.error.FileNotFoundError?
  {
    var registry := new SerialRegistry();
    r := registry.Find(Err(IoError(ErrorKind.NotFound, detail)));
  }

  /** `find_serial_of_existing_path`: the first find of a key holds the only strong reference. */
  method FindOnce(key: u64) returns (strong: nat)
    ensures strong == 1
  {
    var registry := new SerialRegistry();
    var found := registry.Find(Ok(key));
    strong := registry.heap[found.value].strong;
  }

  /**
   * `find_serial_twice`, continued: two finds of one key share one serial with two strong
   * references; releasing them one by one leaves one, then takes the entry out.
   */
  method FindTwiceThenRelease(key: u64)
    returns (first: SerialId, second: SerialId, afterTwo: nat, afterRelease: nat, left: nat)
    ensures first == second && afterTwo == 2 && afterRelease == 1 && left == 0
  {
    var registry := new SerialRegistry();
    var a := registry.Find(Ok(key));
    first := a.value;
    var b := registry.Find(Ok(key));
    second := b.value;
    afterTwo := registry.heap[first].strong;
    var removed := registry.Release(first);
    afterRelease := registry.heap[first].strong;
    removed := registry.Release(first);
    left := |registry.entries|;
  }

  /**
   * `FileSerial::find` of a key other than that of the live serial `keep`: a serial of that
   * key, which is not `keep`, and `keep` stays live with its key.
   */
  method FindOther(registry: SerialRegistry, key: u64, keep: SerialId) returns (id: SerialId)
    requires registry.Valid() && Live(registry.heap, keep) && registry.heap[keep].key != key
    modifies registry
    ensures registry.Valid() && Live(registry.heap, id) && id != keep
    ensures Upgrade(registry.heap, keep) == Some(old(registry.heap[keep].key))
  {
    var found := registry.Find(Ok(key));
    id := found.value;
  }

  /** Dropping the last `Arc` of a serial other than `keep`, which stays live with its key. */
  method DropOther(registry: SerialRegistry, id: SerialId, keep: SerialId)
    requires registry.Valid() && Live(registry.heap, id) && Live(registry.heap, keep) && id != keep
    modifies registry
    ensures registry.Valid() && Upgrade(registry.heap, keep) == Some(old(registry.heap[keep].key))
  {
    var removed := registry.Release(id);
  }

  /**
   * `find_serial_from_multiple`: the first key is found again after two other keys have been
   * found, each of whose serials is dropped at once. The three paths are distinct temporary
   * files that exist together, so their keys differ from the first.
   */
  method FindFromMultiple(one: u64, two: u64, three: u64)
    returns (first: SerialId, again: SerialId, key: u64)
    requires one != two && one != three
    ensures again == first && key == one
  {
    var registry := new SerialRegistry();
    var a := registry.Find(Ok(one));
    first := a.value;
    var second := FindOther(registry, two, first);
    DropOther(registry, second, first);
    var third := FindOther(registry, three, first);
    DropOther(registry, third, first);
    RegisteredKeyFound(registry.heap, registry.entries, registry.nextId, first);
    var d := registry.Find(Ok(one));
    again := d.value;
    key := registry.heap[again].key;
  }
}
