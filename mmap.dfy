/**
 * Page-aligned file regions (src/fs/mmap.rs): the page-size fallback and the two
 * constructors of `AlignedFileRegion`. The page size is a parameter `ps` of every
 * constructor: the value `sys_page_size` answers when that constructor queries it afresh.
 */
module Mmap {
  import opened Wrappers
  import opened MachineInts

  /** `FALLBACK_MEM_PAGE_SIZE`. */
  const FALLBACK_MEM_PAGE_SIZE: usize := 4096

  /** What `sysconf(_SC_PAGE_SIZE)` answered: a value, "not supported", or an errno. */
  datatype SysconfAnswer = Value(value: i64) | Unsupported | Failed(errno: int)

  /** `sys_page_size`: the answer of `sysconf` cast to `usize`, or the fallback when there is none. */
  function SysPageSize(answer: SysconfAnswer): (ps: usize)
    ensures answer.Value? && answer.value >= 0 ==> ps == answer.value
    ensures answer.Value? && answer.value < 0 ==> ps == answer.value + U64_LIMIT
    ensures !answer.Value? ==> ps == FALLBACK_MEM_PAGE_SIZE && ps > 0
  {
    match answer
    case Value(v) => if v >= 0 then v else v + U64_LIMIT
    case Unsupported => FALLBACK_MEM_PAGE_SIZE
    case Failed(_) => FALLBACK_MEM_PAGE_SIZE
  }

  /** An (offset, length) pair meant for memory mapping. */
  datatype AlignedFileRegion = AlignedFileRegion(offset: u64, length: usize)

  /**
   * `LuxorError::AlignmentError`: the offending value and the required alignment
   * (the source renders both with `to_string`).
   */
  datatype LuxorError = AlignmentError(value: nat, alignment: nat)

  predicate IsAligned(x: nat, ps: nat)
    requires ps > 0
  {
    x % ps == 0
  }

  /**
   * `AlignedFileRegion::new`: accepts exactly the aligned pairs, unchanged; the offset
   * is checked before the length, so a pair misaligned in both reports the offset.
   */
  function New(ps: usize, offset: u64, length: usize): (r: Result<AlignedFileRegion, LuxorError>)
    requires ps > 0
    ensures r.Ok? <==> IsAligned(offset, ps) && IsAligned(length, ps)
    ensures r.Ok? ==> r.value == AlignedFileRegion(offset, length)
    ensures !IsAligned(offset, ps) ==> r == Err(AlignmentError(offset, ps))
    ensures IsAligned(offset, ps) && !IsAligned(length, ps) ==> r == Err(AlignmentError(length, ps))
  {
    if offset % ps != 0 then
      Err(AlignmentError(offset, ps))
    else if length % ps != 0 then
      Err(AlignmentError(length, ps))
    else
      Ok(AlignedFileRegion(offset, length))
  }

  /**
   * `next_multiple_of`: the least multiple of `ps` that is at least `x`. Unbounded here;
   * callers keep the result below 2^64.
   */
  function NextMultipleOf(x: nat, ps: nat): (m: nat)
    requires ps > 0
    ensures IsAligned(m, ps)
    ensures x <= m < x + ps
    ensures m == x <==> IsAligned(x, ps)
  {
    var rem := x % ps;
    if rem == 0 then x
    else
      MultipleIsAligned(x / ps + 1, ps);
      x + (ps - rem)
  }

  lemma MultipleIsAligned(j: nat, ps: nat)
    requires ps > 0
    ensures IsAligned(j * ps, ps)
  {
    var a := j * ps;
    var d := j - a / ps;
    assert a % ps == ps * d;
    if d >= 1 {
      MulMonotone(1, d, ps);
    } else if d <= -1 {
      MulMonotone(1, -d, ps);
    }
  }

  /** No multiple of `ps` lies between `x` and `NextMultipleOf(x, ps)`. */
  lemma NextMultipleIsLeast(x: nat, ps: nat, k: nat)
    requires ps > 0
    requires IsAligned(k, ps) && x <= k
    ensures NextMultipleOf(x, ps) <= k
  {
    var q, rem := x / ps, x % ps;
    if rem != 0 {
      var j := k / ps;
      assert k == j * ps;
      assert x == q * ps + rem;
      assert q * ps < j * ps;
      if j <= q {
        MulMonotone(j, q, ps);
        assert false;
      }
      assert j >= q + 1;
      MulMonotone(q + 1, j, ps);
      assert NextMultipleOf(x, ps) == (q + 1) * ps;
    }
  }

  lemma MulMonotone(a: nat, b: nat, c: nat)
    requires a <= b
    ensures a * c <= b * c
  {
  }

  /**
   * `AlignedFileRegion::new_aligned`: each input rounded up to a multiple of the page size.
   * The source's `next_multiple_of` overflows above the last multiple below 2^64, hence
   * the two requires.
   */
  function NewAligned(ps: usize, minOffset: u64, minLength: usize): (r: AlignedFileRegion)
    requires ps > 0
    requires NextMultipleOf(minOffset, ps) < U64_LIMIT
    requires NextMultipleOf(minLength, ps) < U64_LIMIT
    ensures IsAligned(r.offset, ps) && minOffset <= r.offset < minOffset + ps
    ensures IsAligned(r.length, ps) && minLength <= r.length < minLength + ps
    ensures r.offset == minOffset <==> IsAligned(minOffset, ps)
    ensures r.length == minLength <==> IsAligned(minLength, ps)
  {
    AlignedFileRegion(NextMultipleOf(minOffset, ps), NextMultipleOf(minLength, ps))
  }

  /** Rounding an aligned region again changes nothing. */
  lemma NewAlignedIdempotent(ps: usize, minOffset: u64, minLength: usize)
    requires ps > 0
    requires NextMultipleOf(minOffset, ps) < U64_LIMIT
    requires NextMultipleOf(minLength, ps) < U64_LIMIT
    ensures var r := NewAligned(ps, minOffset, minLength);
            NewAligned(ps, r.offset, r.length) == r
  {
  }

  /** Every region `new_aligned` builds is one that `new` accepts with the same values. */
  lemma NewAcceptsNewAligned(ps: usize, minOffset: u64, minLength: usize)
    requires ps > 0
    requires NextMultipleOf(minOffset, ps) < U64_LIMIT
    requires NextMultipleOf(minLength, ps) < U64_LIMIT
    ensures var r := NewAligned(ps, minOffset, minLength);
            New(ps, r.offset, r.length) == Ok(r)
  {
  }

  /** `new_aligned` and `new` agree on aligned inputs. */
  lemma NewAlignedOnAlignedInput(ps: usize, offset: u64, length: usize)
    requires ps > 0
    requires New(ps, offset, length).Ok?
    ensures NextMultipleOf(offset, ps) < U64_LIMIT && NextMultipleOf(length, ps) < U64_LIMIT
    ensures NewAligned(ps, offset, length) == New(ps, offset, length).value
  {
  }

  /** The no-overflow requires of `NewAligned` is needed: the largest offset has no next multiple below 2^64. */
  lemma NewAlignedOverflowsAtTop()
    ensures NextMultipleOf(U64_LIMIT - 1, FALLBACK_MEM_PAGE_SIZE) == U64_LIMIT
  {
  }
}
