/**
 * The capacity decisions of sos.c as pure functions on numbers: rounding a
 * capacity up to odd, the choice between the inline and the heap layout for
 * a requested capacity, the push growth policy and the capacity an
 * overflowing short-mode append promotes to.
 */
module SosPolicy {
  import opened SosLayout

  /** `c | 1u`: the least odd number that is at least c. */
  function OrOne(c: nat): (r: nat)
    ensures r % 2 == 1 && c <= r <= c + 1
  {
    if c % 2 == 0 then c + 1 else c
  }

  /** Rounding up to odd keeps every value up to SOS_MAX_LEN within SOS_MAX_LEN. */
  lemma OrOneWithinMaxLen(c: nat)
    requires c <= SosMaxLen
    ensures OrOne(c) <= SosMaxLen
  {
    LayoutFacts();
  }

  /** size_t addition, which wraps around at SIZE_MAX + 1. */
  function SizeAdd(a: nat, b: nat): (r: nat)
    requires a <= SizeMax && b <= SizeMax
    ensures r <= SizeMax
    ensures a + b <= SizeMax ==> r == a + b
    ensures a + b > SizeMax ==> r == a + b - (SizeMax + 1)
  {
    (a + b) % (SizeMax + 1)
  }

  /**
   * The guard `cap + 1 > SOS_SBO_BUFSIZE` of sos_init_with_cap and
   * sos_reserve as the C code evaluates it, in size_t arithmetic.
   */
  predicate NeedsHeapAsWritten(cap: nat)
    requires cap <= SizeMax
    ensures NeedsHeapAsWritten(cap) <==> cap < SizeMax && NeedsHeap(cap)
  {
    SizeAdd(cap, 1) > SboBufSize
  }

  /** The same guard in unbounded arithmetic: the request does not fit inline with its terminator. */
  predicate NeedsHeap(cap: nat)
  {
    cap + 1 > SboBufSize
  }

  /** The written guard decides like the intended one for every request but SIZE_MAX. */
  lemma NeedsHeapAgreesBelowSizeMax(cap: nat)
    requires cap < SizeMax
    ensures NeedsHeapAsWritten(cap) == NeedsHeap(cap)
  {
  }

  /**
   * At cap == SIZE_MAX the written guard wraps to 0 and keeps the string
   * inline, so sos_init_with_cap reports SOS_OK with capacity 22 for a
   * request of SIZE_MAX.
   */
  lemma NeedsHeapAsWrittenWrapsAtSizeMax()
    ensures !NeedsHeapAsWritten(SizeMax)
    ensures NeedsHeap(SizeMax)
    ensures SboBufSize - 1 < SizeMax
  {
  }

  /** The capacity sos_init_with_cap gives for a request, with the intended guard. */
  function WithCapCapacity(cap: nat): (r: nat)
    ensures r >= cap
    ensures NeedsHeap(cap) ==> r % 2 == 1 && r <= cap + 1
    ensures !NeedsHeap(cap) ==> r == SboBufSize - 1
  {
    if NeedsHeap(cap) then OrOne(cap) else SboBufSize - 1
  }

  /**
   * The capacity sos_push grows a full long string of capacity cap to: double
   * plus one with a floor of 31, or SOS_MAX_LEN once doubling would pass it.
   */
  function PushGrowth(cap: nat): (r: nat)
    requires cap % 2 == 1 && cap < SosMaxLen
    ensures r % 2 == 1
    ensures cap < r <= SosMaxLen
    ensures r >= 31
    ensures r == SosMaxLen || r >= 2 * cap + 1
  {
    if cap > SosMaxLenForExpand then SosMaxLen
    else if cap * 2 + 1 < 31 then 31
    else cap * 2 + 1
  }

  /** The capacity a short-mode append of count bytes promotes to when it overflows the inline buffer. */
  function AppendPromoteCap(len: nat, count: nat): (r: nat)
    requires len < SboBufSize && SboBufSize + count <= SosMaxLen
    ensures r % 2 == 1 && len + count < r <= SosMaxLen
  {
    OrOneWithinMaxLen(SboBufSize + count);
    OrOne(SboBufSize + count)
  }

  /**
   * The capacity of a string after k pushes onto an empty short string, with
   * every allocation succeeding: 22 while it stays inline, 31 after the push
   * that fills the inline buffer, then PushGrowth each time it is full.
   */
  function CapAfterPushes(k: nat): (r: nat)
    requires k <= SosMaxLen
    ensures k <= r <= SosMaxLen
    ensures k < SboBufSize ==> r == SboBufSize - 1
    ensures k >= SboBufSize ==> r % 2 == 1 && r >= 31
  {
    if k == 0 then SboBufSize - 1
    else
      var c := CapAfterPushes(k - 1);
      if k - 1 < c then c
      else if k - 1 == SboBufSize - 1 then 31
      else PushGrowth(c)
  }

  /**
   * Push-driven growth is geometric: when a push finds a promoted string full,
   * the capacity at least doubles, unless it jumps to SOS_MAX_LEN.
   */
  lemma {:induction false} CapAfterPushesDoubles(k: nat)
    requires SboBufSize <= k < SosMaxLen
    requires CapAfterPushes(k) == k
    ensures CapAfterPushes(k + 1) == SosMaxLen || CapAfterPushes(k + 1) >= 2 * k + 1
  {
    assert CapAfterPushes(k + 1) == PushGrowth(k);
  }

  /** Pushing never lowers the capacity. */
  lemma {:induction false} CapAfterPushesMonotone(j: nat, k: nat)
    requires j <= k <= SosMaxLen
    ensures CapAfterPushes(j) <= CapAfterPushes(k)
  {
    if j < k {
      CapAfterPushesMonotone(j, k - 1);
    }
  }
}
