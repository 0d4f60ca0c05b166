/**
 * The representation layer of the small-buffer-optimised string: the sizes of
 * the two layouts that share the `Sos` union, the limits on length and
 * capacity, and the status codes returned by every fallible operation.
 *
 * The model takes the little-endian 64-bit layout: size_t and pointers are
 * eight bytes wide.
 */
module SosLayout {

  /** Bytes in a size_t and in a pointer. */
  const WordBytes: nat := 8

  /** sizeof(_sos_long): the `cap`, `len` and `data` words. */
  const LongRecordBytes: nat := 3 * WordBytes

  /** SOS_SBO_BUFSIZE: the inline array fills the long record but for the length byte. */
  const SboBufSize: nat := LongRecordBytes - 1

  /** sizeof(_sos_short): the length byte followed by the inline array. */
  const ShortRecordBytes: nat := 1 + SboBufSize

  /** UCHAR_MAX, the largest value of the short length byte. */
  const UCharMax: nat := 255

  /** SIZE_MAX */
  const SizeMax: nat := 0xFFFF_FFFF_FFFF_FFFF

  /** SOS_MAX_LEN: room for the terminator and for rounding the capacity up to odd. */
  const SosMaxLen: nat := SizeMax - 2

  /** SOS_MAX_LEN_FOR_EXPAND: the largest capacity that can still be doubled. */
  const SosMaxLenForExpand: nat := (SosMaxLen - 1) / 2

  /** The return codes SOS_OK, SOS_ERROR_ALLOC and SOS_ERROR_MAX_CAP. */
  datatype Status = Ok | ErrorAlloc | ErrorMaxCap {
    /** The integer the C enum gives each code. */
    function Code(): (n: int)
      ensures 0 <= n <= 2
      ensures n == 0 <==> this == Ok
    {
      match this
      case Ok => 0
      case ErrorAlloc => 1
      case ErrorMaxCap => 2
    }
  }

  /**
   * The short layout has exactly the footprint of the long one, the short
   * length code 2*len of the longest inline content fits its byte, the
   * inline size is below the fixed starting capacity 31 used by push, and
   * SOS_MAX_LEN is odd so that it is itself a legal long capacity.
   */
  lemma LayoutFacts()
    ensures ShortRecordBytes == LongRecordBytes
    ensures SboBufSize == 23
    ensures 2 * (SboBufSize - 1) <= UCharMax && SboBufSize < 32
    ensures SosMaxLen % 2 == 1 && 2 * SosMaxLenForExpand + 1 <= SosMaxLen
  {
  }
}
