# Sos: a small-buffer-optimised string, modelled in Dafny

`Sos` is a C string container that keeps short contents inside the object and
moves longer ones to the heap. Both layouts share one machine word. In short
mode that word is the length byte, which holds `2*len`, followed by an inline
array of `SOS_SBO_BUFSIZE` bytes. In long mode it is `cap`, which is always odd,
followed by `len` and the heap pointer `data`. Bit 0 of the word therefore
tells the modes apart. The buffer always holds the content followed by a NUL.

The model takes the little-endian 64-bit layout: `SOS_SBO_BUFSIZE` is 23, a
short string holds at most 22 bytes, and `SIZE_MAX` is 2^64 - 1.

Modules:

- `SosLayout` (`sos_layout.dfy`) holds the sizes and limits of the two
  layouts and the status codes.
- `CStrings` (`cstrings.dfy`) holds NUL-terminated text: `strlen`, the text a
  C string denotes, and ASCII `tolower`.
- `SosPolicy` (`sos_policy.dfy`) holds the capacity decisions as pure
  functions: rounding up to odd, inline versus heap, push growth, and the
  capacity of an overflowing append.
- `SosString` (`sos.dfy`) holds the class `Sos` with every operation of
  `sos.c`. The fields are `word`, `len`, `data` and `inline`, plus a ghost
  `content`. `Valid()` is the representation invariant:
  - the mode follows bit 0 of `word`;
  - a long `cap` is odd and at most `SOS_MAX_LEN`;
  - the heap buffer is `cap + 1` bytes long, `len <= cap`, and `data[len]` is NUL;
  - a short length is at most 22, with a NUL at `inline[len]`.

  `data` is a Dafny array, so it is never null.
- `SosClients` (`sos_clients.dfy`) holds callers written against the
  contracts alone: the demo program, the push loop of the length test, the
  copy counterexample, and the round trips between operations.

`malloc` and `realloc` take a flag `allocOk` that says whether the allocation
succeeds. A successful allocation yields a fresh array. A `const char*`
argument is modelled by the characters it addresses, a `seq<char>` containing
a NUL. Uninitialised storage, `Sos s;`, is the constructor `Sos.Declare`; the
`sos_init*` functions are methods that make it valid. `is_long` is the
predicate `Sos.IsLong`, and the layout invariants of sos.h are `Sos.Valid`.

Two places where the code is not taken at its word:

- `sos_init_by_copy` copies `sizeof(rhs)` bytes, which is the size of a
  pointer, not of a `Sos`. The lines after that copy (sos.c:267-273) allocate
  `cap + 1` bytes and copy `len + 1` bytes of the source's heap buffer, which
  only makes sense after the whole record has been copied, so `sizeof(*rhs)`
  was meant. Both versions are modelled; see Findings.
- `sos.h` declares `sos_size`, `sos_copy` and `sos_move`, but `sos.c` defines
  `sos_len`, `sos_init_by_copy` and `sos_init_by_move`. The model uses the
  `sos.c` names.

## Model

| member | source | states |
|---|---|---|
| SosLayout.Status.Code | sos.h:49-54 | SOS_OK is 0 and the error codes are 1 and 2; the code is 0 exactly for Ok |
| SosLayout.LayoutFacts | sos.h:21-47 | the short layout has the footprint of the long record; SOS_SBO_BUFSIZE is 23; 2*22 fits the length byte; 23 < 32; SOS_MAX_LEN is odd; doubling SOS_MAX_LEN_FOR_EXPAND plus one stays within SOS_MAX_LEN |
| CStrings.StrLen | sos.c:72 | strlen: the index of a NUL with no NUL before it |
| CStrings.TextOfTerminated | sos.c:72-74 | a NUL-free text followed by a terminator has strlen equal to its length and denotes itself |
| CStrings.Lower | sos.c:322 | ASCII tolower: NUL stays NUL and nothing else maps to NUL, maps no byte to an upper-case letter, fixes lower-case letters |
| CStrings.FoldConcat | sos.c:321-322 | folding a concatenation folds each part |
| CStrings.FoldText | sos.c:321-324 | folding keeps the first NUL where it was, so the folded text is the text of the folded characters |
| SosPolicy.OrOne | sos.c:56 | cap with bit 0 set is odd and is cap or cap + 1 |
| SosPolicy.OrOneWithinMaxLen | sos.c:10 | rounding a value up to SOS_MAX_LEN up to odd stays within SOS_MAX_LEN |
| SosPolicy.NeedsHeapAsWritten | sos.c:55 | the guard as the C code evaluates it holds exactly when cap is below SIZE_MAX and cap + 1 exceeds the inline buffer |
| SosPolicy.SizeAdd | sos.c:55 | size_t addition: the sum when it fits, the sum minus 2^64 when it does not |
| SosPolicy.NeedsHeapAgreesBelowSizeMax | sos.c:55 | the size_t guard `cap + 1 > SOS_SBO_BUFSIZE` decides like the unbounded one for every cap below SIZE_MAX |
| SosPolicy.NeedsHeapAsWrittenWrapsAtSizeMax | sos.c:55 | at cap == SIZE_MAX the size_t guard is false while the intended one is true, and 22 < SIZE_MAX |
| SosPolicy.WithCapCapacity | sos.c:55-65 | the capacity for a request is at least the request; on the heap it is odd and at most request + 1, inline it is 22 |
| SosPolicy.PushGrowth | sos.c:163-171 | the growth of a full long string is odd, exceeds the old cap, is at least 31 and at most SOS_MAX_LEN, and is SOS_MAX_LEN or at least 2*cap + 1 |
| SosPolicy.AppendPromoteCap | sos.c:230 | SOS_SBO_BUFSIZE + count with bit 0 set is odd, holds len + count with room for the terminator, and is within SOS_MAX_LEN |
| SosPolicy.CapAfterPushes | sos.c:158-199 | after k pushes onto an empty string the capacity is at least k and at most SOS_MAX_LEN; it is 22 while k < 23, odd and at least 31 after |
| SosPolicy.CapAfterPushesDoubles | sos.c:163-171 | when a promoted string is full, the next push at least doubles the capacity or jumps to SOS_MAX_LEN |
| SosPolicy.CapAfterPushesMonotone | sos.c:158-199 | pushing never lowers the capacity |
| SosString.CopyInto | sos.c:225 | memcpy: the copied range equals the source and the bytes on either side are unchanged |
| SosString.AllocCopy | sos.c:119-123 | malloc then memcpy: a fresh buffer of the given size starting with the source bytes |
| SosString.Realloc | sos.c:136 | a successful realloc: a fresh buffer of the new size holding the old bytes |
| SosString.Sos.IsLong | sos.c:13-17 | is_long: bit 0 of the shared word |
| SosString.Sos.Valid | sos.h:13-47 | the mode follows bit 0; a long cap is odd and within SOS_MAX_LEN, its buffer is cap + 1 long with len <= cap and a NUL at len; a short length is at most 22 with a NUL after it |
| SosString.Sos.Declare | sos.h:42-47 | `Sos s;`: storage with an inline array of 23 and a buffer distinct from it, holding no valid string yet |
| SosString.Sos.ModeFromCapParity | sos.c:27-33 | is_long agrees with the parity of sos_cap, and a short length byte is twice the length |
| SosString.Sos.Len | sos.c:19-25 | sos_len is the length of the content; in short mode the length byte is twice it |
| SosString.Sos.Cap | sos.c:27-33 | sos_cap is between the length and SOS_MAX_LEN; in long mode it is the odd shared word, in short mode 22 |
| SosString.Sos.Str | sos.c:35-38 | sos_str addresses the content followed by its terminator |
| SosString.Sos.BufferHoldsCap | sos.c:10 | in both modes the buffer is cap + 1 bytes with a NUL at index len |
| SosString.Sos.Init | sos.c:46-51 | sos_init gives the valid empty short string |
| SosString.Sos.InitWithCap | sos.c:53-68 | SOS_ERROR_ALLOC exactly when the request needs the heap and malloc fails; on success empty, long exactly when cap + 1 > 23, capacity WithCapCapacity(cap), which is at least cap |
| SosString.Sos.InitFromStr | sos.c:70-87 | SOS_ERROR_ALLOC exactly when the text has 23 bytes or more and malloc fails; on success it holds the text; inline with length code 2*count when the text fits, otherwise a fresh buffer of capacity count rounded up to odd |
| SosString.Sos.Finish | sos.c:89-97 | afterwards the storage is the valid empty short string |
| SosString.Sos.Clear | sos.c:99-109 | the content becomes empty and mode, capacity and buffer stay, so a long string stays long |
| SosString.Sos.ShortToLong | sos.c:111-129 | SOS_ERROR_ALLOC exactly when malloc fails, with nothing changed; on success long with the given cap, the same content and a fresh buffer |
| SosString.Sos.GrowLong | sos.c:136-140 | realloc of a long string to a larger odd capacity keeps content, length and the old bytes |
| SosString.Sos.ReserveLong | sos.c:131-144 | SOS_ERROR_ALLOC exactly when cap exceeds the capacity and realloc fails, with nothing changed; on success the content and length stay and the capacity is cap rounded up to odd when cap exceeds it, otherwise unchanged |
| SosString.Sos.Reserve | sos.c:146-156 | SOS_ERROR_ALLOC exactly when cap exceeds the capacity and allocation fails, with nothing changed; on success the content stays, the capacity is cap rounded up to odd when cap exceeded it and unchanged otherwise, so it is at least cap and never lower; long exactly when already long or cap + 1 > 23 |
| SosString.Sos.PutShort | sos.c:192-194 | a push into a short string with room appends the byte and raises the length code by 2 |
| SosString.Sos.PutLong | sos.c:178-180 | a push into a long string with room appends the byte and keeps cap and buffer |
| SosString.Sos.GrowFull | sos.c:163-177 | a full long string is reallocated to PushGrowth(cap), or nothing changes when realloc fails |
| SosString.Sos.Push | sos.c:158-199 | SOS_ERROR_MAX_CAP exactly at length SOS_MAX_LEN in long mode; SOS_ERROR_ALLOC exactly when the string is full below that and allocation fails; no change on error; on success the byte is appended, the string is long when it was long or was a full short string, and the capacity is unchanged with room, PushGrowth(cap) for a full long string, 31 for a full short string |
| SosString.Sos.Pop | sos.c:201-218 | on a non-empty string returns the last byte and drops it; mode, capacity and buffer stay |
| SosString.Sos.PutRangeShort | sos.c:225-227 | an append into a short string with room appends the bytes |
| SosString.Sos.PutRangeLong | sos.c:244-246 | an append into a long string with room appends the bytes and keeps cap and buffer |
| SosString.Sos.PromoteAndPut | sos.c:230-236 | an overflowing short append promotes to capacity 23 + count rounded up to odd and appends, or changes nothing when malloc fails |
| SosString.Sos.AppendRange | sos.c:220-248 | SOS_ERROR_ALLOC exactly when the bytes do not fit the capacity and allocation fails, with nothing changed; on success the bytes are appended; when they fit, mode and capacity stay; otherwise the string is long with capacity len + count rounded up to odd from long mode or 23 + count rounded up to odd from short mode |
| SosString.Sos.Append | sos.c:250-256 | appends the content of rhs with the error, mode and capacity rules of sos_append_range; rhs is unchanged |
| SosString.Sos.AppendStr | sos.c:258-262 | appends the text of str with the error, mode and capacity rules of sos_append_range |
| SosString.Sos.Overwrite | sos.c:286-288 | copying a whole record sets every field to the given value |
| SosString.Sos.Swap | sos.c:283-289 | the two strings exchange their complete states, and each side is valid when the other was |
| SosString.Sos.InitByMove | sos.c:278-281 | this takes over the state of rhs, and rhs receives the old state of this, so it is not emptied |
| SosString.Sos.InitByCopy | sos.c:264-276 | the intended deep copy: SOS_ERROR_ALLOC exactly when the source is long and malloc fails; on success the same content, mode and capacity, in a fresh buffer when long; the source is unchanged |
| SosString.Sos.InitByCopyAsWritten | sos.c:264-276 | the copy as written: the shared word and the first 7 inline bytes arrive, the rest of the inline array and len keep their old values; a short source of fewer than 7 bytes is still copied correctly; a long source's len + 1 bytes go to a fresh buffer of cap + 1 |
| SosString.Sos.Eq | sos.c:291-302 | 1 exactly when the texts up to the first NUL are equal, otherwise 0; for NUL-free contents 1 exactly when the contents are equal |
| SosString.Sos.EqStr | sos.c:304-314 | 1 exactly when the content's text equals the text of str, otherwise 0 |
| SosString.Sos.IEq | sos.c:316-327 | 1 exactly when the texts are equal after ASCII case folding, otherwise 0; equivalently, when the texts of the folded buffers are equal |
| SosString.DiffersAt | sos.c:297-298 | bytes that differ at or before both terminators mean different texts |
| SosString.FoldDiffersAt | sos.c:322-323 | bytes that differ after tolower at or before both terminators mean different folded texts |
| SosString.ScanEq | sos.c:296-301 | the scan returns 1 exactly when the two texts are equal |
| SosString.ScanEqStr | sos.c:308-313 | the scan returns 1 exactly when the two texts are equal |
| SosString.ScanIEq | sos.c:321-326 | the scan returns 1 exactly when the two folded texts are equal |
| SosClients.PushStep | test/len.c:28 | one successful push moves the string from the state after i pushes to the state after i + 1 |
| SosClients.PushRepeatedly | test/len.c:27-29 | pushing a byte onto a short string until it is k long appends k - len copies and leaves capacity CapAfterPushes(k), long exactly when k >= 23 |
| SosClients.NewShort | main.c:7 | `sos_init_from_str` of a text that fits inline succeeds without allocating and holds the text inline |
| SosClients.CommaWorld | main.c:8-11 | `sos_init_with_cap(&s2, 16)` then appending ", world" gives ", world" inline, without allocating |
| SosClients.HelloParts | main.c:6-11 | "Hello!" popped is "Hello"; ", world" appended to an empty string of capacity 16 is ", world"; both inline |
| SosClients.HelloWorld | main.c:6-15 | the demo prints "Hello, world!" with capacity 22, with no allocation |
| SosClients.CopyShortString | sos.c:266 | copying "abcdefghij" over "0123456789" as written yields "abcdefg789"; the deep copy compares equal to the source |
| SosClients.PushThenPop | sos.c:158-218 | a pop after a successful push returns the pushed byte and restores the content |
| SosClients.ReserveTwice | sos.c:146-156 | a second reservation of the same capacity succeeds without allocating and leaves the capacity and mode the first one produced |
| SosClients.SwapTwice | sos.c:283-289 | swapping twice restores both strings |
| SosClients.CopyThenPush | sos.c:264-276 | after a deep copy, pushing onto the copy leaves the source unchanged |

## Left out

- Freeing memory is not modelled. `sos_finish` and the release inside `realloc` do not reclaim storage, and a failed allocation is the `allocOk` flag, not a null pointer.
- The byte-level union and the big-endian layout (`SOS_BE`, `sos_endian.h`) are not modelled. The short and long fields are separate fields; only their meaning is kept. sos_endian.h is not part of this model.
- SosString.Sos.InitByCopyAsWritten: the 8 copied bytes are modelled as the shared word plus the first 7 inline bytes, as in the short little-endian layout. For a long source, those 7 bytes really belong to `cap`, so the contract about the inline array says nothing useful in that case.
- SosString.Sos.InitWithCap, SosString.Sos.Reserve and SosString.Sos.ShortToLong require cap <= SOS_MAX_LEN. For larger requests `cap | 1` plus one wraps in size_t; the SIZE_MAX case of the guard is shown under Findings.
- SosString.Sos.InitFromStr requires strlen(str) <= SOS_MAX_LEN, so that `(count | 1) + 1` does not wrap.
- SosString.Sos.AppendRange, SosString.Sos.Append and SosString.Sos.AppendStr require len + count <= SOS_MAX_LEN, and in short mode 23 + count <= SOS_MAX_LEN. The C code does not check this, and its size_t sums would wrap.
- The state after a failed `sos_init_with_cap` or `sos_init_from_str` is not specified beyond the status code and the buffer being old or fresh. The C code leaves the storage uninitialised, or with a null data pointer.
- The assertions of `sos_short_to_long` and `sos_pop` (sos.c:117, sos.c:204, sos.c:211) are preconditions; debug-time checking is not modelled.
- `restrict` on `sos_append`, `sos_swap`, `sos_init_by_move` and `sos_init_by_copy` is the precondition `Separate`: the two objects share no storage.
- `tolower` in `sos_ieq` is ASCII folding; locale-dependent folding is not modelled.
- C `char` is a byte, while Dafny `char` is any Unicode scalar value. The model only uses the byte values 0 to 255 in its examples, and nothing it states depends on values above 255: ASCII `tolower` is the identity outside `A`-`Z`.
- Contents may hold NUL bytes. The comparisons are specified on the text up to the first NUL, which is what the scans compare, so they do not require NUL-free contents.
- `sos_str_mut` (sos.c:40-43) only casts the result of `sos_str` and is not modelled separately.
- `sos_resize`, `sos_expand_for_overwrite`, `sos_init_from_range`, `sos_cmp`, `sos_cmp_cstr` and `sos_init_format` are used by the tests but have no body in sos.c and are not modelled. Formatting would also be a call into printf.
- The printf output of main.c and the test harness (test/*.c, test/macros.h) are left out; only their calls into the string are modelled as client methods.

## Findings

| source | as written | input that shows it | evidently intended | confidence | as-written member | corrected member |
|---|---|---|---|---|---|---|
| sos.c:266 | `sos_init_by_copy` copies `sizeof(rhs)` bytes, the size of a pointer (8). For a short source that is the length byte and 7 inline bytes. For a long source it is only `cap`; `len` is never set. | a short source "abcdefghij" copied over storage holding "0123456789" gives length 10 and bytes "abcdefg789" | copy the whole record, `sizeof(*rhs)`, then deep-copy the heap buffer of a long source | not executed; high | SosString.Sos.InitByCopyAsWritten, SosClients.CopyShortString | SosString.Sos.InitByCopy |
| sos.c:55 | the guard `cap + 1 > SOS_SBO_BUFSIZE` is computed in size_t and wraps to 0 when cap == SIZE_MAX; the same guard is at sos.c:150 | `sos_init_with_cap(&s, SIZE_MAX)` returns SOS_OK with capacity 22, less than requested | the capacity is never below the request: a request of SIZE_MAX takes the heap branch; that branch also needs its allocation size `cap + 1` (sos.c:57) not to wrap, which it does at SIZE_MAX - 1 and SIZE_MAX | not executed; medium | SosPolicy.NeedsHeapAsWrittenWrapsAtSizeMax | SosPolicy.WithCapCapacity |
