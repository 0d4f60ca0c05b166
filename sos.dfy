/**
 * The small-buffer-optimised string `Sos` and every operation of sos.c on it.
 *
 * One `Sos` object is the storage of one C `Sos` value. The word shared by
 * both layouts is `word`: in short mode it is the length byte, which holds
 * 2*len (bit 0 clear); in long mode it is `cap`, which is kept odd (bit 0
 * set). The other long-mode fields are `len` and the heap buffer `data`; the
 * short-mode inline array is `inline`. The ghost field `content` is the
 * string the object holds.
 *
 * malloc and realloc take a flag `allocOk` that says whether the allocation
 * succeeds; a successful one yields a fresh array, `free` is not modelled.
 */
module SosString {
  import opened SosLayout
  import opened CStrings
  import opened SosPolicy

  /** memcpy(dst + at, src, |src|): writes src into dst from index at and leaves the rest alone. */
  method CopyInto(dst: array<char>, at: nat, src: seq<char>)
    requires at + |src| <= dst.Length
    modifies dst
    ensures dst[..at] == old(dst[..at])
    ensures dst[at..at + |src|] == src
    ensures dst[at + |src|..] == old(dst[at + |src|..])
  {
    var i := 0;
    while i < |src|
      invariant 0 <= i <= |src|
      invariant forall k :: at <= k < at + i ==> dst[k] == src[k - at]
      invariant forall k :: 0 <= k < dst.Length && !(at <= k < at + i) ==> dst[k] == old(dst[k])
    {
      dst[at + i] := src[i];
      i := i + 1;
    }
    assert dst[at..at + |src|] == src;
  }

  /** malloc(size) that succeeds, followed by memcpy of src to its start. */
  method AllocCopy(size: nat, src: seq<char>) returns (buf: array<char>)
    requires |src| <= size
    ensures fresh(buf) && buf.Length == size
    ensures buf[..|src|] == src
  {
    buf := new char[size];
    CopyInto(buf, 0, src);
  }

  /** realloc(buf, size) that succeeds: a fresh buffer of the new size holding the old bytes. */
  method Realloc(buf: array<char>, size: nat) returns (grown: array<char>)
    requires buf.Length <= size
    ensures fresh(grown) && grown.Length == size
    ensures grown[..buf.Length] == buf[..]
  {
    grown := AllocCopy(size, buf[..]);
  }

  class Sos {
    /** The shared word: the short length byte, or the long `cap`; bit 0 is the mode tag. */
    var word: nat
    /** The long-mode `len` field. */
    var len: nat
    /** The long-mode `data` pointer: the heap buffer. */
    var data: array<char>
    /** The short-mode inline array of SOS_SBO_BUFSIZE bytes. */
    const inline: array<char>
    /** The string held. */
    ghost var content: seq<char>

    /** is_long: bit 0 of the shared word. */
    predicate IsLong()
      reads this
    {
      word % 2 == 1
    }

    /** The storage itself: an inline array of the right size, distinct from the heap buffer. */
    ghost predicate Storage()
      reads this
    {
      inline.Length == SboBufSize && inline != data
    }

    /** The representation invariant of an initialised `Sos`. */
    ghost predicate Valid()
      reads this, inline, data
    {
      Storage() &&
      if IsLong() then
        word <= SosMaxLen && data.Length == word + 1 && len <= word &&
        data[len] == Nul && content == data[..len]
      else
        word / 2 < SboBufSize && inline[word / 2] == Nul &&
        content == inline[..word / 2]
    }

    /** Two objects share no storage, as the `restrict` qualifiers demand. */
    ghost predicate Separate(other: Sos)
      reads this, other
    {
      this != other && {inline, data} !! {other.inline, other.data}
    }

    /** `Sos s;`: storage whose bytes are not yet a valid string. */
    constructor Declare()
      ensures Storage() && fresh(inline) && fresh(data)
    {
      word := 0;
      len := 0;
      inline := new char[SboBufSize];
      data := new char[1];
      content := [];
    }

    // Observers

    /** sos_len */
    function Len(): (n: nat)
      reads this, inline, data
      requires Valid()
      ensures n == |content|
      ensures IsLong() || 2 * n == word
    {
      if IsLong() then len else word / 2
    }

    /** sos_cap */
    function Cap(): (c: nat)
      reads this, inline, data
      requires Valid()
      ensures |content| <= c <= SosMaxLen
      ensures IsLong() ==> c % 2 == 1 && c == word
      ensures !IsLong() ==> c == SboBufSize - 1
    {
      if IsLong() then word else SboBufSize - 1
    }

    /** sos_str: the buffer that holds the content and its terminator. */
    function Str(): (buf: array<char>)
      reads this, inline, data
      requires Valid()
      ensures buf.Length > |content|
      ensures buf[..|content|] == content && buf[|content|] == Nul
      ensures content + [Nul] == buf[..|content| + 1]
    {
      if IsLong() then data else inline
    }

    /** In both modes the buffer sos_str points to is cap + 1 bytes long, the last one for the terminator. */
    lemma BufferHoldsCap()
      requires Valid()
      ensures Str().Length == Cap() + 1
      ensures Str()[Len()] == Nul
    {
    }

    /**
     * The mode can be read back from the capacity: a long capacity is odd and
     * the short capacity SOS_SBO_BUFSIZE - 1 is even, so is_long agrees with
     * the parity of sos_cap, and a short string's length byte is even.
     */
    lemma ModeFromCapParity()
      requires Valid()
      ensures IsLong() <==> Cap() % 2 == 1
      ensures !IsLong() ==> word == 2 * Len() && Len() < SboBufSize
    {
    }

    // Initialisers

    /** sos_init: the empty short string. */
    method Init()
      requires Storage()
      modifies this, inline
      ensures Valid() && !IsLong() && content == []
      ensures data == old(data)
    {
      word := 0;
      inline[0] := Nul;
      content := [];
    }

    /**
     * sos_init_with_cap: an empty string with room for at least cap bytes,
     * on the heap exactly when cap + 1 exceeds the inline buffer.
     */
    method InitWithCap(cap: nat, allocOk: bool) returns (st: Status)
      requires Storage() && cap <= SosMaxLen
      modifies this, inline
      ensures st == Ok || st == ErrorAlloc
      ensures st == ErrorAlloc <==> NeedsHeap(cap) && !allocOk
      ensures st == Ok ==> Valid() && content == []
      ensures st == Ok ==> (IsLong() <==> NeedsHeap(cap))
      ensures st == Ok ==> Cap() == WithCapCapacity(cap) && Cap() >= cap
      ensures st == Ok && IsLong() ==> fresh(data)
      ensures data == old(data) || fresh(data)
    {
      if NeedsHeap(cap) {
        var c := OrOne(cap);
        OrOneWithinMaxLen(cap);
        if !allocOk {
          return ErrorAlloc;
        }
        data := new char[c + 1];
        data[0] := Nul;
        len := 0;
        word := c;
        content := [];
      } else {
        Init();
      }
      st := Ok;
    }

    /**
     * sos_init_from_str: a copy of the text of the C string str, inline with
     * length code 2*count when it fits, otherwise on the heap with capacity
     * count | 1.
     */
    method InitFromStr(str: seq<char>, allocOk: bool) returns (st: Status)
      requires Storage() && Nul in str && StrLen(str) <= SosMaxLen
      modifies this, inline
      ensures st == Ok || st == ErrorAlloc
      ensures st == ErrorAlloc <==> StrLen(str) >= SboBufSize && !allocOk
      ensures st == Ok ==> Valid() && content == Text(str)
      ensures st == Ok ==> (IsLong() <==> StrLen(str) >= SboBufSize)
      ensures st == Ok && !IsLong() ==> word == 2 * StrLen(str)
      ensures st == Ok && IsLong() ==> Cap() == OrOne(StrLen(str)) && fresh(data)
      ensures data == old(data) || fresh(data)
    {
      var count := StrLen(str);
      ghost var text := Text(str);
      assert str[..count + 1] == text + [Nul];
      if count <= SboBufSize - 1 {
        CopyInto(inline, 0, str[..count + 1]);
        assert inline[..count] == text && inline[count] == Nul by {
          assert inline[..count + 1] == str[..count + 1];
          assert inline[..count] == inline[..count + 1][..count];
          assert inline[count] == inline[..count + 1][count];
        }
        word := count * 2;
        content := text;
      } else {
        OrOneWithinMaxLen(count);
        if !allocOk {
          return ErrorAlloc;
        }
        var buf := AllocCopy(OrOne(count) + 1, str[..count + 1]);
        assert buf[..count] == text && buf[count] == Nul by {
          assert buf[..count + 1] == str[..count + 1];
          assert buf[..count] == buf[..count + 1][..count];
          assert buf[count] == buf[..count + 1][count];
        }
        data := buf;
        len := count;
        word := OrOne(count);
        content := text;
      }
      st := Ok;
    }

    /** sos_finish: the heap buffer is released (not modelled) and the storage reset to the empty short string. */
    method Finish()
      requires Storage()
      modifies this, inline
      ensures Valid() && !IsLong() && content == []
      ensures data == old(data) || fresh(data)
    {
      word := 0;
      inline[0] := Nul;
      content := [];
    }

    // Mutators

    /** sos_clear: length 0 and a terminator at index 0; mode and capacity stay, so a long string stays long. */
    method Clear()
      requires Valid()
      modifies this, inline, data
      ensures Valid() && content == []
      ensures IsLong() == old(IsLong()) && Cap() == old(Cap()) && data == old(data)
    {
      if IsLong() {
        data[0] := Nul;
        len := 0;
      } else {
        inline[0] := Nul;
        word := 0;
      }
      content := [];
    }

    /**
     * sos_short_to_long: moves a short string to a fresh heap buffer of
     * capacity cap, terminator included. On allocation failure nothing changes.
     */
    method ShortToLong(cap: nat, allocOk: bool) returns (st: Status)
      requires Valid() && !IsLong()
      requires cap % 2 == 1 && Len() <= cap <= SosMaxLen
      modifies this
      ensures st == Ok || st == ErrorAlloc
      ensures st == ErrorAlloc <==> !allocOk
      ensures st == ErrorAlloc ==> unchanged(this)
      ensures st == Ok ==> Valid() && IsLong() && Cap() == cap && content == old(content)
      ensures st == Ok ==> fresh(data)
      ensures data == old(data) || fresh(data)
    {
      if !allocOk {
        return ErrorAlloc;
      }
      var n := word / 2;
      var buf := AllocCopy(cap + 1, inline[..n + 1]);
      assert buf[..n + 1] == inline[..n + 1];
      assert buf[..n] == content;
      data := buf;
      len := n;
      word := cap;
      st := Ok;
    }

    /** A successful realloc of a long string's buffer to capacity capNew. */
    method GrowLong(capNew: nat)
      requires Valid() && IsLong() && capNew % 2 == 1 && word < capNew <= SosMaxLen
      modifies this`data, this`word
      ensures Valid() && IsLong() && word == capNew
      ensures content == old(content) && len == old(len)
      ensures fresh(data) && data[..old(data.Length)] == old(data[..])
    {
      var grown := Realloc(data, capNew + 1);
      assert grown[..len] == data[..len] by {
        assert grown[..len] == grown[..data.Length][..len];
      }
      assert grown[len] == grown[..data.Length][len];
      data := grown;
      word := capNew;
    }

    /**
     * sos_reserve_long: grows a long string's buffer to cap | 1 when cap
     * exceeds its capacity; realloc keeps the bytes. On failure nothing changes.
     */
    method ReserveLong(cap: nat, allocOk: bool) returns (st: Status)
      requires Valid() && IsLong() && cap <= SosMaxLen
      modifies this
      ensures st == Ok || st == ErrorAlloc
      ensures st == ErrorAlloc <==> cap > old(Cap()) && !allocOk
      ensures st == ErrorAlloc ==> unchanged(this)
      ensures st == Ok ==> Valid() && IsLong() && content == old(content) && len == old(len)
      ensures st == Ok ==> Cap() == if cap > old(Cap()) then OrOne(cap) else old(Cap())
      ensures st == Ok ==> data == old(data) || (fresh(data) && data[..old(data.Length)] == old(data[..]))
      ensures data == old(data) || fresh(data)
    {
      if cap > word {
        OrOneWithinMaxLen(cap);
        var c := OrOne(cap);
        if !allocOk {
          return ErrorAlloc;
        }
        GrowLong(c);
      }
      st := Ok;
    }

    /**
     * sos_reserve: afterwards the capacity is at least cap, never lower than
     * before, and raised only to cap | 1; a short string is promoted only
     * when cap + 1 exceeds the inline buffer. Length and content never change;
     * on allocation failure nothing changes.
     */
    method Reserve(cap: nat, allocOk: bool) returns (st: Status)
      requires Valid() && cap <= SosMaxLen
      modifies this
      ensures st == Ok || st == ErrorAlloc
      ensures st == ErrorAlloc <==> cap > old(Cap()) && !allocOk
      ensures st == ErrorAlloc ==> unchanged(this)
      ensures st == Ok ==> Valid() && content == old(content)
      ensures st == Ok ==> Cap() >= cap && Cap() >= old(Cap())
      ensures st == Ok ==> Cap() == if cap > old(Cap()) then OrOne(cap) else old(Cap())
      ensures st == Ok ==> (IsLong() <==> old(IsLong()) || NeedsHeap(cap))
      ensures data == old(data) || fresh(data)
    {
      if IsLong() {
        st := ReserveLong(cap, allocOk);
      } else if NeedsHeap(cap) {
        OrOneWithinMaxLen(cap);
        st := ShortToLong(OrOne(cap), allocOk);
      } else {
        st := Ok;
      }
    }

    /** The push into a short string with room: c at index len, the terminator after it, the length code up by 2. */
    method PutShort(c: char)
      requires Valid() && !IsLong() && word / 2 < SboBufSize - 1
      modifies inline, this`word, this`content
      ensures Valid() && !IsLong() && content == old(content) + [c]
      ensures word == old(word) + 2
    {
      var n := word / 2;
      inline[n] := c;
      inline[n + 1] := Nul;
      word := word + 2;
      content := content + [c];
      assert inline[..n + 1] == content;
    }

    /** The push into a long string with room: c at index len, the terminator after it. */
    method PutLong(c: char)
      requires Valid() && IsLong() && len < word
      modifies data, this`len, this`content
      ensures Valid() && content == old(content) + [c]
      ensures word == old(word) && data == old(data)
    {
      data[len] := c;
      data[len + 1] := Nul;
      len := len + 1;
      content := content + [c];
      assert data[..len] == content;
    }

    /** The append into a short string with room: src from index len, the terminator after it. */
    method PutRangeShort(src: seq<char>)
      requires Valid() && !IsLong() && word / 2 + |src| < SboBufSize
      modifies inline, this`word, this`content
      ensures Valid() && !IsLong() && content == old(content) + src
    {
      var n := word / 2;
      CopyInto(inline, n, src);
      inline[n + |src|] := Nul;
      word := word + |src| * 2;
      content := content + src;
      assert inline[..n + |src|] == inline[..n] + inline[n..n + |src|];
    }

    /** The append into a long string with room: src from index len, the terminator after it. */
    method PutRangeLong(src: seq<char>)
      requires Valid() && IsLong() && len + |src| <= word
      modifies data, this`len, this`content
      ensures Valid() && content == old(content) + src
      ensures word == old(word) && data == old(data)
    {
      var n := len;
      CopyInto(data, n, src);
      data[n + |src|] := Nul;
      len := n + |src|;
      content := content + src;
      assert data[..n + |src|] == data[..n] + data[n..n + |src|];
    }

    /** The growth step of sos_push for a full long string: realloc to PushGrowth(cap). */
    method GrowFull(allocOk: bool) returns (st: Status)
      requires Valid() && IsLong() && len == word < SosMaxLen
      modifies this
      ensures st == Ok || st == ErrorAlloc
      ensures st == ErrorAlloc <==> !allocOk
      ensures st == ErrorAlloc ==> unchanged(this)
      ensures st == Ok ==> Valid() && IsLong() && word == PushGrowth(old(word))
      ensures st == Ok ==> content == old(content) && len == old(len) && fresh(data)
    {
      var capNew := PushGrowth(word);
      if !allocOk {
        return ErrorAlloc;
      }
      GrowLong(capNew);
      st := Ok;
    }

    /**
     * sos_push: appends c. A full short string moves to the heap with
     * capacity 31; a full long string grows by PushGrowth; at SOS_MAX_LEN the
     * push reports SOS_ERROR_MAX_CAP. On any error nothing changes.
     */
    method Push(c: char, allocOk: bool) returns (st: Status)
      requires Valid()
      modifies this, inline, data
      ensures st == ErrorMaxCap <==> old(IsLong()) && old(Len()) == SosMaxLen
      ensures st == ErrorAlloc <==> !allocOk && old(Len()) == old(Cap()) && old(Len()) < SosMaxLen
      ensures st != Ok ==> unchanged(this) && unchanged(inline) && unchanged(data)
      ensures st == Ok ==> Valid() && content == old(content) + [c]
      ensures st == Ok ==> (IsLong() <==> old(IsLong()) || old(Len()) == SboBufSize - 1)
      ensures st == Ok ==> (Cap() ==
        if old(Len()) < old(Cap()) then old(Cap())
        else if old(IsLong()) then PushGrowth(old(Cap()))
        else 31)
      ensures data == old(data) || fresh(data)
    {
      if IsLong() {
        if len == SosMaxLen {
          return ErrorMaxCap;
        }
        if word == len {
          st := GrowFull(allocOk);
          if st != Ok {
            return;
          }
        }
        PutLong(c);
      } else {
        var n := word / 2;
        if n == SboBufSize - 1 {
          LayoutFacts();
          st := ShortToLong(31, allocOk);
          if st != Ok {
            return;
          }
          PutLong(c);
        } else {
          PutShort(c);
        }
      }
      st := Ok;
    }

    /**
     * sos_pop: removes and returns the last byte and writes the terminator
     * where it was; mode and capacity stay. The string must not be empty.
     */
    method Pop() returns (ch: char)
      requires Valid() && Len() > 0
      modifies this, inline, data
      ensures Valid()
      ensures ch == old(content)[|old(content)| - 1]
      ensures content == old(content)[..|old(content)| - 1]
      ensures IsLong() == old(IsLong()) && Cap() == old(Cap()) && data == old(data)
    {
      if IsLong() {
        ch := data[len - 1];
        data[len - 1] := Nul;
        len := len - 1;
        content := content[..len];
        assert data[..len] == content;
      } else {
        var n := word / 2 - 1;
        ch := inline[n];
        inline[n] := Nul;
        word := word - 2;
        content := content[..n];
        assert inline[..n] == content;
      }
    }

    /**
     * The overflowing short-mode append: promote to capacity
     * (SOS_SBO_BUFSIZE + count) | 1, then copy src after the content.
     */
    method PromoteAndPut(src: seq<char>, allocOk: bool) returns (st: Status)
      requires Valid() && !IsLong() && Len() + |src| >= SboBufSize
      requires SboBufSize + |src| <= SosMaxLen
      modifies this
      ensures st == Ok || st == ErrorAlloc
      ensures st == ErrorAlloc <==> !allocOk
      ensures st == ErrorAlloc ==> unchanged(this)
      ensures st == Ok ==> Valid() && IsLong() && content == old(content) + src
      ensures st == Ok ==> Cap() == OrOne(SboBufSize + |src|) && fresh(data)
    {
      var promoted := AppendPromoteCap(word / 2, |src|);
      st := ShortToLong(promoted, allocOk);
      if st != Ok {
        return;
      }
      PutRangeLong(src);
    }

    /**
     * sos_append_range: appends the count = |src| bytes at begin. A short
     * string that overflows moves straight to capacity
     * (SOS_SBO_BUFSIZE + count) | 1; a long one reserves exactly len + count,
     * without doubling. On allocation failure nothing changes.
     */
    method AppendRange(src: seq<char>, allocOk: bool) returns (st: Status)
      requires Valid() && Len() + |src| <= SosMaxLen
      requires !IsLong() ==> SboBufSize + |src| <= SosMaxLen
      modifies this, inline, data
      ensures st == Ok || st == ErrorAlloc
      ensures st == ErrorAlloc <==> !allocOk && old(Len()) + |src| > old(Cap())
      ensures st == ErrorAlloc ==> unchanged(this) && unchanged(inline) && unchanged(data)
      ensures st == Ok ==> Valid() && content == old(content) + src
      ensures st == Ok && old(Len()) + |src| <= old(Cap()) ==>
        IsLong() == old(IsLong()) && Cap() == old(Cap())
      ensures st == Ok && old(Len()) + |src| > old(Cap()) ==>
        IsLong() && Cap() == if old(IsLong()) then OrOne(old(Len()) + |src|) else OrOne(SboBufSize + |src|)
      ensures data == old(data) || fresh(data)
    {
      var count := |src|;
      if !IsLong() {
        var n := word / 2;
        if n + count <= SboBufSize - 1 {
          PutRangeShort(src);
          return Ok;
        } else {
          st := PromoteAndPut(src, allocOk);
          return;
        }
      }
      st := ReserveLong(len + count, allocOk);
      if st != Ok {
        return;
      }
      PutRangeLong(src);
    }

    /** sos_append: appends the content of rhs, read from its current layout. */
    method Append(rhs: Sos, allocOk: bool) returns (st: Status)
      requires Valid() && rhs.Valid() && Separate(rhs)
      requires Len() + rhs.Len() <= SosMaxLen
      requires !IsLong() ==> SboBufSize + rhs.Len() <= SosMaxLen
      modifies this, inline, data
      ensures st == Ok || st == ErrorAlloc
      ensures st == ErrorAlloc <==> !allocOk && old(Len()) + old(rhs.Len()) > old(Cap())
      ensures st == ErrorAlloc ==> unchanged(this) && unchanged(inline) && unchanged(data)
      ensures st == Ok ==> Valid() && content == old(content) + old(rhs.content)
      ensures st == Ok && old(Len()) + old(rhs.Len()) <= old(Cap()) ==>
        IsLong() == old(IsLong()) && Cap() == old(Cap())
      ensures st == Ok && old(Len()) + old(rhs.Len()) > old(Cap()) ==>
        IsLong() && Cap() == if old(IsLong()) then OrOne(old(Len()) + old(rhs.Len())) else OrOne(SboBufSize + old(rhs.Len()))
      ensures rhs.Valid() && rhs.content == old(rhs.content)
      ensures data == old(data) || fresh(data)
    {
      var src: seq<char>;
      if rhs.IsLong() {
        src := rhs.data[..rhs.len];
      } else {
        src := rhs.inline[..rhs.word / 2];
      }
      st := AppendRange(src, allocOk);
    }

    /** sos_append_str: appends the text of the C string str. */
    method AppendStr(str: seq<char>, allocOk: bool) returns (st: Status)
      requires Valid() && Nul in str
      requires Len() + StrLen(str) <= SosMaxLen
      requires !IsLong() ==> SboBufSize + StrLen(str) <= SosMaxLen
      modifies this, inline, data
      ensures st == Ok || st == ErrorAlloc
      ensures st == ErrorAlloc <==> !allocOk && old(Len()) + StrLen(str) > old(Cap())
      ensures st == ErrorAlloc ==> unchanged(this) && unchanged(inline) && unchanged(data)
      ensures st == Ok ==> Valid() && content == old(content) + Text(str)
      ensures st == Ok && old(Len()) + StrLen(str) <= old(Cap()) ==>
        IsLong() == old(IsLong()) && Cap() == old(Cap())
      ensures st == Ok && old(Len()) + StrLen(str) > old(Cap()) ==>
        IsLong() && Cap() == if old(IsLong()) then OrOne(old(Len()) + StrLen(str)) else OrOne(SboBufSize + StrLen(str))
      ensures data == old(data) || fresh(data)
    {
      var count := StrLen(str);
      st := AppendRange(str[..count], allocOk);
    }

    // Moving state

    /** memcpy of a whole `Sos` record into this one: every field takes the given value. */
    method Overwrite(w: nat, l: nat, d: array<char>, t: seq<char>, ghost c: seq<char>)
      requires |t| == inline.Length
      modifies this, inline
      ensures word == w && len == l && data == d && content == c
      ensures inline[..] == t
    {
      word, len, data := w, l, d;
      content := c;
      CopyInto(inline, 0, t);
      assert inline[..] == inline[..0] + inline[0..|t|] + inline[|t|..];
    }

    /** sos_swap: exchanges the complete states of two strings, byte for byte. */
    method Swap(other: Sos)
      requires Storage() && other.Storage() && Separate(other)
      modifies this, inline, other, other.inline
      ensures word == old(other.word) && len == old(other.len) && data == old(other.data)
      ensures inline[..] == old(other.inline[..]) && content == old(other.content)
      ensures other.word == old(word) && other.len == old(len) && other.data == old(data)
      ensures other.inline[..] == old(inline[..]) && other.content == old(content)
      ensures Storage() && other.Storage() && Separate(other)
      ensures old(other.Valid()) ==> Valid()
      ensures old(Valid()) ==> other.Valid()
    {
      var w, l, d, t := word, len, data, inline[..];
      ghost var c := content;
      Overwrite(other.word, other.len, other.data, other.inline[..], other.content);
      other.Overwrite(w, l, d, t, c);
    }

    /**
     * sos_init_by_move: this takes over the string rhs holds, and rhs gets
     * whatever this held before; rhs is not emptied.
     */
    method InitByMove(rhs: Sos)
      requires Storage() && rhs.Storage() && Separate(rhs)
      modifies this, inline, rhs, rhs.inline
      ensures word == old(rhs.word) && len == old(rhs.len) && data == old(rhs.data)
      ensures inline[..] == old(rhs.inline[..]) && content == old(rhs.content)
      ensures rhs.word == old(word) && rhs.len == old(len) && rhs.data == old(data)
      ensures rhs.inline[..] == old(inline[..]) && rhs.content == old(content)
      ensures old(rhs.Valid()) ==> Valid()
      ensures old(Valid()) ==> rhs.Valid()
    {
      Swap(rhs);
    }

    /**
     * sos_init_by_copy as intended: a deep copy with the same mode and
     * capacity; a long source is copied into a fresh buffer of cap + 1 bytes,
     * len + 1 of them written.
     */
    method InitByCopy(rhs: Sos, allocOk: bool) returns (st: Status)
      requires Storage() && rhs.Valid() && Separate(rhs)
      modifies this, inline
      ensures st == Ok || st == ErrorAlloc
      ensures st == ErrorAlloc <==> rhs.IsLong() && !allocOk
      ensures st == Ok ==> Valid() && content == rhs.content
      ensures st == Ok ==> IsLong() == rhs.IsLong() && Cap() == rhs.Cap()
      ensures st == Ok && IsLong() ==> fresh(data)
      ensures rhs.Valid() && rhs.content == old(rhs.content)
      ensures data == old(data) || fresh(data)
    {
      Overwrite(rhs.word, rhs.len, data, rhs.inline[..], rhs.content);
      if rhs.IsLong() {
        if !allocOk {
          return ErrorAlloc;
        }
        var buf := AllocCopy(rhs.word + 1, rhs.data[..rhs.len + 1]);
        assert buf[..len] == content && buf[len] == Nul by {
          assert buf[..len] == buf[..len + 1][..len];
          assert buf[len] == buf[..len + 1][len];
        }
        data := buf;
      } else {
        assert inline[..word / 2] == content;
      }
      st := Ok;
    }

    /**
     * sos_init_by_copy as written: `memcpy(self, rhs, sizeof(rhs))` copies
     * the size of a pointer, WordBytes bytes: the shared word and, for a short
     * source, only the first WordBytes - 1 inline bytes. The long-mode `len`
     * is not copied at all.
     */
    method InitByCopyAsWritten(rhs: Sos, allocOk: bool) returns (st: Status)
      requires Storage() && rhs.Valid() && Separate(rhs)
      modifies this, inline
      ensures st == Ok || st == ErrorAlloc
      ensures st == ErrorAlloc <==> rhs.IsLong() && !allocOk
      ensures word == rhs.word && len == old(len)
      ensures inline[..WordBytes - 1] == rhs.inline[..WordBytes - 1]
      ensures inline[WordBytes - 1..] == old(inline[WordBytes - 1..])
      ensures !rhs.IsLong() && rhs.Len() < WordBytes - 1 ==>
        inline[..word / 2] == rhs.content && inline[word / 2] == Nul
      ensures st == Ok && IsLong() ==> fresh(data) && data.Length == rhs.word + 1
      ensures st == Ok && IsLong() ==> data[..rhs.len + 1] == rhs.data[..rhs.len + 1]
      ensures rhs.Valid() && rhs.content == old(rhs.content)
      ensures data == old(data) || fresh(data)
    {
      word := rhs.word;
      CopyInto(inline, 0, rhs.inline[..WordBytes - 1]);
      if rhs.IsLong() {
        if !allocOk {
          return ErrorAlloc;
        }
        var buf := AllocCopy(rhs.word + 1, rhs.data[..rhs.len + 1]);
        data := buf;
      }
      st := Ok;
    }

    // Comparison

    /**
     * sos_eq: 1 exactly when the two terminator-delimited contents are equal,
     * whatever the modes and capacities.
     */
    method Eq(rhs: Sos) returns (r: int)
      requires Valid() && rhs.Valid()
      ensures r == 0 || r == 1
      ensures r == 1 <==> Text(content + [Nul]) == Text(rhs.content + [Nul])
      ensures Nul !in content && Nul !in rhs.content ==> (r == 1 <==> content == rhs.content)
    {
      ghost var t1, t2 := content + [Nul], rhs.content + [Nul];
      assert t1[|content|] == Nul && t2[|rhs.content|] == Nul;
      if Nul !in content && Nul !in rhs.content {
        TextOfTerminated(content);
        TextOfTerminated(rhs.content);
      }
      var s1 := Str();
      var s2 := rhs.Str();
      r := ScanEq(s1, s2, t1, t2);
    }

    /** sos_eq_str: 1 exactly when the content equals the text of the C string str. */
    method EqStr(str: seq<char>) returns (r: int)
      requires Valid() && Nul in str
      ensures r == 0 || r == 1
      ensures r == 1 <==> Text(content + [Nul]) == Text(str)
      ensures Nul !in content ==> (r == 1 <==> content == Text(str))
    {
      ghost var t1 := content + [Nul];
      assert t1[|content|] == Nul;
      if Nul !in content {
        TextOfTerminated(content);
      }
      var s1 := Str();
      r := ScanEqStr(s1, str, t1);
    }

    /** sos_ieq: 1 exactly when the two contents are equal up to ASCII case. */
    method IEq(rhs: Sos) returns (r: int)
      requires Valid() && rhs.Valid()
      ensures r == 0 || r == 1
      ensures r == 1 <==> Fold(Text(content + [Nul])) == Fold(Text(rhs.content + [Nul]))
      ensures r == 1 <==> Text(Fold(content + [Nul])) == Text(Fold(rhs.content + [Nul]))
      ensures Nul !in content && Nul !in rhs.content ==> (r == 1 <==> Fold(content) == Fold(rhs.content))
    {
      ghost var t1, t2 := content + [Nul], rhs.content + [Nul];
      assert t1[|content|] == Nul && t2[|rhs.content|] == Nul;
      if Nul !in content && Nul !in rhs.content {
        TextOfTerminated(content);
        TextOfTerminated(rhs.content);
      }
      var s1 := Str();
      var s2 := rhs.Str();
      r := ScanIEq(s1, s2, t1, t2);
      FoldText(t1);
      FoldText(t2);
    }
  }

  /** Two C strings whose bytes differ at or before both terminators denote different texts. */
  lemma DiffersAt(t1: seq<char>, t2: seq<char>, i: nat)
    requires Nul in t1 && Nul in t2
    requires i <= StrLen(t1) && i <= StrLen(t2)
    requires i < |t1| && i < |t2| && t1[i] != t2[i]
    ensures Text(t1) != Text(t2)
  {
  }

  /** The same, up to case: bytes that differ after folding give different folded texts. */
  lemma FoldDiffersAt(t1: seq<char>, t2: seq<char>, i: nat)
    requires Nul in t1 && Nul in t2
    requires i <= StrLen(t1) && i <= StrLen(t2)
    requires i < |t1| && i < |t2| && Lower(t1[i]) != Lower(t2[i])
    ensures Fold(Text(t1)) != Fold(Text(t2))
  {
    if i < StrLen(t1) && i < StrLen(t2) {
      assert Fold(Text(t1))[i] != Fold(Text(t2))[i];
    } else {
      assert |Fold(Text(t1))| != |Fold(Text(t2))|;
    }
  }

  /**
   * The loop of sos_eq: advance both pointers while the bytes agree and stop
   * at the first difference or at the left terminator.
   */
  method ScanEq(s1: array<char>, s2: array<char>, ghost t1: seq<char>, ghost t2: seq<char>) returns (r: int)
    requires Nul in t1 && Nul in t2
    requires |t1| <= s1.Length && s1[..|t1|] == t1
    requires |t2| <= s2.Length && s2[..|t2|] == t2
    ensures r == 0 || r == 1
    ensures r == 1 <==> Text(t1) == Text(t2)
  {
    var i := 0;
    ghost var n1, n2 := StrLen(t1), StrLen(t2);
    while true
      invariant i <= n1 && i <= n2
      invariant t1[..i] == t2[..i]
      decreases n1 - i
    {
      assert s1[i] == t1[i] && s2[i] == t2[i];
      if s1[i] != s2[i] {
        DiffersAt(t1, t2, i);
        return 0;
      }
      if s1[i] == Nul {
        StrLenAt(t1, i);
        StrLenAt(t2, i);
        return 1;
      }
      assert t1[..i + 1] == t1[..i] + [t1[i]];
      assert t2[..i + 1] == t2[..i] + [t2[i]];
      i := i + 1;
    }
  }

  /** The loop of sos_ieq: the same scan comparing the bytes after tolower. */
  method ScanIEq(s1: array<char>, s2: array<char>, ghost t1: seq<char>, ghost t2: seq<char>) returns (r: int)
    requires Nul in t1 && Nul in t2
    requires |t1| <= s1.Length && s1[..|t1|] == t1
    requires |t2| <= s2.Length && s2[..|t2|] == t2
    ensures r == 0 || r == 1
    ensures r == 1 <==> Fold(Text(t1)) == Fold(Text(t2))
  {
    var i := 0;
    ghost var n1, n2 := StrLen(t1), StrLen(t2);
    while true
      invariant i <= n1 && i <= n2
      invariant Fold(t1[..i]) == Fold(t2[..i])
      decreases n1 - i
    {
      assert s1[i] == t1[i] && s2[i] == t2[i];
      if Lower(s1[i]) != Lower(s2[i]) {
        FoldDiffersAt(t1, t2, i);
        return 0;
      }
      if s1[i] == Nul {
        StrLenAt(t1, i);
        StrLenAt(t2, i);
        return 1;
      }
      assert t1[..i + 1] == t1[..i] + [t1[i]];
      assert t2[..i + 1] == t2[..i] + [t2[i]];
      i := i + 1;
    }
  }

  /** The loop of sos_eq_str: the scan of sos_eq against the bytes of a C string. */
  method ScanEqStr(s1: array<char>, str: seq<char>, ghost t1: seq<char>) returns (r: int)
    requires Nul in t1 && Nul in str
    requires |t1| <= s1.Length && s1[..|t1|] == t1
    ensures r == 0 || r == 1
    ensures r == 1 <==> Text(t1) == Text(str)
  {
    var i := 0;
    ghost var n1, n2 := StrLen(t1), StrLen(str);
    while true
      invariant i <= n1 && i <= n2
      invariant t1[..i] == str[..i]
      decreases n1 - i
    {
      assert s1[i] == t1[i];
      if s1[i] != str[i] {
        DiffersAt(t1, str, i);
        return 0;
      }
      if s1[i] == Nul {
        StrLenAt(t1, i);
        StrLenAt(str, i);
        return 1;
      }
      assert t1[..i + 1] == t1[..i] + [t1[i]];
      assert str[..i + 1] == str[..i] + [str[i]];
      i := i + 1;
    }
  }
}
