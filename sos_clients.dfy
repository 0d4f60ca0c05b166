/**
 * Callers of the string, written against the contracts alone: the demo
 * program, the push loop of the length test, and the copy of a short string
 * that shows what `sos_init_by_copy` does as written.
 */
module SosClients {
  import opened SosLayout
  import opened CStrings
  import opened SosPolicy
  import opened SosString

  /** n copies of c. */
  function Repeat(c: char, n: nat): (r: seq<char>)
    ensures |r| == n && forall k :: 0 <= k < n ==> r[k] == c
  {
    if n == 0 then [] else Repeat(c, n - 1) + [c]
  }

  /** s holds start followed by i - |start| copies of c, with the capacity the push policy dictates for i bytes. */
  ghost predicate Pushed(s: Sos, start: seq<char>, c: char, i: nat)
    reads s, s.inline, s.data
  {
    s.Valid() && |start| <= i <= SosMaxLen && s.content == start + Repeat(c, i - |start|) &&
    s.Cap() == CapAfterPushes(i) && (s.IsLong() <==> i >= SboBufSize)
  }

  /** One successful push of the loop below. */
  method PushStep(s: Sos, c: char, i: nat, ghost start: seq<char>)
    requires Pushed(s, start, c, i) && i < SosMaxLen
    modifies s, s.inline, s.data
    ensures Pushed(s, start, c, i + 1)
    ensures s.data == old(s.data) || fresh(s.data)
  {
    var st := s.Push(c, true);
    assert st == Ok;
    assert Repeat(c, i + 1 - |start|) == Repeat(c, i - |start|) + [c];
  }

  /**
   * Pushing c onto a short string until it is k bytes long, every allocation
   * succeeding, appends k - len copies of c and leaves the capacity the push
   * policy dictates for k bytes.
   */
  method PushRepeatedly(s: Sos, c: char, k: nat)
    requires s.Valid() && !s.IsLong() && s.Len() <= k <= SosMaxLen
    modifies s, s.inline, s.data
    ensures s.Valid() && s.content == old(s.content) + Repeat(c, k - |old(s.content)|)
    ensures s.Len() == k && s.Cap() == CapAfterPushes(k)
    ensures s.IsLong() <==> k >= SboBufSize
  {
    var i := s.Len();
    ghost var start := s.content;
    while i < k
      invariant i <= k && Pushed(s, start, c, i)
      invariant s.data == old(s.data) || fresh(s.data)
    {
      PushStep(s, c, i, start);
      i := i + 1;
    }
  }

  /** `Sos s; sos_init_from_str(&s, t);` for a text that fits inline, no allocation needed. */
  method NewShort(t: seq<char>) returns (s: Sos)
    requires Nul !in t && |t| < SboBufSize
    ensures fresh(s) && fresh(s.inline) && fresh(s.data)
    ensures s.Valid() && !s.IsLong() && s.content == t && s.inline[..|t|] == t
  {
    s := new Sos.Declare();
    TextOfTerminated(t);
    var st := s.InitFromStr(t + [Nul], false);
    assert st == Ok;
  }

  /** `sos_init_with_cap(&s2, 16); sos_append_str(&s2, ", world");` : inline, no allocation needed. */
  method CommaWorld() returns (s2: Sos)
    ensures fresh(s2) && fresh(s2.inline) && fresh(s2.data)
    ensures s2.Valid() && !s2.IsLong() && s2.content == ", world"
  {
    s2 := new Sos.Declare();
    var st := s2.InitWithCap(16, false);
    assert st == Ok && !s2.IsLong();
    TextOfTerminated(", world");
    st := s2.AppendStr(", world" + [Nul], false);
    assert st == Ok;
  }

  /** The first half of the demo program: s1 = "Hello!" popped, s2 = ", world" appended to an empty string of capacity 16. */
  method HelloParts() returns (s1: Sos, s2: Sos)
    ensures fresh(s1) && fresh(s1.inline) && fresh(s1.data)
    ensures fresh(s2) && fresh(s2.inline) && fresh(s2.data)
    ensures s1.Valid() && s2.Valid() && s1.Separate(s2)
    ensures !s1.IsLong() && s1.content == "Hello"
    ensures !s2.IsLong() && s2.content == ", world"
  {
    s1 := NewShort("Hello!");
    var ch := s1.Pop();
    assert "Hello!"[..5] == "Hello";
    s2 := CommaWorld();
  }

  /**
   * The demo program: "Hello!" popped, ", world" appended, '!' pushed, all
   * inline with no allocation, so the result is "Hello, world!" of capacity 22.
   */
  method HelloWorld() returns (text: seq<char>, cap: nat)
    ensures text == "Hello, world!" && cap == SboBufSize - 1
  {
    var s1, s2 := HelloParts();
    var st := s1.Append(s2, false);
    assert "Hello" + ", world" == "Hello, world";
    assert st == Ok && s1.content == "Hello, world" && !s1.IsLong();
    st := s1.Push('!', false);
    assert "Hello, world" + ['!'] == "Hello, world!";
    assert st == Ok && s1.content == "Hello, world!";
    text := s1.Str()[..s1.Len()];
    cap := s1.Cap();
  }

  /**
   * Copying the short string "abcdefghij" over a string that held
   * "0123456789": as written only the shared word and the first seven inline
   * bytes arrive, so the copy reads "abcdefg789"; the deep copy reads
   * "abcdefghij".
   */
  method CopyShortString() returns (asWritten: seq<char>, eq: int)
    ensures asWritten == "abcdefg789" && asWritten != "abcdefghij"
    ensures eq == 1
  {
    var src := NewShort("abcdefghij");
    var dst := NewShort("0123456789");
    ghost var before := dst.inline[..];
    assert before[7..10] == "789" by {
      assert before[..10] == "0123456789";
    }
    var st := dst.InitByCopyAsWritten(src, false);
    assert st == Ok && dst.word == 20;
    assert dst.inline[..7] == "abcdefg" by {
      assert src.inline[..7] == src.inline[..10][..7];
    }
    assert dst.inline[7..10] == "789" by {
      assert dst.inline[7..] == before[7..];
      assert dst.inline[7..10] == dst.inline[7..][..3];
      assert before[7..10] == before[7..][..3];
    }
    assert dst.inline[..10] == "abcdefg789" by {
      assert dst.inline[..10] == dst.inline[..7] + dst.inline[7..10];
    }
    asWritten := dst.inline[..10];

    st := dst.InitByCopy(src, false);
    assert st == Ok && dst.content == "abcdefghij";
    eq := dst.Eq(src);
  }

  /** sos_pop undoes a successful sos_push: it returns the pushed byte and restores the content. */
  method PushThenPop(s: Sos, c: char, allocOk: bool) returns (st: Status, ch: char)
    requires s.Valid()
    modifies s, s.inline, s.data
    ensures s.Valid()
    ensures st == Ok ==> ch == c && s.content == old(s.content)
    ensures st != Ok ==> s.content == old(s.content)
  {
    st := s.Push(c, allocOk);
    ch := c;
    if st == Ok {
      ch := s.Pop();
      assert (old(s.content) + [c])[..|old(s.content)|] == old(s.content);
    }
  }

  /**
   * sos_reserve is idempotent: a second reservation of the same capacity
   * succeeds with allocation disabled and leaves the capacity and the mode
   * the first one produced.
   */
  method ReserveTwice(s: Sos, cap: nat, allocOk: bool) returns (st1: Status, st2: Status, cap1: nat, long1: bool)
    requires s.Valid() && cap <= SosMaxLen
    modifies s
    ensures st1 == Ok ==> st2 == Ok && s.Valid() && s.content == old(s.content)
    ensures st1 == Ok ==> cap1 >= cap && s.Cap() == cap1 && s.IsLong() == long1
  {
    st1 := s.Reserve(cap, allocOk);
    st2, cap1, long1 := Ok, 0, false;
    if st1 == Ok {
      cap1, long1 := s.Cap(), s.IsLong();
      st2 := s.Reserve(cap, false);
      assert st2 == Ok;
    }
  }

  /** sos_swap is an involution: swapping twice restores both strings. */
  method SwapTwice(a: Sos, b: Sos)
    requires a.Valid() && b.Valid() && a.Separate(b)
    modifies a, a.inline, b, b.inline
    ensures a.Valid() && b.Valid()
    ensures a.content == old(a.content) && b.content == old(b.content)
    ensures a.word == old(a.word) && a.data == old(a.data) && a.inline[..] == old(a.inline[..])
    ensures b.word == old(b.word) && b.data == old(b.data) && b.inline[..] == old(b.inline[..])
  {
    a.Swap(b);
    a.Swap(b);
  }

  /** Copy independence: after a deep copy of a into b, pushing onto b leaves a as it was. */
  method CopyThenPush(a: Sos, b: Sos, c: char, allocOk: bool) returns (st: Status)
    requires a.Valid() && b.Storage() && b.Separate(a)
    modifies b, b.inline, b.data
    ensures a.Valid() && a.content == old(a.content)
    ensures st == Ok ==> b.Valid() && b.content == old(a.content) + [c]
  {
    st := b.InitByCopy(a, allocOk);
    if st == Ok {
      st := b.Push(c, allocOk);
    }
  }
}
