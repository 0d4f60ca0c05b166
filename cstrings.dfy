/**
 * Terminator-delimited text as the C library sees it. A C string argument is
 * modelled by the bytes its pointer addresses, which hold a NUL somewhere;
 * the text is everything before the first NUL.
 */
module CStrings {

  /** The terminator byte. */
  const Nul: char := 0 as char

  /** strlen: the index of the first NUL. */
  function StrLen(s: seq<char>): (n: nat)
    requires Nul in s
    ensures n < |s| && s[n] == Nul
    ensures Nul !in s[..n]
  {
    if s[0] == Nul then 0
    else
      var m := StrLen(s[1..]);
      assert s[..m + 1] == [s[0]] + s[1..][..m];
      m + 1
  }

  /** The text a C string denotes. */
  function Text(s: seq<char>): seq<char>
    requires Nul in s
  {
    s[..StrLen(s)]
  }

  /** A NUL at index i with no NUL before it is where strlen stops. */
  lemma StrLenAt(s: seq<char>, i: nat)
    requires i < |s| && s[i] == Nul && Nul !in s[..i]
    ensures StrLen(s) == i
  {
  }

  /** Text written out with its terminator reads back as itself (the round trip of writing a terminator). */
  lemma TextOfTerminated(t: seq<char>)
    requires Nul !in t
    ensures Nul in t + [Nul]
    ensures StrLen(t + [Nul]) == |t|
    ensures Text(t + [Nul]) == t
  {
    var s := t + [Nul];
    assert s[|t|] == Nul;
    assert s[..|t|] == t;
    StrLenAt(s, |t|);
  }

  /** tolower in the "C" locale: ASCII upper-case letters map to lower case. */
  function Lower(c: char): (d: char)
    ensures d == Nul <==> c == Nul
    ensures !('A' <= d <= 'Z')
    ensures 'a' <= c <= 'z' ==> d == c
  {
    if 'A' <= c <= 'Z' then (c as int + 32) as char else c
  }

  /** Case folding of a whole text, one byte at a time. */
  function Fold(s: seq<char>): (r: seq<char>)
    ensures |r| == |s|
    ensures forall k :: 0 <= k < |s| ==> r[k] == Lower(s[k])
  {
    seq(|s|, k requires 0 <= k < |s| => Lower(s[k]))
  }

  /** Folding distributes over concatenation. */
  lemma FoldConcat(a: seq<char>, b: seq<char>)
    ensures Fold(a + b) == Fold(a) + Fold(b)
  {
    assert forall k :: 0 <= k < |a + b| ==> Fold(a + b)[k] == (Fold(a) + Fold(b))[k] by {
      forall k | 0 <= k < |a + b|
        ensures Fold(a + b)[k] == (Fold(a) + Fold(b))[k]
      {
        if k < |a| {
          assert (a + b)[k] == a[k];
        } else {
          assert (a + b)[k] == b[k - |a|];
        }
      }
    }
  }

  /**
   * Folding commutes with taking the C text: the first NUL stays where it
   * was, so comparing the folded texts is comparing the texts of the folded
   * bytes, which is what the tolower scan of sos_ieq reads.
   */
  lemma FoldText(s: seq<char>)
    requires Nul in s
    ensures Nul in Fold(s)
    ensures StrLen(Fold(s)) == StrLen(s)
    ensures Fold(Text(s)) == Text(Fold(s))
  {
    var n := StrLen(s);
    var f := Fold(s);
    assert f[n] == Nul;
    assert forall k :: 0 <= k < n ==> f[k] != Nul by {
      forall k | 0 <= k < n
        ensures f[k] != Nul
      {
        assert s[..n][k] == s[k];
      }
    }
    assert Nul !in f[..n];
    StrLenAt(f, n);
    assert Fold(s[..n]) == f[..n];
  }
}
