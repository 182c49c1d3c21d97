/** Facts about sequences that cost the solver less when they are stated on their own. */
module Seqs {
  lemma {:induction false} ConcatAssoc<T>(a: seq<T>, b: seq<T>, c: seq<T>)
    ensures (a + b) + c == a + (b + c)
  {
  }

  lemma {:induction false} SplitAt<T>(s: seq<T>, n: nat)
    requires n <= |s|
    ensures s == s[..n] + s[n..]
  {
  }

  lemma {:induction false} SplitAppend<T>(s: seq<T>, n: nat, t: seq<T>)
    requires n <= |s|
    ensures s + t == s[..n] + (s[n..] + t)
  {
  }

  lemma {:induction false} DropFirst<T>(a: seq<T>, b: seq<T>)
    ensures (a + b)[|a|..] == b && (a + b)[..|a|] == a && a[..|a|] == a
  {
  }

  lemma {:induction false} DropDrop<T>(s: seq<T>, i: nat, n: nat)
    requires i + n <= |s|
    ensures s[i..][n..] == s[i + n..]
  {
  }

  /** Sequences with a common prefix agree on every part of it. */
  lemma {:induction false} SamePart<T>(s: seq<T>, t: seq<T>, i: nat, j: nat, end: nat)
    requires i <= j <= end <= |s| && end <= |t| && s[..end] == t[..end]
    ensures s[i..j] == t[i..j] && s[i..][..j - i] == t[i..j] && t[i..] == t[i..j] + t[j..]
  {
    forall k | i <= k < j
      ensures s[k] == t[k]
    {
      assert s[..end][k] == t[..end][k];
    }
  }

  lemma {:induction false} TakeTail<T>(s: seq<T>, n: nat, t: seq<T>)
    requires 1 <= n <= |s|
    ensures s[..n][1..] == s[1..][..n - 1] && (s[..n] + t)[1..] == s[1..][..n - 1] + t
    ensures s[..n][0] == s[0] && (s[..n] + t)[0] == s[0]
  {
  }

  lemma {:induction false} RightUnit<T>(a: seq<T>)
    ensures a + [] == a && [] + a == a
  {
  }
}
