/** Writing backwards into a buffer that was sized before. */
module Buffers {
  import opened GoInts
  import opened Varint
  import opened Wire

  /** `after` is `before` with `content` written at `lo..hi` and nothing else touched. */
  ghost predicate Framed(after: bytes, before: bytes, lo: nat, hi: nat, content: bytes) {
    && |after| == |before| && lo <= hi <= |before|
    && after[lo..hi] == content
    && after[..lo] == before[..lo] && after[hi..] == before[hi..]
  }

  lemma {:induction false} FramedAll(after: bytes, before: bytes, hi: nat, content: bytes)
    requires Framed(after, before, 0, hi, content) && hi == |after|
    ensures after == content
  {
    assert after[0..hi] == after;
  }

  lemma {:induction false} FramedNothing(before: bytes, i: nat)
    requires i <= |before|
    ensures Framed(before, before, i, i, [])
  {
  }

  /** Writing `x` just before `y` writes `x + y`. */
  lemma {:induction false} FramedChain(s2: bytes, s1: bytes, s0: bytes, a: nat, b: nat, c: nat, x: bytes, y: bytes)
    requires Framed(s1, s0, b, c, y) && Framed(s2, s1, a, b, x)
    ensures Framed(s2, s0, a, c, x + y)
  {
    assert s2[b..c] == s2[b..][..c - b] == s1[b..][..c - b] == s1[b..c];
    assert s2[a..c] == s2[a..b] + s2[b..c];
    assert s2[..a] == s1[..b][..a] == s0[..b][..a];
    assert s2[c..] == s2[b..][c - b..] == s1[b..][c - b..] == s1[c..];
  }

  /** `copy(dAtA[i:], p)` after `i -= len(p)`. */
  method CopyBefore(dAtA: array<byte>, end: nat, p: bytes) returns (i: nat)
    requires |p| <= end <= dAtA.Length
    modifies dAtA
    ensures i == end - |p| && Framed(dAtA[..], old(dAtA[..]), i, end, p)
  {
    i := end - |p|;
    forall k | 0 <= k < |p| {
      dAtA[i + k] := p[k];
    }
  }

  method PutByte(dAtA: array<byte>, end: nat, b: byte) returns (i: nat)
    requires 1 <= end <= dAtA.Length
    modifies dAtA
    ensures i == end - 1 && Framed(dAtA[..], old(dAtA[..]), i, end, [b])
  {
    i := end - 1;
    dAtA[i] := b;
  }

  method PutVarint(dAtA: array<byte>, end: nat, v: nat) returns (i: nat)
    requires |Varint.Encode(v)| <= end <= dAtA.Length
    modifies dAtA
    ensures i == end - |Varint.Encode(v)| && Framed(dAtA[..], old(dAtA[..]), i, end, Varint.Encode(v))
  {
    i := EncodeVarint(dAtA, end, v);
    assert dAtA[..][i..end] == dAtA[i..end] && dAtA[..][..i] == dAtA[..i] && dAtA[..][end..] == dAtA[end..];
  }

  /** Puts the length and the tag before a payload that is already written. */
  method PutHeader(dAtA: array<byte>, ghost before: bytes, end: nat, num: nat, ghost p: bytes,
                   size: nat) returns (i: nat)
    requires 1 <= num <= 15 && size == |p| && |Tagged(num, p)| <= end <= dAtA.Length
    requires Framed(dAtA[..], before, end - size, end, p)
    modifies dAtA
    ensures i == end - |Tagged(num, p)| && Framed(dAtA[..], before, i, end, Tagged(num, p))
  {
    ghost var s1 := dAtA[..];
    i := PutVarint(dAtA, end - size, size);
    ghost var j, s2 := i, dAtA[..];
    i := PutByte(dAtA, i, num * 8 + 2);
    FramedChain(s2, s1, before, j, end - size, end, Varint.Encode(size), p);
    FramedChain(dAtA[..], s2, before, i, j, end, [num * 8 + 2], Varint.Encode(size) + p);
  }

  /** A bytes or string field, written if it is not empty. */
  method PutOptional(dAtA: array<byte>, end: nat, num: nat, p: bytes) returns (i: nat)
    requires 1 <= num <= 15 && |Optional(num, p)| <= end <= dAtA.Length
    modifies dAtA
    ensures i == end - |Optional(num, p)| && Framed(dAtA[..], old(dAtA[..]), i, end, Optional(num, p))
  {
    i := end;
    if |p| > 0 {
      i := CopyBefore(dAtA, end, p);
      i := PutHeader(dAtA, old(dAtA[..]), end, num, p, |p|);
    }
  }

  /** The size of a bytes or string field of length `l`. */
  method SizeOfOptional(num: nat, l: nat, ghost p: bytes) returns (n: nat)
    requires 1 <= num <= 15 && l == |p|
    ensures n == |Optional(num, p)|
  {
    n := 0;
    if l > 0 {
      var s := SizeOfVarint(l);
      n := 1 + l + s;
    }
  }
}
