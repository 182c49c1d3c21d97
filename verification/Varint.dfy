/**
 Base 128 varints: the minimal encoder, its length, and the ten-byte decode loop that the
 generated code writes out at every field.
 */
module Varint {
  import opened GoInts
  import opened Wrappers
  import Seqs

  /** What a decoding step can fail with. */
  datatype Error =
    | IntOverflow
    | UnexpectedEOF
    | InvalidLength
    | EndGroup
    | IllegalTag(fieldNum: int, wire: int)
    | IllegalWireType(wireType: int)
    | WrongWireType(fieldNum: int, wireType: int)

  datatype ReadResult = Ok(value: nat, size: nat) | Err(error: Error)

  const MAX_BYTES := 10

  /** The minimal base 128 encoding of `v`, least significant group first. */
  function Encode(v: nat): (b: bytes)
    ensures |b| >= 1
  {
    if v < 128 then [v] else [128 + v % 128] + Encode(v / 128)
  }

  /** The number the seven-bit groups of `d` stand for. */
  function Value(d: bytes): nat {
    if d == [] then 0 else d[0] % 128 + 128 * Value(d[1..])
  }

  /** Reads the varint at the head of `d`, `k` of whose bytes have been read already. Its value
      is not cut to 64 bits here: ten groups hold 70 bits. */
  function Read(d: bytes, k: nat := 0): (r: ReadResult)
    decreases |d|
  {
    if k >= MAX_BYTES then Err(IntOverflow)
    else if d == [] then Err(UnexpectedEOF)
    else if d[0] < 128 then Ok(d[0], 1)
    else Prepend(d[0] % 128, 128, 1, Read(d[1..], k + 1))
  }

  /** What the loop has accumulated when reading the head of `d` fails: everything there was, up to
      ten bytes. */
  function Partial(d: bytes): nat {
    Value(if |d| < MAX_BYTES then d else d[..MAX_BYTES])
  }

  /** What a successful read consumed, and that nothing after it mattered. */
  lemma {:induction false} ReadLocal(d: bytes, s: bytes, k: nat)
    requires Read(d, k).Ok?
    ensures var r := Read(d, k);
            && 1 <= r.size <= |d| && r.size + k <= MAX_BYTES
            && r.value == Value(d[..r.size])
            && Read(d[..r.size] + s, k) == r
    decreases |d|
  {
    var n := Read(d, k).size;
    if d[0] < 128 {
      Seqs.TakeTail(d, 1, s);
    } else {
      ReadLocal(d[1..], s, k + 1);
      Seqs.TakeTail(d, n, s);
    }
  }

  /** Reading fails exactly on bytes that all announce another one: ten of them overflow, fewer end too soon. */
  lemma {:induction false} ReadFails(d: bytes, k: nat)
    requires k <= MAX_BYTES
    ensures Read(d, k) == Err(IntOverflow) <==> |d| + k >= 10 && forall i :: 0 <= i < 10 - k ==> d[i] >= 128
    ensures Read(d, k) == Err(UnexpectedEOF) <==> |d| + k < 10 && forall i :: 0 <= i < |d| ==> d[i] >= 128
    ensures Read(d, k).Err? ==> Read(d, k).error == IntOverflow || Read(d, k).error == UnexpectedEOF
    decreases |d|
  {
    if k < MAX_BYTES && d != [] && d[0] >= 128 {
      ReadFails(d[1..], k + 1);
      assert forall i :: 1 <= i < |d| ==> d[i] == d[1..][i - 1];
      assert forall i :: 0 <= i < |d| - 1 ==> d[1..][i] == d[i + 1];
    }
  }

  /** The decode loop recovers every number written by the minimal encoder, in exactly as many
      bytes, whatever follows. */
  lemma {:induction false} ReadEncode(v: nat, s: bytes, k: nat)
    requires k < MAX_BYTES && v < Pow2(7 * (MAX_BYTES - k))
    ensures Read(Encode(v) + s, k) == Ok(v, |Encode(v)|)
    ensures |Encode(v)| + k <= MAX_BYTES
    decreases v
  {
    var d := Encode(v) + s;
    if v < 128 {
    } else {
      assert v / 128 < Pow2(7 * (MAX_BYTES - k - 1)) by {
        Pow2Add(7, 7 * (MAX_BYTES - k - 1));
        assert Pow2(7) == 128;
      }
      assert Pow2(7) == 128;
      ReadEncode(v / 128, s, k + 1);
      assert d[1..] == Encode(v / 128) + s;
    }
  }

  /** `ReadEncode` for every uint64. */
  lemma {:induction false} ReadEncode64(v: nat, s: bytes)
    requires v < TWO_64
    ensures Read(Encode(v) + s) == Ok(v, |Encode(v)|)
    ensures |Encode(v)| <= MAX_BYTES
  {
    Pow2Values();
    Pow2Add(64, 6);
    assert v < Pow2(70);
    ReadEncode(v, s, 0);
  }

  /** No encoding that reads back as `v` is shorter than the minimal one. */
  lemma {:induction false} EncodeMinimal(d: bytes, k: nat)
    requires Read(d, k).Ok?
    ensures |Encode(Read(d, k).value)| <= Read(d, k).size
    decreases |d|
  {
    if d[0] >= 128 {
      EncodeMinimal(d[1..], k + 1);
      var v := Read(d[1..], k + 1).value;
      var u := d[0] % 128 + 128 * v;
      assert u / 128 == v;
    }
  }

  lemma {:induction false} LengthMonotone(x: nat, y: nat)
    requires x <= y
    ensures |Encode(x)| <= |Encode(y)|
  {
    if x >= 128 { LengthMonotone(x / 128, y / 128); }
  }

  /** The length of a varint is subadditive: merging two lengths never costs more. */
  lemma {:induction false} LengthSubadditive(x: nat, y: nat)
    ensures |Encode(x + y)| <= |Encode(x)| + |Encode(y)|
  {
    var m := if x < y then y else x;
    if x + y >= 128 {
      LengthMonotone((x + y) / 128, m);
    }
  }

  /** Cutting the value to a narrower integer never makes it longer. */
  lemma {:induction false} LengthOfRemainder(v: nat, m: nat)
    requires m > 0
    ensures |Encode(v % m)| <= |Encode(v)|
  {
    LengthMonotone(v % m, v);
  }

  /** The outcome `r` of reading on, after `size` bytes worth `value` and with the next group
      counting `weight` times. */
  function Prepend(value: nat, weight: nat, size: nat, r: ReadResult): ReadResult {
    match r
    case Ok(v, n) => Ok(value + weight * v, size + n)
    case Err(e) => Err(e)
  }

  lemma {:induction false} Weight(g: nat, n: nat)
    ensures Pow2(7 * (n + 1)) == 128 * Pow2(7 * n)
    ensures 128 * (g * Pow2(7 * n)) == g * Pow2(7 * (n + 1))
  {
    Pow2Add(7, 7 * n);
    assert Pow2(7) == 128;
    var w := Pow2(7 * n);
    MulAssoc(g, 128, w);
    MulAssoc(128, g, w);
  }

  lemma {:induction false} ValueAppend(p: bytes, b: byte)
    ensures Value(p) < Pow2(7 * |p|)
    ensures Value(p + [b]) == Value(p) + (b % 128) * Pow2(7 * |p|)
  {
    if p == [] {
    } else {
      ValueAppend(p[1..], b);
      assert (p + [b])[1..] == p[1..] + [b];
      Weight(b % 128, |p| - 1);
    }
  }

  /** Moving one group from what is to come to what was read changes nothing. */
  lemma {:induction false} PrependStep(value: nat, weight: nat, size: nat, b: nat, r: ReadResult)
    ensures Prepend(value, weight, size, Prepend(b, 128, 1, r))
         == Prepend(value + b * weight, weight * 128, size + 1, r)
  {
    if r.Ok? {
      MulAssoc(weight, 128, r.value);
      MulDistributes(b, 128 * r.value, weight);
    }
  }

  /** What the loop still promises once it has read `p` and has `rest` ahead. */
  function Pending(p: bytes, rest: bytes): ReadResult {
    Prepend(Value(p), Pow2(7 * |p|), |p|, Read(rest, |p|))
  }

  lemma {:induction false} PendingStep(p: bytes, rest: bytes)
    requires rest != [] && |p| < MAX_BYTES
    ensures var next := p + [rest[0]];
            Pending(p, rest) == if rest[0] < 128 then Ok(Value(next), |next|) else Pending(next, rest[1..])
  {
    var b := rest[0];
    ValueAppend(p, b);
    assert 7 * |p + [b]| == 7 + 7 * |p|;
    Pow2Add(7, 7 * |p|);
    assert Pow2(7) == 128;
    if b < 128 {
      assert Pow2(7 * |p|) * b == b * Pow2(7 * |p|);
    } else {
      PrependStep(Value(p), Pow2(7 * |p|), |p|, b % 128, Read(rest[1..], |p| + 1));
    }
  }

  lemma {:induction false} ValueEmpty(width: nat)
    ensures Value([]) % Pow2(width) == 0
  {
    RemainderIs(0, Pow2(width), 0, 0);
  }

  lemma {:induction false} PendingStop(p: bytes, rest: bytes)
    ensures Pending([], rest) == Read(rest)
    ensures |p| >= MAX_BYTES ==> Pending(p, rest) == Err(IntOverflow)
    ensures |p| < MAX_BYTES && rest == [] ==> Pending(p, rest) == Err(UnexpectedEOF)
  {
    assert Pow2(0) == 1 && Value([]) == 0;
  }

  lemma {:induction false} Accumulate(p: bytes, b: byte, width: nat)
    ensures Or(Value(p) % Pow2(width), Shl(b % 128, 7 * |p|, width)) == Value(p + [b]) % Pow2(width)
  {
    ValueAppend(p, b);
    OrStep(Value(p), b % 128, 7 * |p|, width);
  }

  /** The loop written out at every field: it or-s seven bits at a time into an integer of
      `width` bits, reading from `dAtA` at `start`. */
  method Decode(dAtA: bytes, start: nat, width: nat) returns (err: Option<Error>, v: nat, iNdEx: nat)
    requires start <= |dAtA|
    ensures match Read(dAtA[start..])
            case Ok(value, size) => err == None && v == value % Pow2(width) && iNdEx == start + size <= |dAtA|
            case Err(e) => err == Some(e) && v == Partial(dAtA[start..]) % Pow2(width)
  {
    iNdEx, v := start, 0;
    var shift := 0;
    hide Pending, Value, Read, Or, Shl, Pow2;
    ghost var p, rest := [], dAtA[start..];
    PendingStop(p, rest);
    assert v == Value(p) % Pow2(width) by { ValueEmpty(width); }
    while true
      invariant start <= iNdEx <= |dAtA| && iNdEx - start == |p| <= MAX_BYTES
      invariant p == dAtA[start..iNdEx] && rest == dAtA[iNdEx..] && shift == 7 * |p|
      invariant v == Value(p) % Pow2(width)
      invariant Read(dAtA[start..]) == Pending(p, rest)
      decreases |rest|
    {
      PendingStop(p, rest);
      if shift >= 64 {
        assert dAtA[start..][..MAX_BYTES] == p;
        return Some(IntOverflow), v, iNdEx;
      }
      if iNdEx >= |dAtA| {
        assert dAtA[start..] == p;
        return Some(UnexpectedEOF), v, iNdEx;
      }
      var b := dAtA[iNdEx];
      PendingStep(p, rest);
      Accumulate(p, b, width);
      iNdEx := iNdEx + 1;
      v := Or(v, Shl(b % 128, shift, width));
      p, rest := p + [b], rest[1..];
      if b < 0x80 {
        return None, v, iNdEx;
      }
      shift := shift + 7;
    }
  }

  /** The library's SizeOfVarint. */
  method SizeOfVarint(v: nat) returns (n: nat)
    ensures n == |Encode(v)|
  {
    var rest := v;
    n := 1;
    while rest >= 128
      invariant n >= 1 && n - 1 + |Encode(rest)| == |Encode(v)|
    {
      rest := rest / 128;
      n := n + 1;
    }
  }

  /** The library's EncodeVarint: writes `v` so that it ends just before `offset` and returns
      where it begins. */
  method EncodeVarint(dAtA: array<byte>, offset: nat, v: nat) returns (base: nat)
    requires |Encode(v)| <= offset <= dAtA.Length
    modifies dAtA
    ensures base == offset - |Encode(v)|
    ensures dAtA[base..offset] == Encode(v)
    ensures dAtA[..base] == old(dAtA[..base]) && dAtA[offset..] == old(dAtA[offset..])
  {
    var size := SizeOfVarint(v);
    base := offset - size;
    var i, rest := base, v;
    ghost var before := dAtA[..];
    while rest >= 128
      invariant base <= i < offset && i - base + |Encode(rest)| == size
      invariant dAtA[base..i] + Encode(rest) == Encode(v)
      invariant dAtA[..base] == before[..base] && dAtA[offset..] == before[offset..]
    {
      ghost var done := dAtA[base..i];
      dAtA[i] := 128 + rest % 128;
      assert dAtA[base..i + 1] == done + [128 + rest % 128];
      Seqs.ConcatAssoc(done, [128 + rest % 128], Encode(rest / 128));
      rest := rest / 128;
      i := i + 1;
    }
    ghost var done := dAtA[base..i];
    dAtA[i] := rest;
    assert dAtA[base..i + 1] == done + [rest];
  }
}
