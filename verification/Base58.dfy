/**
 Base58 with the Bitcoin alphabet: a number in base 58 after one '1' for every leading zero byte.
 */
module Base58 {
  import opened GoInts
  import opened Wrappers

  /** The most significant digit comes first, and no leading zero is written. */
  function Digits(n: nat, base: nat): (ds: seq<nat>)
    requires base >= 2
    ensures forall i :: 0 <= i < |ds| ==> ds[i] < base
  {
    if n == 0 then [] else Digits(n / base, base) + [n % base]
  }

  function Number(ds: seq<nat>, base: nat): nat {
    if ds == [] then 0 else Number(ds[..|ds| - 1], base) * base + ds[|ds| - 1]
  }

  lemma {:induction false} DivMod(n: nat, base: nat)
    requires base >= 2
    ensures (n / base) * base + n % base == n
    ensures n > 0 ==> n / base < n
    ensures n / base == 0 ==> n % base == n
  {
    assert n == base * (n / base) + n % base;
    if n > 0 && n / base >= n { MulMonotone(n, n / base, base); MulMonotone(2, base, n); }
  }

  lemma {:induction false} NumberOfDigits(n: nat, base: nat)
    requires base >= 2
    ensures Number(Digits(n, base), base) == n
    ensures n > 0 ==> |Digits(n, base)| > 0 && Digits(n, base)[0] != 0
  {
    if n > 0 {
      DivMod(n, base);
      NumberOfDigits(n / base, base);
      Last(Digits(n / base, base), n % base, base);
    }
  }

  lemma {:induction false} Last(ds: seq<nat>, d: nat, base: nat)
    ensures Number(ds + [d], base) == Number(ds, base) * base + d
  {
    assert (ds + [d])[..|ds|] == ds;
  }

  lemma {:induction false} DigitsOfNumber(ds: seq<nat>, base: nat)
    requires base >= 2 && forall i :: 0 <= i < |ds| ==> ds[i] < base
    requires ds != [] ==> ds[0] != 0
    ensures Digits(Number(ds, base), base) == ds
    ensures ds != [] ==> Number(ds, base) > 0
  {
    if ds != [] {
      var rest, last := ds[..|ds| - 1], ds[|ds| - 1];
      DigitsOfNumber(rest, base);
      var q := Number(rest, base);
      RemainderIs(q * base + last, base, q, last);
      QuotientIs(q, base, last);
      assert ds == rest + [last];
      if rest != [] { MulMonotone(1, q, base); }
    }
  }

  lemma {:induction false} QuotientIs(q: nat, base: nat, r: nat)
    requires r < base
    ensures (q * base + r) / base == q
  {
    var n := q * base + r;
    RemainderIs(n, base, q, r);
    var q' := n / base;
    assert n == base * q' + n % base;
    if q' > q {
      MulMonotone(q + 1, q', base);
      MulDistributes(q, 1, base);
    } else if q' < q {
      MulMonotone(q' + 1, q, base);
      MulDistributes(q', 1, base);
    }
  }

  function Zeros(n: nat): (ds: seq<nat>)
    ensures |ds| == n && forall i :: 0 <= i < n ==> ds[i] == 0
  {
    if n == 0 then [] else [0] + Zeros(n - 1)
  }

  function LeadingZeros(ds: seq<nat>): (n: nat)
    ensures n <= |ds| && (forall i :: 0 <= i < n ==> ds[i] == 0) && (n < |ds| ==> ds[n] != 0)
  {
    if ds == [] || ds[0] != 0 then 0 else 1 + LeadingZeros(ds[1..])
  }

  lemma {:induction false} NumberAfterZeros(z: nat, ds: seq<nat>, base: nat)
    ensures Number(Zeros(z) + ds, base) == Number(ds, base)
    decreases |ds|, z
  {
    var all := Zeros(z) + ds;
    if ds != [] {
      assert all[..|all| - 1] == Zeros(z) + ds[..|ds| - 1];
      NumberAfterZeros(z, ds[..|ds| - 1], base);
    } else if z > 0 {
      assert all == Zeros(z) && all[..|all| - 1] == Zeros(z - 1) + [];
      NumberAfterZeros(z - 1, [], base);
    }
  }

  // ----- The alphabet -----

  /** The ASCII code of a digit: 1-9, A-H, J-N, P-Z, a-k, m-z. */
  function Char(d: nat): (c: byte)
    requires d < 58
    ensures c != '/' as int && Digit(c) == Some(d)
  {
    if d < 9 then '1' as int + d
    else if d < 17 then 'A' as int + d - 9
    else if d < 22 then 'J' as int + d - 17
    else if d < 33 then 'P' as int + d - 22
    else if d < 44 then 'a' as int + d - 33
    else 'm' as int + d - 44
  }

  function Digit(c: byte): (d: Option<nat>)
    ensures d.Some? ==> d.value < 58
  {
    if '1' as int <= c <= '9' as int then Some(c - '1' as int)
    else if 'A' as int <= c <= 'H' as int then Some(c - 'A' as int + 9)
    else if 'J' as int <= c <= 'N' as int then Some(c - 'J' as int + 17)
    else if 'P' as int <= c <= 'Z' as int then Some(c - 'P' as int + 22)
    else if 'a' as int <= c <= 'k' as int then Some(c - 'a' as int + 33)
    else if 'm' as int <= c <= 'z' as int then Some(c - 'm' as int + 44)
    else None
  }

  function Chars(ds: seq<nat>): (s: bytes)
    requires forall i :: 0 <= i < |ds| ==> ds[i] < 58
    ensures |s| == |ds| && '/' as int !in s
  {
    seq(|ds|, i requires 0 <= i < |ds| => Char(ds[i]))
  }

  function DigitsOf(s: bytes): (ds: Option<seq<nat>>)
    ensures ds.Some? ==> |ds.value| == |s| && forall i :: 0 <= i < |s| ==> ds.value[i] < 58
  {
    if forall i :: 0 <= i < |s| ==> Digit(s[i]).Some?
    then Some(seq(|s|, i requires 0 <= i < |s| => Digit(s[i]).value))
    else None
  }

  function AsBytes(ds: seq<nat>): (b: bytes)
    requires forall i :: 0 <= i < |ds| ==> ds[i] < 256
    ensures |b| == |ds| && forall i :: 0 <= i < |b| ==> b[i] == ds[i]
  {
    seq(|ds|, i requires 0 <= i < |ds| => ds[i] as byte)
  }

  function Encode(b: bytes): (s: bytes)
    ensures '/' as int !in s
  {
    Chars(Zeros(LeadingZeros(b)) + Digits(Number(b, 256), 58))
  }

  /** The empty string and foreign characters are errors. */
  function Decode(s: bytes): Option<bytes> {
    if s == [] then None
    else
      match DigitsOf(s)
      case None => None
      case Some(ds) => Some(AsBytes(Zeros(LeadingZeros(ds)) + Digits(Number(ds, 58), 256)))
  }

  lemma {:induction false} DigitsOfChars(ds: seq<nat>)
    requires forall i :: 0 <= i < |ds| ==> ds[i] < 58
    ensures DigitsOf(Chars(ds)) == Some(ds)
  {
    var s := Chars(ds);
    assert forall i :: 0 <= i < |s| ==> Digit(s[i]) == Some(ds[i]);
    assert DigitsOf(s).value == ds;
  }

  lemma {:induction false} LeadingZerosOf(z: nat, ds: seq<nat>)
    requires ds != [] ==> ds[0] != 0
    ensures LeadingZeros(Zeros(z) + ds) == z
  {
    var all := Zeros(z) + ds;
    assert z < |all| ==> all[z] == ds[0];
    assert forall i :: 0 <= i < z ==> all[i] == 0;
  }

  /** Splitting a sequence into its leading zeros and a number without any. */
  lemma {:induction false} LeadingZerosSplit(ds: seq<nat>, base: nat)
    requires base >= 2 && forall i :: 0 <= i < |ds| ==> ds[i] < base
    ensures var z := LeadingZeros(ds);
            && ds == Zeros(z) + ds[z..]
            && Digits(Number(ds, base), base) == ds[z..]
  {
    var z := LeadingZeros(ds);
    NumberAfterZeros(z, ds[z..], base);
    assert ds == Zeros(z) + ds[z..];
    DigitsOfNumber(ds[z..], base);
  }

  /** Decoding inverts encoding on every non-empty byte string; the empty one encodes to the empty
      string, which does not decode. */
  lemma {:induction false} DecodeEncode(b: bytes)
    ensures Decode(Encode(b)) == if b == [] then None else Some(b)
  {
    hide Digits, Number, LeadingZeros, Chars, DigitsOf, Zeros, Digit, Char;
    EncodeEmpty();
    if b != [] {
      var z, n := LeadingZeros(b), Number(b, 256);
      var all := Zeros(z) + Digits(n, 58);
      EncodingNotEmpty(b);
      DigitsOfChars(all);
      NumberOfDigits(n, 58);
      DigitsOfZero(n, 58);
      LeadingZerosOf(z, Digits(n, 58));
      NumberAfterZeros(z, Digits(n, 58), 58);
      LeadingZerosSplit(b, 256);
      assert AsBytes(Zeros(z) + Digits(n, 256)) == b;
    }
  }

  lemma {:induction false} CharsOfDigits(s: bytes)
    requires DigitsOf(s).Some?
    ensures Chars(DigitsOf(s).value) == s
  {
    forall i | 0 <= i < |s|
      ensures Char(DigitsOf(s).value[i]) == s[i]
    {
    }
  }

  /** Only encodings decode: whatever string does is the encoding of what it decodes to, so one with a character
      outside the alphabet does not. */
  lemma {:induction false} EncodeDecode(s: bytes)
    requires Decode(s).Some?
    ensures Decode(s).value != [] && Encode(Decode(s).value) == s
  {
    hide Digits, Number, LeadingZeros, Chars, DigitsOf, Zeros, Digit, Char;
    var ds, b := DigitsOf(s).value, Decode(s).value;
    var z, n := LeadingZeros(ds), Number(ds, 58);
    var all := Zeros(z) + Digits(n, 256);
    assert b == all;
    CharsOfDigits(s);
    LeadingZerosSplit(ds, 58);
    NumberOfDigits(n, 256);
    DigitsOfZero(n, 256);
    LeadingZerosOf(z, Digits(n, 256));
    NumberAfterZeros(z, Digits(n, 256), 256);
    if all == [] { NotEmptyNumber(ds); }
  }

  lemma {:induction false} NotEmptyNumber(ds: seq<nat>)
    requires ds != [] && LeadingZeros(ds) == 0 && forall i :: 0 <= i < |ds| ==> ds[i] < 58
    ensures Number(ds, 58) > 0
  {
    DigitsOfNumber(ds, 58);
  }

  /** Two encodings in full: 'a' is 2g, and a zero byte is written as the digit 1. */
  lemma {:induction false} EncodeExample()
    ensures Encode(['a' as int]) == ['2' as int, 'g' as int]
    ensures Encode([0]) == ['1' as int]
  {
    var a: bytes := ['a' as int];
    assert a[..0] == [] && Number([], 256) == 0 && Number(a, 256) == 97;
    assert 97 / 58 == 1 && 97 % 58 == 39 && Digits(1, 58) == [1] && Digits(97, 58) == [1, 39];
    assert Zeros(LeadingZeros(a)) + Digits(97, 58) == [1, 39];
    var z: bytes := [0];
    assert z[1..] == [] && LeadingZeros(z) == 1;
    assert z[..0] == [] && Number(z, 256) == 0 && Zeros(1) + Digits(0, 58) == [0];
  }

  lemma {:induction false} EncodeEmpty()
    ensures Encode([]) == []
  {
  }

  lemma {:induction false} DigitsOfZero(n: nat, base: nat)
    requires base >= 2
    ensures n == 0 ==> Digits(n, base) == []
  {
  }

  lemma {:induction false} EncodingNotEmpty(b: bytes)
    requires b != []
    ensures Encode(b) != []
  {
    if b[0] != 0 {
      DigitsOfNumber(b, 256);
      NumberOfDigits(Number(b, 256), 58);
    }
  }
}
