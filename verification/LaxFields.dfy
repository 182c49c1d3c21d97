/**
 The fields that skipping accepts, as a grammar: varints of any length, any field number and any end-group
 number. Skipping is proved to accept exactly these, and every decoded input to be a sequence of them.
 */
module LaxFields {
  import opened GoInts
  import opened Varint
  import opened Wire
  import Seqs

  datatype LaxField =
    | Scalar(tag: bytes, value: bytes)
    | Fixed(tag: bytes, raw: bytes)
    | Delimited(tag: bytes, length: bytes, payload: bytes)
    | Group(tag: bytes, members: seq<LaxField>, end: bytes)

  predicate IsVarint(b: bytes) {
    Read(b).Ok? && Read(b).size == |b|
  }

  predicate IsTag(b: bytes, wireType: nat) {
    IsVarint(b) && Read(b).value % TWO_64 % 8 == wireType
  }

  predicate LaxWf(f: LaxField) {
    match f
    case Scalar(tag, value) => IsTag(tag, 0) && IsVarint(value)
    case Fixed(tag, raw) => (IsTag(tag, 1) && |raw| == 8) || (IsTag(tag, 5) && |raw| == 4)
    case Delimited(tag, length, payload) =>
      IsTag(tag, 2) && IsVarint(length) && Read(length).value % TWO_64 == |payload| < TWO_63
    case Group(tag, members, end) => IsTag(tag, 3) && AllLaxWf(members) && IsTag(end, 4)
  }

  predicate AllLaxWf(fs: seq<LaxField>) {
    forall i :: 0 <= i < |fs| ==> LaxWf(fs[i])
  }

  function LaxBody(f: LaxField): bytes
    decreases f, 0
  {
    match f
    case Scalar(_, value) => value
    case Fixed(_, raw) => raw
    case Delimited(_, length, payload) => length + payload
    case Group(_, members, end) => LaxAll(members) + end
  }

  function LaxBytes(f: LaxField): bytes
    decreases f, 1
  {
    f.tag + LaxBody(f)
  }

  function LaxAll(fs: seq<LaxField>): bytes
    decreases fs, 0
  {
    if fs == [] then [] else LaxBytes(fs[0]) + LaxAll(fs[1..])
  }

  /** `part` stands in `d` at `i`. */
  predicate StandsAt(d: bytes, i: nat, part: bytes) {
    i + |part| <= |d| && d[i..i + |part|] == part
  }

  lemma {:induction false} AtParts(d: bytes, i: nat, a: bytes, b: bytes)
    requires StandsAt(d, i, a + b)
    ensures StandsAt(d, i, a) && StandsAt(d, i + |a|, b)
  {
    assert d[i..i + |a|] == (a + b)[..|a|] == a;
    assert d[i + |a|..i + |a| + |b|] == (a + b)[|a|..] == b;
  }

  lemma {:induction false} AtWhole(d: bytes, i: nat, a: bytes, b: bytes)
    requires StandsAt(d, i, a) && StandsAt(d, i + |a|, b)
    ensures StandsAt(d, i, a + b)
  {
    assert d[i..i + |a| + |b|] == d[i..i + |a|] + d[i + |a|..i + |a| + |b|];
  }

  /** Where a whole field leaves the skipping loop. */
  function Past(d: bytes, end: nat, depth: nat): SkipResult {
    if depth == 0 then Skipped(end) else SkipFrom(d, end, depth)
  }

  // ----- What is in the grammar is skipped -----

  lemma {:induction false} ReadStanding(d: bytes, i: nat, b: bytes)
    requires IsVarint(b) && StandsAt(d, i, b)
    ensures i < |d| && Read(d[i..]) == Read(b)
  {
    ReadLocal(b, d[i + |b|..], 0);
    assert b[..|b|] == b;
    assert d[i..] == b + d[i + |b|..];
  }

  lemma {:induction false} FlatPayloadEnd(d: bytes, j: nat, f: LaxField, wireType: nat)
    requires LaxWf(f) && !f.Group? && IsTag(f.tag, wireType) && StandsAt(d, j, LaxBody(f))
    ensures PayloadEnd(d, j, wireType) == Skipped(j + |LaxBody(f)|)
  {
    hide Read;
    match f {
      case Scalar(_, value) =>
        ReadStanding(d, j, value);
      case Delimited(_, length, payload) =>
        AtParts(d, j, length, payload);
        ReadStanding(d, j, length);
      case Fixed(_, _) =>
    }
  }

  lemma {:induction false} SkipFlat(d: bytes, i: nat, depth: nat, f: LaxField)
    requires LaxWf(f) && !f.Group? && StandsAt(d, i, LaxBytes(f)) && |d| < TWO_63
    ensures SkipFrom(d, i, depth) == Past(d, i + |LaxBytes(f)|, depth)
  {
    hide Read, LaxBody, PayloadEnd;
    AtParts(d, i, f.tag, LaxBody(f));
    ReadStanding(d, i, f.tag);
    FlatPayloadEnd(d, i + |f.tag|, f, Read(f.tag).value % TWO_64 % 8);
    assert SkipOne(d, i, depth) == SkipStep.At(i + |f.tag| + |LaxBody(f)|, depth);
  }

  lemma {:induction false} SkipOpen(d: bytes, i: nat, depth: nat, tag: bytes)
    requires IsTag(tag, 3) && StandsAt(d, i, tag) && |d| < TWO_63
    ensures SkipFrom(d, i, depth) == SkipFrom(d, i + |tag|, depth + 1)
  {
    hide Read;
    ReadStanding(d, i, tag);
    assert SkipOne(d, i, depth) == SkipStep.At(i + |tag|, depth + 1);
  }

  lemma {:induction false} SkipClose(d: bytes, i: nat, depth: nat, end: bytes)
    requires IsTag(end, 4) && StandsAt(d, i, end) && |d| < TWO_63
    ensures SkipFrom(d, i, depth + 1) == Past(d, i + |end|, depth)
  {
    hide Read;
    ReadStanding(d, i, end);
    assert SkipOne(d, i, depth + 1) == SkipStep.At(i + |end|, depth);
  }

  /** Wherever a whole field stands, at whatever group depth, skipping moves exactly past it: over the
      balanced members of a group and its end tag. */
  lemma {:induction false} SkipLax(d: bytes, i: nat, depth: nat, f: LaxField)
    requires LaxWf(f) && StandsAt(d, i, LaxBytes(f)) && |d| < TWO_63
    ensures SkipFrom(d, i, depth) == Past(d, i + |LaxBytes(f)|, depth)
    decreases f, 1
  {
    hide SkipFrom, LaxAll, StandsAt, Past, IsTag;
    if f.Group? {
      AtParts(d, i, f.tag, LaxAll(f.members) + f.end);
      var j := i + |f.tag|;
      AtParts(d, j, LaxAll(f.members), f.end);
      SkipOpen(d, i, depth, f.tag);
      SkipLaxMembers(d, j, depth + 1, f.members);
      SkipClose(d, j + |LaxAll(f.members)|, depth, f.end);
    } else {
      SkipFlat(d, i, depth, f);
    }
  }

  lemma {:induction false} SkipLaxMembers(d: bytes, i: nat, depth: nat, fs: seq<LaxField>)
    requires AllLaxWf(fs) && StandsAt(d, i, LaxAll(fs)) && |d| < TWO_63 && depth > 0
    ensures SkipFrom(d, i, depth) == SkipFrom(d, i + |LaxAll(fs)|, depth)
    decreases fs, 0
  {
    hide SkipFrom, LaxBytes, StandsAt;
    if fs != [] {
      var first, rest := LaxBytes(fs[0]), LaxAll(fs[1..]);
      AtParts(d, i, first, rest);
      SkipLax(d, i, depth, fs[0]);
      SkipLaxMembers(d, i + |first|, depth, fs[1..]);
    }
  }

  // ----- What is skipped is in the grammar -----

  lemma {:induction false} VarintIn(d: bytes, i: nat)
    requires i <= |d| && Read(d[i..]).Ok?
    ensures var n := Read(d[i..]).size;
            && 1 <= n && i + n <= |d|
            && IsVarint(d[i..i + n]) && Read(d[i..i + n]) == Read(d[i..])
  {
    var n := Read(d[i..]).size;
    ReadLocal(d[i..], [], 0);
    Seqs.RightUnit(d[i..][..n]);
    assert d[i..][..n] == d[i..i + n];
  }

  /** The wire type of the tag that stands in `d` at `i`. */
  function TypeAt(d: bytes, i: nat): nat
    requires i <= |d| && Read(d[i..]).Ok?
  {
    Read(d[i..]).value % TWO_64 % 8
  }

  /** A round of the skipping loop that opens and closes no group has moved over one field. */
  lemma {:induction false} FlatSkipped(d: bytes, i: nat, depth: nat) returns (f: LaxField)
    requires SkipOne(d, i, depth).At? && SkipOne(d, i, depth).end <= |d|
    requires TypeAt(d, i) != 3 && TypeAt(d, i) != 4
    ensures LaxWf(f) && StandsAt(d, i, LaxBytes(f))
    ensures SkipOne(d, i, depth) == SkipStep.At(i + |LaxBytes(f)|, depth)
  {
    hide Read;
    VarintIn(d, i);
    var n, wireType, end := Read(d[i..]).size, TypeAt(d, i), SkipOne(d, i, depth).end;
    var j := i + n;
    var tag := d[i..j];
    PayloadEndAfter(d, j, wireType);
    if wireType == 0 {
      VarintIn(d, j);
      f := Scalar(tag, d[j..end]);
    } else if wireType == 2 {
      VarintIn(d, j);
      var k := j + Read(d[j..]).size;
      f := Delimited(tag, d[j..k], d[k..end]);
      AtWhole(d, j, d[j..k], d[k..end]);
    } else {
      f := Fixed(tag, d[j..end]);
    }
    AtWhole(d, i, tag, LaxBody(f));
  }

  lemma {:induction false} TagSkipped(d: bytes, i: nat, depth: nat)
    requires SkipOne(d, i, depth).At? && (TypeAt(d, i) == 3 || TypeAt(d, i) == 4)
    ensures var wireType, end := TypeAt(d, i), SkipOne(d, i, depth).end;
            && i < end <= |d| && IsTag(d[i..end], wireType) && StandsAt(d, i, d[i..end])
            && (wireType == 4 ==> depth > 0)
            && SkipOne(d, i, depth).open == if wireType == 3 then depth + 1 else depth - 1
  {
    hide Read;
    VarintIn(d, i);
  }

  lemma {:induction false} AllOfOneMore(f: LaxField, fs: seq<LaxField>)
    ensures LaxAll([f] + fs) == LaxBytes(f) + LaxAll(fs)
    ensures LaxWf(f) && AllLaxWf(fs) ==> AllLaxWf([f] + fs)
  {
    assert ([f] + fs)[1..] == fs;
  }

  /** Inside a group, what is skipped is members of the group and its end tag, and then whatever follows the
      group. */
  lemma {:induction false} MembersSkipped(d: bytes, i: nat, depth: nat) returns (fs: seq<LaxField>, end: bytes)
    requires depth > 0 && SkipFrom(d, i, depth).Skipped? && SkipFrom(d, i, depth).size <= |d|
    ensures AllLaxWf(fs) && IsTag(end, 4) && StandsAt(d, i, LaxAll(fs) + end)
    ensures SkipFrom(d, i, depth) == Past(d, i + |LaxAll(fs) + end|, depth - 1)
    ensures |end| > 0
    decreases |d| - i
  {
    hide Read, SkipOne, LaxWf, LaxBytes, LaxAll, StandsAt, IsTag;
    var At(e, open) := SkipOne(d, i, depth);
    ReadAtStep(d, i, depth);
    if TypeAt(d, i) == 4 {
      TagSkipped(d, i, depth);
      fs, end := [], d[i..e];
      NoMembers(d, i, end);
    } else {
      var f;
      if TypeAt(d, i) == 3 {
        TagSkipped(d, i, depth);
        var members, close := MembersSkipped(d, e, depth + 1);
        f := Group(d[i..e], members, close);
        GroupStands(d, i, f);
      } else {
        StepWithin(d, i, depth);
        f := FlatSkipped(d, i, depth);
      }
      var j := i + |LaxBytes(f)|;
      FieldNotEmpty(f);
      assert SkipFrom(d, i, depth) == SkipFrom(d, j, depth);
      var rest;
      rest, end := MembersSkipped(d, j, depth);
      fs := [f] + rest;
      AllOfOneMore(f, rest);
      Seqs.ConcatAssoc(LaxBytes(f), LaxAll(rest), end);
      AtWhole(d, i, LaxBytes(f), LaxAll(rest) + end);
    }
  }

  lemma {:induction false} ReadAtStep(d: bytes, i: nat, depth: nat)
    requires SkipOne(d, i, depth).At?
    ensures i < |d| && Read(d[i..]).Ok?
  {
  }

  lemma {:induction false} StepWithin(d: bytes, i: nat, depth: nat)
    requires SkipOne(d, i, depth).At? && SkipFrom(d, i, depth).Skipped? && SkipFrom(d, i, depth).size <= |d|
    ensures SkipOne(d, i, depth).end <= |d|
  {
  }

  lemma {:induction false} NoMembers(d: bytes, i: nat, end: bytes)
    requires StandsAt(d, i, end)
    ensures AllLaxWf([]) && LaxAll([]) + end == end && StandsAt(d, i, LaxAll([]) + end)
  {
    Seqs.RightUnit(end);
  }

  lemma {:induction false} GroupStands(d: bytes, i: nat, f: LaxField)
    requires f.Group? && IsTag(f.tag, 3) && AllLaxWf(f.members) && IsTag(f.end, 4)
    requires StandsAt(d, i, f.tag) && StandsAt(d, i + |f.tag|, LaxAll(f.members) + f.end)
    ensures LaxWf(f) && StandsAt(d, i, LaxBytes(f))
    ensures |LaxBytes(f)| == |f.tag| + |LaxAll(f.members) + f.end|
  {
    hide StandsAt, IsTag;
    AtWhole(d, i, f.tag, LaxAll(f.members) + f.end);
  }

  lemma {:induction false} FieldNotEmpty(f: LaxField)
    requires LaxWf(f)
    ensures LaxBytes(f) != []
  {
  }

  /** Whatever is skipped, inside its input, is one whole field. */
  lemma {:induction false} SkippedIsField(d: bytes) returns (f: LaxField)
    requires Skip(d).Skipped? && Skip(d).size <= |d|
    ensures LaxWf(f) && LaxBytes(f) == d[..Skip(d).size]
  {
    hide Read, SkipOne, LaxWf, LaxBytes, LaxAll, IsTag;
    var At(e, open) := SkipOne(d, 0, 0);
    ReadAtStep(d, 0, 0);
    if TypeAt(d, 0) == 3 || TypeAt(d, 0) == 4 {
      TagSkipped(d, 0, 0);
      var members, close := MembersSkipped(d, e, 1);
      f := Group(d[0..e], members, close);
      GroupStands(d, 0, f);
    } else {
      f := FlatSkipped(d, 0, 0);
    }
  }

  /** Skipping moves past `n` bytes of the input exactly if they are one whole field. */
  lemma {:induction false} SkipsExactlyFields(d: bytes, n: nat)
    requires n <= |d| < TWO_63
    ensures Skip(d) == Skipped(n) <==> exists f :: LaxWf(f) && LaxBytes(f) == d[..n]
  {
    hide SkipFrom, LaxWf, LaxBytes;
    if Skip(d) == Skipped(n) {
      var f := SkippedIsField(d);
    }
    forall f | LaxWf(f) && LaxBytes(f) == d[..n]
      ensures Skip(d) == Skipped(n)
    {
      SkipLax(d, 0, 0, f);
    }
  }

  /** What a field is refused with whose first tag cannot begin one. */
  lemma {:induction false} SkipRefuses(b: byte, s: bytes)
    requires b < 128
    ensures b % 8 == 4 ==> Skip([b] + s) == SkipErr(EndGroup)
    ensures b % 8 >= 6 ==> Skip([b] + s) == SkipErr(IllegalWireType(b % 8))
    ensures b % 8 == 3 && s == [] ==> Skip([b] + s) == SkipErr(UnexpectedEOF)
    ensures Skip([]) == SkipErr(UnexpectedEOF)
  {
    var d := [b] + s;
    assert d[0] == b && d[0..] == d;
    assert Read(d) == Ok(b, 1);
    assert b % TWO_64 == b;
    if b % 8 == 3 && s == [] {
      assert SkipOne(d, 0, 0) == SkipStep.At(1, 1);
      assert SkipFrom(d, 1, 1) == SkipErr(UnexpectedEOF);
      assert SkipFrom(d, 0, 0) == SkipFrom(d, 1, 1);
    }
  }

  // ----- What is decoded is in the grammar -----

  /** Every field the parser reads, declared or not, is one whole field. */
  lemma {:induction false} ParsedIsField(schema: Schema, d: bytes) returns (f: LaxField)
    requires Next(schema, d).Field?
    ensures Next(schema, d).size <= |d| && LaxWf(f) && LaxBytes(f) == d[..Next(schema, d).size]
  {
    hide Read, SkipFrom;
    var Field(t, n) := Next(schema, d);
    NextLocal(schema, d, []);
    if t.Raw? {
      f := SkippedIsField(d);
    } else {
      assert d[0..] == d;
      VarintIn(d, 0);
      var j := Read(d).size;
      VarintIn(d, j);
      var k := j + Read(d[j..]).size;
      f := if t.Number? then Scalar(d[..j], d[j..n]) else Delimited(d[..j], d[j..k], d[k..n]);
      assert d[..n] == d[..j] + d[j..n];
      if t.Payload? { assert d[j..n] == d[j..k] + d[k..n]; }
    }
  }

  /** An input that decodes is a sequence of whole fields. */
  lemma {:induction false} ParsedIsFields<F>(schema: Schema, apply: Handler<F>, m: Proto<F>, d: bytes)
    returns (fs: seq<LaxField>)
    requires Parse(schema, apply, m, d).stop.Done?
    ensures AllLaxWf(fs) && LaxAll(fs) == d
    decreases |d|
  {
    hide LaxWf, LaxBytes;
    if d == [] {
      fs := [];
    } else {
      NextLocal(schema, d, []);
      var Field(t, n) := Next(schema, d);
      var f := ParsedIsField(schema, d);
      var rest := ParsedIsFields(schema, apply, Store(apply, m, t).msg, d[n..]);
      fs := [f] + rest;
      AllOfOneMore(f, rest);
      Seqs.SplitAt(d, n);
    }
  }

  /** So are the unknown bytes a message keeps. */
  lemma {:induction false} UnrecognisedIsFields(schema: Schema, u: bytes) returns (fs: seq<LaxField>)
    requires Unrecognised(schema, u)
    ensures AllLaxWf(fs) && LaxAll(fs) == u
    decreases |u|
  {
    hide LaxWf, LaxBytes;
    if u == [] {
      fs := [];
    } else {
      NextLocal(schema, u, []);
      var n := Next(schema, u).size;
      var f := ParsedIsField(schema, u);
      var rest := UnrecognisedIsFields(schema, u[n..]);
      fs := [f] + rest;
      AllOfOneMore(f, rest);
      Seqs.SplitAt(u, n);
    }
  }
}
