/**
 The wire format: what one field looks like, how an unknown field is skipped, and the loop
 that every generated UnmarshalVT runs. The loop is stated once, for any message type.
 */
module Wire {
  import opened GoInts
  import Seqs
  import opened Wrappers
  import opened Varint

  // ----- Skipping one whole field -----

  datatype SkipResult = Skipped(size: nat) | SkipErr(error: Error)

  /** Where the payload of a field of the given wire type ends, when the payload begins at `j`.
      The result may lie beyond the end of `d`: the caller checks that. */
  function PayloadEnd(d: bytes, j: nat, wireType: int): SkipResult
    requires j <= |d|
  {
    if wireType == 0 then
      match Read(d[j..])
      case Ok(_, n) => Skipped(j + n)
      case Err(e) => SkipErr(e)
    else if wireType == 1 then Skipped(j + 8)
    else if wireType == 2 then
      match Read(d[j..])
      case Ok(v, n) =>
        if AsInt64(v % TWO_64) < 0 then SkipErr(InvalidLength) else Skipped(j + n + v % TWO_64)
      case Err(e) => SkipErr(e)
    else if wireType == 3 || wireType == 4 then Skipped(j)
    else if wireType == 5 then Skipped(j + 4)
    else SkipErr(IllegalWireType(wireType))
  }

  /** One round of the skipping loop: where it leaves the cursor and how many groups are open. */
  datatype SkipStep = At(end: nat, open: nat) | StepErr(error: Error)

  function SkipOne(d: bytes, i: nat, depth: nat): (r: SkipStep)
    ensures r.At? ==> i < r.end < TWO_63
  {
    if i >= |d| then StepErr(UnexpectedEOF)
    else
      match Read(d[i..])
      case Err(e) => StepErr(e)
      case Ok(tag, n) =>
        ReadLocal(d[i..], [], 0);
        var wireType := tag % TWO_64 % 8;
        if wireType == 4 && depth == 0 then StepErr(EndGroup)
        else
          match PayloadEnd(d, i + n, wireType)
          case SkipErr(e) => StepErr(e)
          case Skipped(end) =>
            PayloadEndAfter(d, i + n, wireType);
            if end >= TWO_63 then StepErr(InvalidLength)
            else At(end, if wireType == 3 then depth + 1 else if wireType == 4 then depth - 1 else depth)
  }

  /** Skips the rest of a field of `d` at `i`, inside `depth` open groups. */
  function SkipFrom(d: bytes, i: nat, depth: nat): (r: SkipResult)
    ensures r.Skipped? ==> i < r.size < TWO_63
    decreases |d| - i
  {
    match SkipOne(d, i, depth)
    case StepErr(e) => SkipErr(e)
    case At(end, open) => if open == 0 then Skipped(end) else SkipFrom(d, end, open)
  }

  lemma {:induction false} PayloadEndAfter(d: bytes, j: nat, wireType: int)
    requires j <= |d|
    ensures var r := PayloadEnd(d, j, wireType); r.Skipped? ==> r.size >= j
  {
  }

  /** The number of bytes of the field at the head of `d`. */
  function Skip(d: bytes): SkipResult {
    SkipFrom(d, 0, 0)
  }

  lemma {:induction false} ReadSame(d: bytes, d': bytes, i: nat, end: nat)
    requires i <= |d| && Read(d[i..]).Ok? && i + Read(d[i..]).size <= end <= |d| && end <= |d'|
    requires d[..end] == d'[..end]
    ensures Read(d'[i..]) == Read(d[i..])
  {
    var n := Read(d[i..]).size;
    ReadLocal(d[i..], d'[i + n..], 0);
    Seqs.SamePart(d, d', i, i + n, end);
  }

  lemma {:induction false} PayloadEndSame(d: bytes, d': bytes, j: nat, wireType: int, end: nat)
    requires j <= end <= |d| && end <= |d'| && d[..end] == d'[..end]
    requires PayloadEnd(d, j, wireType).Skipped? && PayloadEnd(d, j, wireType).size <= end
    ensures PayloadEnd(d', j, wireType) == PayloadEnd(d, j, wireType)
  {
    if wireType == 0 || wireType == 2 {
      ReadSame(d, d', j, end);
    }
  }

  lemma {:induction false} SkipOneSame(d: bytes, d': bytes, i: nat, depth: nat, end: nat)
    requires SkipOne(d, i, depth).At? && SkipOne(d, i, depth).end <= end
    requires end <= |d| && end <= |d'| && d[..end] == d'[..end]
    ensures SkipOne(d', i, depth) == SkipOne(d, i, depth)
  {
    var Ok(tag, n) := Read(d[i..]);
    ReadLocal(d[i..], [], 0);
    var wireType := tag % TWO_64 % 8;
    PayloadEndAfter(d, i + n, wireType);
    ReadSame(d, d', i, end);
    PayloadEndSame(d, d', i + n, wireType, end);
  }

  /** A field is skipped the same way whatever follows it. */
  lemma {:induction false} SkipSame(d: bytes, d': bytes, i: nat, depth: nat)
    requires SkipFrom(d, i, depth).Skipped?
    requires var end := SkipFrom(d, i, depth).size; end <= |d| && end <= |d'| && d[..end] == d'[..end]
    ensures SkipFrom(d', i, depth) == SkipFrom(d, i, depth)
    decreases |d| - i
  {
    var end := SkipFrom(d, i, depth).size;
    SkipOneSame(d, d', i, depth, end);
    var At(e, open) := SkipOne(d, i, depth);
    if open > 0 { SkipSame(d, d', e, open); }
  }

  // ----- One field of a message -----

  /** How a message type reads one of its field numbers. */
  datatype Shape = LengthDelimited | VarintField | Unknown

  type Schema = int -> Shape

  /** A field as the parser hands it on. A varint carries its 70-bit value, an unknown field its
      raw bytes. */
  datatype Token =
    | Payload(num: int, payload: bytes)
    | Number(num: int, number: nat)
    | Raw(raw: bytes)

  /** Why parsing stopped. `Beyond` is a field announcing an end past the end of the input; the
      position is relative to where parsing began. */
  datatype Stop = Done | Failed(error: Error) | Beyond(end: nat)

  /** A varint field that breaks off has its value cut short stored before the error returns. */
  datatype Step = Field(token: Token, size: nat) | Bad(stop: Stop) | Broken(num: int, number: nat, error: Error)

  /** The payload of a length-delimited field whose length begins at `j`. */
  function DelimitedAt(d: bytes, num: int, j: nat): Step
    requires j <= |d|
  {
    match Read(d[j..])
    case Err(e) => Bad(Failed(e))
    case Ok(v, n) =>
      ReadLocal(d[j..], [], 0);
      var length := v % TWO_64;
      var start := j + n;
      if AsInt64(length) < 0 then Bad(Failed(InvalidLength))
      else if start + length > |d| then Bad(Beyond(start + length))
      else Field(Payload(num, d[start..start + length]), start + length)
  }

  /** The length checks: one that is negative as an int64 is invalid, one that reaches too far is remembered with
      the end it announces. */
  lemma {:induction false} LengthChecks(d: bytes, num: int, j: nat)
    requires j <= |d| && Read(d[j..]).Ok?
    ensures var start, length := j + Read(d[j..]).size, Read(d[j..]).value % TWO_64;
            && (DelimitedAt(d, num, j) == Bad(Failed(InvalidLength)) <==> length >= TWO_63)
            && (DelimitedAt(d, num, j) == Bad(Beyond(start + length)) <==> length < TWO_63 && start + length > |d|)
            && (DelimitedAt(d, num, j).Field? <==> length < TWO_63 && start + length <= |d|)
  {
  }

  function NumberAt(d: bytes, num: int, j: nat): Step
    requires j <= |d|
  {
    match Read(d[j..])
    case Err(e) => Broken(num, Partial(d[j..]), e)
    case Ok(v, n) => Field(Number(num, v), j + n)
  }

  function RawAt(d: bytes): Step {
    match Skip(d)
    case SkipErr(e) => Bad(Failed(e))
    case Skipped(n) => if n > |d| then Bad(Beyond(n)) else Field(Raw(d[..n]), n)
  }

  datatype TagResult = Tag(fieldNum: int, wireType: int, size: nat) | TagErr(error: Error)

  /** The tag at the head of `d`. The field number is the tag cut to 32 bits, so several tags stand
      for the same number. */
  function ReadTag(d: bytes): TagResult {
    match Read(d)
    case Err(e) => TagErr(e)
    case Ok(tag, n) =>
      var wire := tag % TWO_64;
      var fieldNum, wireType := AsInt32(wire / 8 % TWO_32), wire % 8;
      if wireType == 4 then TagErr(EndGroup)
      else if fieldNum <= 0 then TagErr(IllegalTag(fieldNum, wire))
      else Tag(fieldNum, wireType, n)
  }

  /** Which tags are accepted: those whose 32-bit field number is positive and whose wire type is not that of an
      end group. */
  lemma {:induction false} TagAccepted(d: bytes)
    ensures ReadTag(d).Tag?
            <==> && Read(d).Ok?
                 && Read(d).value % TWO_64 % 8 != 4
                 && 0 < Read(d).value % TWO_64 / 8 % TWO_32 < TWO_31
    ensures ReadTag(d).Tag? ==>
              && ReadTag(d).fieldNum == Read(d).value % TWO_64 / 8 % TWO_32
              && ReadTag(d).wireType == Read(d).value % TWO_64 % 8
              && ReadTag(d).size == Read(d).size
    ensures Read(d).Err? ==> ReadTag(d) == TagErr(Read(d).error)
    ensures Read(d).Ok? && Read(d).value % TWO_64 % 8 == 4 ==> ReadTag(d) == TagErr(EndGroup)
    ensures Read(d).Ok? && ReadTag(d).TagErr? && Read(d).value % TWO_64 % 8 != 4 ==> ReadTag(d).error.IllegalTag?
  {
  }

  /** Parses the field at the head of `d`. */
  function Next(schema: Schema, d: bytes): Step {
    match ReadTag(d)
    case TagErr(e) => Bad(Failed(e))
    case Tag(fieldNum, wireType, n) =>
      ReadLocal(d, [], 0);
      match schema(fieldNum)
      case LengthDelimited =>
        if wireType != 2 then Bad(Failed(WrongWireType(fieldNum, wireType))) else DelimitedAt(d, fieldNum, n)
      case VarintField =>
        if wireType != 0 then Bad(Failed(WrongWireType(fieldNum, wireType))) else NumberAt(d, fieldNum, n)
      case Unknown => RawAt(d)
  }

  /** The fewest bytes a canonical encoder needs for a field. */
  function MinimalSize(t: Token): nat {
    match t
    case Payload(_, p) => 1 + |Varint.Encode(|p|)| + |p|
    case Number(_, v) => 1 + |Varint.Encode(v)|
    case Raw(r) => |r|
  }

  /** A field read at the head of `d` is non-empty, lies inside `d`, hands on a strictly shorter
      payload, is never shorter than canonical, and reads the same whatever follows it. */
  lemma {:induction false} NextLocal(schema: Schema, d: bytes, s: bytes)
    requires Next(schema, d).Field?
    ensures var Field(t, n) := Next(schema, d);
            && 1 <= n <= |d|
            && (t.Payload? ==> |t.payload| < n)
            && (t.Raw? ==> t.raw == d[..n])
            && MinimalSize(t) <= n
            && Next(schema, d[..n] + s) == Next(schema, d)
  {
    hide Read, SkipFrom, Varint.Encode;
    var Field(t, n) := Next(schema, d);
    var Ok(tag, k) := Read(d);
    ReadLocal(d, [], 0);
    assert d[0..] == d;
    if t.Raw? {
      SkipFrom0(d);
    } else {
      ReadLocal(d[k..], [], 0);
      EncodeMinimal(d[k..], 0);
      if t.Payload? { LengthOfRemainder(Read(d[k..]).value, TWO_64); }
    }
    NextSame(schema, d, d[..n] + s);
  }

  lemma {:induction false} DelimitedSame(d: bytes, d': bytes, num: int, j: nat)
    requires j <= |d| && DelimitedAt(d, num, j).Field?
    requires var n := DelimitedAt(d, num, j).size; n <= |d'| && d[..n] == d'[..n]
    ensures var r := DelimitedAt(d, num, j);
            j < r.size <= |d| && DelimitedAt(d', num, j) == r && MinimalSize(r.token) <= r.size - j + 1
  {
    var Field(t, n) := DelimitedAt(d, num, j);
    ReadLocal(d[j..], [], 0);
    EncodeMinimal(d[j..], 0);
    LengthOfRemainder(Read(d[j..]).value, TWO_64);
    ReadSame(d, d', j, n);
    Seqs.SamePart(d, d', n - |t.payload|, n, n);
  }

  lemma {:induction false} NumberSame(d: bytes, d': bytes, num: int, j: nat)
    requires j <= |d| && NumberAt(d, num, j).Field?
    requires var n := NumberAt(d, num, j).size; n <= |d| && n <= |d'| && d[..n] == d'[..n]
    ensures NumberAt(d', num, j) == NumberAt(d, num, j)
  {
    ReadSame(d, d', j, NumberAt(d, num, j).size);
  }

  lemma {:induction false} NextSame(schema: Schema, d: bytes, d': bytes)
    requires Next(schema, d).Field?
    requires var n := Next(schema, d).size; n <= |d| && n <= |d'| && d[..n] == d'[..n]
    ensures Next(schema, d') == Next(schema, d)
  {
    var Field(t, n) := Next(schema, d);
    var k := Read(d).size;
    ReadLocal(d, [], 0);
    assert d[0..] == d && d'[0..] == d';
    match t
    case Raw(_) =>
      SkipFrom0(d);
      SkipSame(d, d', 0, 0);
      ReadSame(d, d', 0, n);
    case Payload(num, _) =>
      DelimitedSame(d, d', num, k);
      ReadSame(d, d', 0, n);
    case Number(num, _) =>
      ReadLocal(d[k..], [], 0);
      NumberSame(d, d', num, k);
      ReadSame(d, d', 0, n);
  }

  lemma {:induction false} SkipFrom0(d: bytes)
    requires Skip(d).Skipped?
    ensures Read(d).Ok? && Read(d).size <= Skip(d).size
  {
    assert d[0..] == d;
    ReadLocal(d, [], 0);
    PayloadEndAfter(d, Read(d).size, Read(d).value % TWO_64 % 8);
  }

  // ----- The parse loop -----

  /** A message as every generated struct holds it: its declared fields, and the raw bytes of the
      fields it does not know. */
  datatype Proto<F> = Proto(fields: F, unknown: bytes)

  /** A message together with why parsing into it stopped. The message is what the receiver holds
      then, on failure too. */
  datatype Outcome<M> = Outcome(msg: M, stop: Stop)

  /** Stores a known field. */
  type Handler<!F> = (F, Token) -> Outcome<F>

  function Store<F>(apply: Handler<F>, m: Proto<F>, t: Token): Outcome<Proto<F>> {
    if t.Raw? then Outcome(m.(unknown := m.unknown + t.raw), Done)
    else
      var o := apply(m.fields, t);
      Outcome(m.(fields := o.msg), o.stop)
  }

  function Shift(stop: Stop, offset: nat): Stop {
    if stop.Beyond? then Beyond(stop.end + offset) else stop
  }

  /** Parses `d` into `m`, field by field. */
  function Parse<F>(schema: Schema, apply: Handler<F>, m: Proto<F>, d: bytes): (o: Outcome<Proto<F>>)
    decreases |d|
  {
    if d == [] then Outcome(m, Done)
    else
      match Next(schema, d)
      case Bad(stop) => Outcome(m, stop)
      case Broken(num, v, e) => Outcome(Store(apply, m, Number(num, v)).msg, Failed(e))
      case Field(t, n) =>
        NextLocal(schema, d, []);
        var o := Store(apply, m, t);
        if !o.stop.Done? then o
        else
          var rest := Parse(schema, apply, o.msg, d[n..]);
          Outcome(rest.msg, Shift(rest.stop, n))
  }

  /** The error UnmarshalVT returns: an announced end that overflows an int64 is an invalid
      length, one that is merely too far is an unexpected end of input. */
  function GoError(stop: Stop): Option<Error> {
    match stop
    case Done => None
    case Failed(e) => Some(e)
    case Beyond(end) => Some(if end >= TWO_63 then InvalidLength else UnexpectedEOF)
  }

  /** What UnmarshalVT leaves in its receiver and returns. */
  datatype Decoded<M> = Decoded(msg: M, err: Option<Error>)

  function Observe<M>(o: Outcome<M>): Decoded<M> {
    Decoded(o.msg, GoError(o.stop))
  }

  /** The error of a nested message reaches the caller as it is. */
  function Nested(err: Option<Error>): Stop {
    if err.None? then Done else Failed(err.value)
  }

  // ----- Concatenation -----

  /** Parsing with one whole field at the head. */
  lemma {:induction false} ParseField<F>(schema: Schema, apply: Handler<F>, m: Proto<F>, field: bytes, s: bytes)
    requires Next(schema, field).Field? && Next(schema, field).size == |field|
    ensures var o := Store(apply, m, Next(schema, field).token);
            var tail := Parse(schema, apply, o.msg, s);
            Parse(schema, apply, m, field + s)
            == if o.stop.Done? then Outcome(tail.msg, Shift(tail.stop, |field|)) else o
  {
    NextLocal(schema, field, s);
    Seqs.DropFirst(field, s);
  }

  lemma {:induction false} HeadField(schema: Schema, d: bytes)
    requires Next(schema, d).Field?
    ensures var n := Next(schema, d).size; n <= |d| && Next(schema, d[..n]) == Next(schema, d)
  {
    NextLocal(schema, d, []);
    var n := Next(schema, d).size;
    Seqs.RightUnit(d[..n]);
  }

  /** Parsing what follows a successfully parsed prefix continues from the message the prefix left. */
  lemma {:induction false} ParseConcat<F>(schema: Schema, apply: Handler<F>, m: Proto<F>, a: bytes, b: bytes)
    requires Parse(schema, apply, m, a).stop.Done?
    ensures Parse(schema, apply, m, a + b) == After(schema, apply, Parse(schema, apply, m, a).msg, |a|, b)
    decreases |a|
  {
    if a == [] {
      Seqs.RightUnit(b);
    } else {
      HeadField(schema, a);
      NextLocal(schema, a, []);
      var n := Next(schema, a).size;
      var field, rest := a[..n], a[n..];
      Seqs.SplitAt(a, n);
      ParseField(schema, apply, m, field, rest);
      ParseConcat(schema, apply, Store(apply, m, Next(schema, field).token).msg, rest, b);
      ParseConcatField(schema, apply, m, field, rest, b);
    }
  }

  /** Parsing `b` into `m` when `offset` bytes stand before it. */
  function After<F>(schema: Schema, apply: Handler<F>, m: Proto<F>, offset: nat, b: bytes): Outcome<Proto<F>> {
    var tail := Parse(schema, apply, m, b);
    Outcome(tail.msg, Shift(tail.stop, offset))
  }

  /** One turn of the parse loop, with the cursor at `i`. */
  lemma {:induction false} AfterStep<F>(schema: Schema, apply: Handler<F>, m: Proto<F>, d: bytes, i: nat)
    requires i < |d|
    ensures var here, step := After(schema, apply, m, i, d[i..]), Next(schema, d[i..]);
            && (step.Bad? ==> here == Outcome(m, Shift(step.stop, i)))
            && (step.Broken? ==>
                  here == Outcome(Store(apply, m, Number(step.num, step.number)).msg, Failed(step.error)))
            && (step.Field? ==>
                  var o := Store(apply, m, step.token);
                  && 1 <= step.size && i + step.size <= |d|
                  && here == if o.stop.Done? then After(schema, apply, o.msg, i + step.size, d[i + step.size..])
                             else Outcome(o.msg, Shift(o.stop, i)))
  {
    hide Next, Store;
    if Next(schema, d[i..]).Field? {
      NextLocal(schema, d[i..], []);
      Seqs.DropDrop(d, i, Next(schema, d[i..]).size);
    }
  }

  lemma {:induction false} ParseConcatField<F>(schema: Schema, apply: Handler<F>, m: Proto<F>, field: bytes,
                                               rest: bytes, b: bytes)
    requires Next(schema, field).Field? && Next(schema, field).size == |field|
    requires var o := Store(apply, m, Next(schema, field).token);
             && o.stop.Done?
             && Parse(schema, apply, o.msg, rest + b)
                == After(schema, apply, Parse(schema, apply, o.msg, rest).msg, |rest|, b)
    ensures Parse(schema, apply, m, (field + rest) + b)
            == After(schema, apply, Parse(schema, apply, m, field + rest).msg, |field + rest|, b)
  {
    hide Next, Store;
    ParseField(schema, apply, m, field, rest);
    ParseField(schema, apply, m, field, rest + b);
    Seqs.ConcatAssoc(field, rest, b);
  }

  /** Equal but for which of the two length errors is reported. */
  ghost predicate Alike<M>(x: Decoded<M>, y: Decoded<M>) {
    && x.msg == y.msg
    && (x.err == y.err || {x.err, y.err} == {Some(InvalidLength), Some(UnexpectedEOF)})
  }

  /** The input announces a field end that fits an int64 counted from the start of the input, but
      no longer does when `offset` bytes stand before it. */
  predicate OverflowsAfter(stop: Stop, offset: nat) {
    stop.Beyond? && stop.end < TWO_63 <= stop.end + offset
  }

  /** Moving an input behind `offset` bytes changes the error exactly when an announced end
      overflows because of them; even then only the kind of length error changes. */
  lemma {:induction false} ShiftObserved<M>(m: M, stop: Stop, offset: nat)
    ensures Alike(Observe(Outcome(m, stop)), Observe(Outcome(m, Shift(stop, offset))))
    ensures GoError(Shift(stop, offset)) == GoError(stop) <==> !OverflowsAfter(stop, offset)
  {
  }

  /** The handler has no announced end of its own to report. */
  ghost predicate NeverBeyond<F(!new)>(apply: Handler<F>) {
    forall f: F, t: Token :: !apply(f, t).stop.Beyond?
  }

  /** The first `n` bytes of `d` are fields that decode into `m`, and the field behind them announces that it
      ends `e` bytes after its own start, past the end of `d`. */
  predicate AnnouncesEnd<F>(schema: Schema, apply: Handler<F>, m: Proto<F>, d: bytes, n: nat, e: nat) {
    && n <= |d|
    && Parse(schema, apply, m, d[..n]).stop.Done?
    && Next(schema, d[n..]) == Bad(Beyond(e))
  }

  /** Where the announced end that stops a parse comes from. */
  lemma {:induction false} BeyondAnnounced<F(!new)>(schema: Schema, apply: Handler<F>, m: Proto<F>,
                                                    d: bytes) returns (n: nat)
    requires NeverBeyond(apply) && Parse(schema, apply, m, d).stop.Beyond?
    ensures n <= Parse(schema, apply, m, d).stop.end
    ensures AnnouncesEnd(schema, apply, m, d, n, Parse(schema, apply, m, d).stop.end - n)
    decreases |d|
  {
    hide Next;
    assert d[..0] == [] && d[0..] == d;
    if Next(schema, d).Bad? {
      n := 0;
    } else {
      var Field(t, k) := Next(schema, d);
      NextLocal(schema, d, []);
      HeadField(schema, d);
      var rest := BeyondAnnounced(schema, apply, Store(apply, m, t).msg, d[k..]);
      n := k + rest;
      Seqs.DropDrop(d, k, rest);
      assert d[..n] == d[..k] + d[k..][..rest];
      ParseField(schema, apply, m, d[..k], d[k..][..rest]);
    }
  }

  lemma {:induction false} AnnouncedIsBeyond<F>(schema: Schema, apply: Handler<F>, m: Proto<F>, d: bytes, n: nat,
                                                e: nat)
    requires AnnouncesEnd(schema, apply, m, d, n, e)
    ensures Parse(schema, apply, m, d).stop == Beyond(n + e)
  {
    Seqs.SplitAt(d, n);
    ParseConcat(schema, apply, m, d[..n], d[n..]);
  }

  /** An announced end overflows an int64 behind `i` bytes exactly if it does behind `k` bytes. */
  predicate SameSide(stop: Stop, i: nat, k: nat) {
    stop.Beyond? ==> (stop.end + i >= TWO_63 <==> stop.end + k >= TWO_63)
  }

  /** The same read off the bytes: behind some fields that decode, `s` announces an end that overflows an
      int64 when `i` bytes stand before `s`, but not when `k` do, or the other way round. */
  ghost predicate EndStraddles<F>(schema: Schema, apply: Handler<F>, m: Proto<F>, s: bytes, i: nat, k: nat) {
    exists n: nat, e: nat ::
      AnnouncesEnd(schema, apply, m, s, n, e) && (n + e + i >= TWO_63) != (n + e + k >= TWO_63)
  }

  lemma {:induction false} SameSideOnBytes<F(!new)>(schema: Schema, apply: Handler<F>, m: Proto<F>, s: bytes,
                                                    i: nat, k: nat)
    requires NeverBeyond(apply)
    ensures SameSide(Parse(schema, apply, m, s).stop, i, k) <==> !EndStraddles(schema, apply, m, s, i, k)
  {
    hide Parse, AnnouncesEnd, NeverBeyond;
    if Parse(schema, apply, m, s).stop.Beyond? {
      var n := BeyondAnnounced(schema, apply, m, s);
    }
    forall n: nat, e: nat | AnnouncesEnd(schema, apply, m, s, n, e)
      ensures Parse(schema, apply, m, s).stop == Beyond(n + e)
    {
      AnnouncedIsBeyond(schema, apply, m, s, n, e);
    }
  }

  // ----- Unknown fields -----

  /** A concatenation of whole fields whose numbers the message does not declare. */
  predicate Unrecognised(schema: Schema, u: bytes)
    decreases |u|
  {
    u == [] ||
    match Next(schema, u)
    case Field(t, n) =>
      NextLocal(schema, u, []);
      t.Raw? && Unrecognised(schema, u[n..])
    case _ => false
  }

  lemma {:induction false} UnrecognisedField(schema: Schema, field: bytes, s: bytes)
    requires Next(schema, field).Field? && Next(schema, field).size == |field|
    ensures Unrecognised(schema, field + s) <==> Next(schema, field).token.Raw? && Unrecognised(schema, s)
  {
    NextLocal(schema, field, s);
    Seqs.DropFirst(field, s);
  }

  lemma {:induction false} UnrecognisedAppend(schema: Schema, u: bytes, raw: bytes)
    requires Unrecognised(schema, u)
    requires Next(schema, raw) == Field(Raw(raw), |raw|)
    ensures Unrecognised(schema, u + raw)
    decreases |u|
  {
    if u == [] {
      UnrecognisedField(schema, raw, []);
      Seqs.RightUnit(raw);
    } else {
      HeadField(schema, u);
      NextLocal(schema, u, []);
      var n := Next(schema, u).size;
      UnrecognisedAppend(schema, u[n..], raw);
      UnrecognisedField(schema, u[..n], u[n..] + raw);
      Seqs.SplitAppend(u, n, raw);
    }
  }

  /** Unknown fields are kept byte for byte and touch nothing else. */
  lemma {:induction false} ParseUnrecognised<F>(schema: Schema, apply: Handler<F>, m: Proto<F>, u: bytes)
    requires Unrecognised(schema, u)
    ensures Parse(schema, apply, m, u) == Outcome(m.(unknown := m.unknown + u), Done)
    decreases |u|
  {
    Seqs.RightUnit(m.unknown);
    if u != [] {
      var n := Next(schema, u).size;
      NextLocal(schema, u, []);
      var m' := m.(unknown := m.unknown + u[..n]);
      ParseUnrecognised(schema, apply, m', u[n..]);
      Seqs.ConcatAssoc(m.unknown, u[..n], u[n..]);
      Seqs.SplitAt(u, n);
    }
  }

  // ----- What a whole parse keeps -----

  ghost predicate Keeps<F(!new)>(apply: Handler<F>, inv: F -> bool) {
    forall f: F, t: Token :: inv(f) && !t.Raw? && apply(f, t).stop.Done? ==> inv(apply(f, t).msg)
  }

  /** A successful parse keeps whatever every single field keeps, and its unknown bytes stay whole
      fields the message does not declare. */
  lemma {:induction false} ParseKeeps<F(!new)>(schema: Schema, apply: Handler<F>, inv: F -> bool, m: Proto<F>, d: bytes)
    requires Keeps(apply, inv)
    requires inv(m.fields) && Unrecognised(schema, m.unknown)
    requires Parse(schema, apply, m, d).stop.Done?
    ensures var m' := Parse(schema, apply, m, d).msg; inv(m'.fields) && Unrecognised(schema, m'.unknown)
    decreases |d|
  {
    if d != [] {
      var Field(t, n) := Next(schema, d);
      NextLocal(schema, d, []);
      HeadField(schema, d);
      if t.Raw? { UnrecognisedAppend(schema, m.unknown, t.raw); }
      ParseKeeps(schema, apply, inv, Store(apply, m, t).msg, d[n..]);
    }
  }

  ghost predicate GrowsByField<F(!new)>(apply: Handler<F>, size: F -> nat) {
    forall f: F, t: Token :: !t.Raw? && apply(f, t).stop.Done? ==> size(apply(f, t).msg) <= size(f) + MinimalSize(t)
  }

  /** If no single field makes a message grow by more than its canonical size, no parse makes it
      grow by more than the bytes consumed. */
  lemma {:induction false} ParseGrowth<F(!new)>(schema: Schema, apply: Handler<F>, size: F -> nat, m: Proto<F>,
                                                d: bytes)
    requires GrowsByField(apply, size)
    requires Parse(schema, apply, m, d).stop.Done?
    ensures var m' := Parse(schema, apply, m, d).msg;
            size(m'.fields) + |m'.unknown| <= size(m.fields) + |m.unknown| + |d|
    decreases |d|
  {
    if d != [] {
      var Field(t, n) := Next(schema, d);
      NextLocal(schema, d, []);
      ParseGrowth(schema, apply, size, Store(apply, m, t).msg, d[n..]);
    }
  }

  // ----- Consumption -----

  /** The input cut into the fields the parser sees. */
  function Chunks(schema: Schema, d: bytes): seq<bytes>
    decreases |d|
  {
    if d == [] || !Next(schema, d).Field? then []
    else
      NextLocal(schema, d, []);
      [d[..Next(schema, d).size]] + Chunks(schema, d[Next(schema, d).size..])
  }

  function Join(cs: seq<bytes>): bytes {
    if cs == [] then [] else cs[0] + Join(cs[1..])
  }

  /** A successful parse has consumed the whole input, every byte as part of exactly one whole field. */
  lemma {:induction false} ParseConsumesAll<F>(schema: Schema, apply: Handler<F>, m: Proto<F>, d: bytes)
    requires Parse(schema, apply, m, d).stop.Done?
    ensures var cs := Chunks(schema, d);
            && Join(cs) == d
            && forall i :: 0 <= i < |cs| ==> Next(schema, cs[i]).Field? && Next(schema, cs[i]).size == |cs[i]|
    decreases |d|
  {
    if d != [] {
      NextLocal(schema, d, []);
      HeadField(schema, d);
      var n := Next(schema, d).size;
      ParseConsumesAll(schema, apply, Store(apply, m, Next(schema, d).token).msg, d[n..]);
      Seqs.SplitAt(d, n);
      var rest := Chunks(schema, d[n..]);
      assert ([d[..n]] + rest)[1..] == rest;
    }
  }

  // ----- Canonical fields -----

  /** A length-delimited field as the encoder writes it. */
  function Tagged(num: nat, p: bytes): (b: bytes)
    requires 1 <= num <= 15
    ensures |b| == 1 + |Varint.Encode(|p|)| + |p|
  {
    [num * 8 + 2] + (Varint.Encode(|p|) + p)
  }

  /** An empty payload is not written. */
  function Optional(num: nat, p: bytes): bytes
    requires 1 <= num <= 15
  {
    if p == [] then [] else Tagged(num, p)
  }

  function TaggedNumber(num: nat, v: nat): bytes
    requires 1 <= num <= 15
  {
    [num * 8] + Varint.Encode(v)
  }

  lemma {:induction false} ReadTagByte(b: byte, s: bytes)
    requires 8 <= b < 128 && b % 8 != 4
    ensures ReadTag([b] + s) == Tag(b / 8, b % 8, 1) && ([b] + s)[1..] == s
  {
    var d := [b] + s;
    assert d[0] == b && d != [];
    assert Read(d) == Ok(b, 1);
    assert b % TWO_64 == b && b / 8 % TWO_32 == b / 8;
    Seqs.DropFirst([b], s);
  }

  lemma {:induction false} NextTagged(schema: Schema, num: nat, p: bytes)
    requires 1 <= num <= 15 && schema(num).LengthDelimited? && |p| < TWO_63
    ensures Next(schema, Tagged(num, p)) == Field(Payload(num, p), |Tagged(num, p)|)
  {
    hide Read, Varint.Encode;
    var tag, length := [(num * 8 + 2) as byte], Varint.Encode(|p|);
    var d := tag + (length + p);
    ReadTagByte(num * 8 + 2, length + p);
    ReadEncode64(|p|, p);
    var start := 1 + |length|;
    Seqs.ConcatAssoc(tag, length, p);
    Seqs.DropFirst(tag + length, p);
    assert d[start..] == p && d[start..|d|] == d[start..];
    assert |p| % TWO_64 == |p|;
    assert DelimitedAt(d, num, 1) == Field(Payload(num, p), |d|);
  }

  lemma {:induction false} NextTaggedNumber(schema: Schema, num: nat, v: nat)
    requires 1 <= num <= 15 && schema(num).VarintField? && v < TWO_64
    ensures Next(schema, TaggedNumber(num, v)) == Field(Number(num, v), |TaggedNumber(num, v)|)
  {
    ReadTagByte(num * 8, Varint.Encode(v));
    ReadEncode64(v, []);
    Seqs.RightUnit(Varint.Encode(v));
  }

  /** Parsing one field that is all of the input stores it. */
  lemma {:induction false} ParseOne<F>(schema: Schema, apply: Handler<F>, m: Proto<F>, field: bytes)
    requires Next(schema, field).Field? && Next(schema, field).size == |field|
    requires Store(apply, m, Next(schema, field).token).stop.Done?
    ensures Parse(schema, apply, m, field) == Store(apply, m, Next(schema, field).token)
  {
    ParseField(schema, apply, m, field, []);
    Seqs.RightUnit(field);
  }

  /** Two successful parses in a row. */
  lemma {:induction false} ParseTwo<F>(schema: Schema, apply: Handler<F>, m: Proto<F>, a: bytes, b: bytes)
    requires Parse(schema, apply, m, a).stop.Done?
    requires Parse(schema, apply, Parse(schema, apply, m, a).msg, b).stop.Done?
    ensures Parse(schema, apply, m, a + b) == Parse(schema, apply, Parse(schema, apply, m, a).msg, b)
  {
    ParseConcat(schema, apply, m, a, b);
  }

  /** Two fields `x` and `y` that store what one field `z` stores have its effect on every input that goes on
      after them: the same message always, and the same error exactly unless an announced end overflows an
      int64 behind one of them only. */
  lemma {:induction false} ParseMerged<F>(schema: Schema, apply: Handler<F>, m: Proto<F>, x: bytes, y: bytes,
                                          z: bytes, s: bytes)
    requires Next(schema, x).Field? && Next(schema, x).size == |x|
    requires Next(schema, y).Field? && Next(schema, y).size == |y|
    requires Next(schema, z).Field? && Next(schema, z).size == |z|
    requires var m1 := Store(apply, m, Next(schema, x).token);
             && m1.stop.Done?
             && Alike(Observe(Store(apply, m1.msg, Next(schema, y).token)),
                      Observe(Store(apply, m, Next(schema, z).token)))
    ensures var two := Store(apply, Store(apply, m, Next(schema, x).token).msg, Next(schema, y).token);
            var one := Store(apply, m, Next(schema, z).token);
            var split, joined := Observe(Parse(schema, apply, m, x + (y + s))), Observe(Parse(schema, apply, m, z + s));
            && Alike(split, joined)
            && (split == joined
                <==> if two.stop.Done? then SameSide(Parse(schema, apply, two.msg, s).stop, |x| + |y|, |z|)
                     else GoError(Shift(two.stop, |x|)) == GoError(one.stop))
  {
    ParseField(schema, apply, m, x, y + s);
    ParseField(schema, apply, Store(apply, m, Next(schema, x).token).msg, y, s);
    ParseField(schema, apply, m, z, s);
  }

  // ----- The parse loop's steps, as code -----

  /** Reads a tag and makes the two checks that follow it. */
  method DecodeTag(dAtA: bytes, start: nat) returns (err: Option<Error>, fieldNum: int, wireType: int, iNdEx: nat)
    requires start < |dAtA|
    ensures match ReadTag(dAtA[start..])
            case TagErr(e) => err == Some(e)
            case Tag(f, w, n) => err == None && fieldNum == f && wireType == w && iNdEx == start + n <= |dAtA|
  {
    var wire;
    fieldNum, wireType := 0, 0;
    Pow2Values();
    err, wire, iNdEx := Varint.Decode(dAtA, start, 64);
    if err.Some? { return; }
    fieldNum := AsInt32(wire / 8 % TWO_32);
    wireType := wire % 8;
    if wireType == 4 { return Some(EndGroup), fieldNum, wireType, iNdEx; }
    if fieldNum <= 0 { return Some(IllegalTag(fieldNum, wire)), fieldNum, wireType, iNdEx; }
  }

  /** `DelimitedAt` in positions counted from the start of the buffer. */
  lemma {:induction false} DelimitedInBuffer(dAtA: bytes, preIndex: nat, num: int, start: nat)
    requires preIndex <= start <= |dAtA|
    ensures var r := DelimitedAt(dAtA[preIndex..], num, start - preIndex);
            match Read(dAtA[start..])
            case Err(e) => r == Bad(Failed(e))
            case Ok(v, n) =>
              var i, length := start + n, v % TWO_64;
              && i <= |dAtA|
              && r == if AsInt64(length) < 0 then Bad(Failed(InvalidLength))
                      else if i + length > |dAtA| then Bad(Beyond(i + length - preIndex))
                      else Field(Payload(num, dAtA[i..i + length]), i + length - preIndex)
  {
    var d, j := dAtA[preIndex..], start - preIndex;
    assert d[j..] == dAtA[start..];
    ReadLocalIfOk(d[j..]);
    if Read(d[j..]).Ok? {
      var i, length := j + Read(d[j..]).size, Read(d[j..]).value % TWO_64;
      if i + length <= |d| {
        assert d[i..i + length] == dAtA[preIndex + i..preIndex + i + length];
      }
    }
  }

  /** Reads a length and checks where its payload ends, in 64-bit integers. The field began at
      `preIndex`. */
  method DecodeLength(dAtA: bytes, ghost preIndex: nat, ghost num: int, start: nat)
    returns (err: Option<Error>, iNdEx: nat, postIndex: nat)
    requires preIndex <= start <= |dAtA| < TWO_63
    ensures match DelimitedAt(dAtA[preIndex..], num, start - preIndex)
            case Bad(stop) => err == GoError(Shift(stop, preIndex)) && err.Some?
            case Broken(_, _, _) => false
            case Field(t, n) =>
              && err == None && preIndex <= iNdEx <= postIndex == preIndex + n <= |dAtA|
              && t == Payload(num, dAtA[iNdEx..postIndex])
  {
    hide Read, DelimitedAt, Pow2;
    var u;
    postIndex := 0;
    Pow2Values();
    DelimitedInBuffer(dAtA, preIndex, num, start);
    err, u, iNdEx := Varint.Decode(dAtA, start, 64);
    if err.Some? { return; }
    var length := AsInt64(u);
    if length < 0 { return Some(InvalidLength), iNdEx, 0; }
    var end := Add64(iNdEx, length);
    if end < 0 { return Some(InvalidLength), iNdEx, 0; }
    if end > |dAtA| { return Some(UnexpectedEOF), iNdEx, 0; }
    postIndex := end;
  }

  /** Moves past a payload; an end that overflows an int64 comes out negative. */
  method SkipPayload(dAtA: bytes, j: nat, wireType: int) returns (err: Option<Error>, iNdEx: int)
    requires j <= |dAtA| < TWO_63
    ensures match PayloadEnd(dAtA, j, wireType)
            case SkipErr(e) => err == Some(e)
            case Skipped(end) => err == None && if end < TWO_63 then iNdEx == end else iNdEx < 0
  {
    hide Read, Pow2;
    Pow2Values();
    ReadLocalIfOk(dAtA[j..]);
    var v, end;
    err, iNdEx := None, j;
    match wireType {
      case 0 =>
        err, v, end := Varint.Decode(dAtA, j, 64);
        iNdEx := end;
      case 1 =>
        iNdEx := Add64(j, 8);
      case 2 =>
        err, v, end := Varint.Decode(dAtA, j, 64);
        if err.None? {
          if AsInt64(v) < 0 { return Some(InvalidLength), j; }
          iNdEx := Add64(end, v);
        }
      case 3 =>
      case 4 =>
      case 5 =>
        iNdEx := Add64(j, 4);
      case _ =>
        err := Some(IllegalWireType(wireType));
    }
  }

  /** The library's Skip. */
  method SkipField(dAtA: bytes) returns (err: Option<Error>, size: nat)
    requires |dAtA| < TWO_63
    ensures match Skip(dAtA)
            case SkipErr(e) => err == Some(e)
            case Skipped(n) => err == None && size == n
  {
    hide Read, PayloadEnd, Pow2;
    var iNdEx, depth := 0, 0;
    size := 0;
    Pow2Values();
    while iNdEx < |dAtA|
      invariant depth >= 0 && Skip(dAtA) == SkipFrom(dAtA, iNdEx, depth)
      decreases |dAtA| - iNdEx
    {
      var wire, j, next;
      ReadLocalIfOk(dAtA[iNdEx..]);
      err, wire, j := Varint.Decode(dAtA, iNdEx, 64);
      if err.Some? { return; }
      var wireType := wire % 8;
      if wireType == 4 && depth == 0 { return Some(EndGroup), 0; }
      PayloadEndAfter(dAtA, j, wireType);
      err, next := SkipPayload(dAtA, j, wireType);
      if err.Some? { return; }
      if next < 0 { return Some(InvalidLength), 0; }
      if wireType == 3 { depth := depth + 1; }
      if wireType == 4 { depth := depth - 1; }
      if depth == 0 { return None, next; }
      iNdEx := next;
    }
    return Some(UnexpectedEOF), 0;
  }

  lemma {:induction false} ReadLocalIfOk(d: bytes)
    ensures Read(d).Ok? ==> 1 <= Read(d).size <= |d|
  {
    if Read(d).Ok? { ReadLocal(d, [], 0); }
  }

  /** The default branch: skips the field that began at `preIndex` and hands on its bytes. */
  method DecodeUnknown(dAtA: bytes, preIndex: nat) returns (err: Option<Error>, iNdEx: nat)
    requires preIndex < |dAtA| < TWO_63
    ensures match RawAt(dAtA[preIndex..])
            case Bad(stop) => err == GoError(Shift(stop, preIndex)) && err.Some?
            case Broken(_, _, _) => false
            case Field(t, n) =>
              err == None && preIndex < iNdEx == preIndex + n <= |dAtA| && t == Raw(dAtA[preIndex..iNdEx])
  {
    var skippy;
    iNdEx := preIndex;
    err, skippy := SkipField(dAtA[preIndex..]);
    if err.Some? { return; }
    var end := Add64(iNdEx, skippy);
    if end < 0 { return Some(InvalidLength), iNdEx; }
    if end > |dAtA| { return Some(UnexpectedEOF), iNdEx; }
    iNdEx := end;
    assert dAtA[preIndex..][..skippy] == dAtA[preIndex..iNdEx];
  }
}
