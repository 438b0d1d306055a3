/** The Protocol Buffers wire format as the generated message code reads and writes it: fields are
    written in schema order with default values omitted, while reading tolerates over-long varints,
    any field order, repeated scalar fields and unknown fields. Section "Base 128 Varints", section
    "Message Structure" and section "Length-Delimited Records" of the Protocol Buffers Encoding
    specification fix the format. */
module Wire {
  import opened Bytes

  const MAX_MESSAGE_BYTES := 65536
  const U64 := 0x1_0000_0000_0000_0000
  const RECURSION_LIMIT := 100

  // ---------------------------------------------------------------- schemas and values

  datatype Kind =
    | Uint32 | Uint64 | Int64 | Int32 | Bool
    | Text | Blob
    | TextList
    | MessageList(schema: Schema)

  /** The kinds of a message's fields. Every message of the protocol numbers its fields from 1
      without gaps, so the field at index `i` carries the tag `i + 1`. */
  datatype Schema = Schema(kinds: seq<Kind>)

  datatype Value =
    | Number(n: int)
    | Octets(b: bytes)
    | OctetsList(bs: seq<bytes>)
    | Messages(ms: seq<Message>)

  /** One value for each field of a schema, in schema order. */
  datatype Message = Message(values: seq<Value>)

  predicate IsNumber(k: Kind) {
    k.Uint32? || k.Uint64? || k.Int64? || k.Int32? || k.Bool?
  }

  predicate HasKind(k: Kind, v: Value)
    decreases k
  {
    match k
    case Uint32 => v.Number? && 0 <= v.n < 0x1_0000_0000
    case Uint64 => v.Number? && 0 <= v.n < U64
    case Int64 => v.Number? && -0x8000_0000_0000_0000 <= v.n < 0x8000_0000_0000_0000
    case Int32 => v.Number? && -0x8000_0000 <= v.n < 0x8000_0000
    case Bool => v.Number? && 0 <= v.n < 2
    case Text => v.Octets? && ValidUtf8(v.b)
    case Blob => v.Octets?
    case TextList => v.OctetsList? && forall b <- v.bs :: ValidUtf8(b)
    case MessageList(s) => v.Messages? && forall m <- v.ms :: WellTyped(s, m)
  }

  predicate AllKinds(ks: seq<Kind>, vs: seq<Value>) {
    |ks| == |vs| && forall i :: 0 <= i < |ks| ==> HasKind(ks[i], vs[i])
  }

  predicate WellTyped(s: Schema, m: Message)
    decreases s
  {
    |s.kinds| == |m.values| && forall i :: 0 <= i < |s.kinds| ==> HasKind(s.kinds[i], m.values[i])
  }

  lemma {:induction false} JoinKinds(ks: seq<Kind>, vs: seq<Value>, ks': seq<Kind>, vs': seq<Value>)
    requires AllKinds(ks, vs) && AllKinds(ks', vs')
    ensures WellTyped(Schema(ks + ks'), Message(vs + vs'))
  {
  }

  lemma {:induction false} SplitKinds(ks: seq<Kind>, ks': seq<Kind>, m: Message)
    requires WellTyped(Schema(ks + ks'), m)
    ensures AllKinds(ks, m.values[..|ks|]) && AllKinds(ks', m.values[|ks|..])
  {
    assert forall i :: 0 <= i < |ks| ==> (ks + ks')[i] == ks[i];
    assert forall i :: 0 <= i < |ks'| ==> (ks + ks')[|ks| + i] == ks'[i];
  }

  /** All tags are legal field numbers, in nested messages too, and messages are not nested too deeply
      for the decoder. */
  predicate Sound(s: Schema, depth: nat := RECURSION_LIMIT)
    decreases s
  {
    && |s.kinds| < 0x2000_0000 - 1
    && forall k <- s.kinds :: k.MessageList? ==> depth > 0 && Sound(k.schema, depth - 1)
  }

  function DefaultValue(k: Kind): (v: Value)
    ensures HasKind(k, v)
  {
    match k
    case Text | Blob => Octets([])
    case TextList => OctetsList([])
    case MessageList(_) => Messages([])
    case _ => Number(0)
  }

  function Default(s: Schema): (m: Message)
    ensures WellTyped(s, m)
    ensures forall i :: 0 <= i < |s.kinds| ==> m.values[i] == DefaultValue(s.kinds[i])
  {
    Message(seq(|s.kinds|, i requires 0 <= i < |s.kinds| => DefaultValue(s.kinds[i])))
  }

  /** The message with one field's value replaced. */
  function Store(s: Schema, m: Message, i: nat, v: Value): (r: Message)
    requires WellTyped(s, m) && i < |s.kinds| && HasKind(s.kinds[i], v)
    ensures WellTyped(s, r) && r.values == m.values[i := v]
  {
    Message(m.values[i := v])
  }

  // ---------------------------------------------------------------- varints

  function EncodeVarint(n: nat): (b: bytes)
    ensures |b| >= 1
  {
    if n < 128 then [n] else [n % 128 + 128] + EncodeVarint(n / 128)
  }

  /** The values that still fit in 64 bits when `count` groups of seven bits came before. */
  function Capacity(count: nat): (c: nat)
    requires count <= 9
    ensures c >= (if count == 9 then 2 else 256)
    decreases 9 - count
  {
    if count == 9 then 2 else 128 * Capacity(count + 1)
  }

  /** Reads a varint of at most ten octets whose value fits in 64 bits. */
  function ReadVarint(b: bytes, count: nat := 0): (r: Option<(nat, bytes)>)
    ensures r.Some? ==> |r.value.1| < |b| && r.value.1 == b[|b| - |r.value.1|..]
    ensures r.Some? ==> count <= 9 && r.value.0 < Capacity(count)
    decreases |b|
  {
    if b == [] || count > 9 then None
    else if b[0] < 128 then
      if count == 9 && b[0] >= 2 then None else Some((b[0], b[1..]))
    else
      var (high, rest) :- ReadVarint(b[1..], count + 1);
      Some((b[0] - 128 + 128 * high, rest))
  }

  lemma {:induction false} CapacityIsU64()
    ensures Capacity(0) == U64
  {
    assert Capacity(8) == 128 * 2;
    assert Capacity(6) == 128 * 128 * Capacity(8);
    assert Capacity(4) == 128 * 128 * Capacity(6);
    assert Capacity(2) == 128 * 128 * Capacity(4);
  }

  lemma {:induction false} VarintRoundTrip(n: nat, rest: bytes, count: nat)
    requires count <= 9 && n < Capacity(count)
    ensures ReadVarint(EncodeVarint(n) + rest, count) == Some((n, rest))
    decreases n
  {
    var b := EncodeVarint(n) + rest;
    if n < 128 {
      assert b[1..] == rest;
    } else {
      assert b[1..] == EncodeVarint(n / 128) + rest;
      VarintRoundTrip(n / 128, rest, count + 1);
    }
  }

  /** A minimal encoding is never longer than any other encoding of the same number. */
  lemma {:induction false} VarintIsShortest(b: bytes, count: nat)
    requires ReadVarint(b, count).Some?
    ensures |EncodeVarint(ReadVarint(b, count).value.0)| <= |b| - |ReadVarint(b, count).value.1|
    decreases |b|
  {
    if b[0] >= 128 {
      VarintIsShortest(b[1..], count + 1);
      var high := ReadVarint(b[1..], count + 1).value.0;
      var n := b[0] - 128 + 128 * high;
      if n >= 128 {
        assert n / 128 == high;
      }
    }
  }

  // ---------------------------------------------------------------- writing

  /** The unsigned 64-bit pattern of a field value: negative numbers are sign-extended. */
  function ToBits(n: int): int {
    if n < 0 then n + U64 else n
  }

  /** The field value a 64-bit pattern is cut down to. */
  function FromBits(k: Kind, bits: nat): int
    requires IsNumber(k)
  {
    match k
    case Uint32 => bits % 0x1_0000_0000
    case Uint64 => bits
    case Int64 => if bits < 0x8000_0000_0000_0000 then bits else bits - U64
    case Int32 =>
      var low := bits % 0x1_0000_0000;
      if low < 0x8000_0000 then low else low - 0x1_0000_0000
    case Bool => if bits == 0 then 0 else 1
  }

  function Key(tag: nat, wire: nat): (b: bytes) {
    EncodeVarint(tag * 8 + wire)
  }

  function Delimited(tag: nat, payload: bytes): bytes {
    Key(tag, 2) + EncodeVarint(|payload|) + payload
  }

  function DelimitedAll(tag: nat, payloads: seq<bytes>): bytes {
    if payloads == [] then [] else Delimited(tag, payloads[0]) + DelimitedAll(tag, payloads[1..])
  }

  function EncodeEach(s: Schema, ms: seq<Message>): (r: seq<bytes>)
    ensures |r| == |ms|
    decreases s, |s.kinds| + 1, |ms|
  {
    if ms == [] then [] else [Encode(s, ms[0])] + EncodeEach(s, ms[1..])
  }

  function EncodeField(tag: nat, k: Kind, v: Value): bytes
    decreases k
  {
    match (k, v)
    case (MessageList(s), Messages(ms)) => DelimitedAll(tag, EncodeEach(s, ms))
    case (TextList, OctetsList(bs)) => DelimitedAll(tag, bs)
    case (_, Octets(b)) => if b == [] then [] else Delimited(tag, b)
    case (_, Number(n)) =>
      if n == 0 || ToBits(n) < 0 then [] else Key(tag, 0) + EncodeVarint(ToBits(n))
    case _ => []
  }

  function EncodeFrom(s: Schema, m: Message, i: nat): bytes
    requires i <= |s.kinds| == |m.values|
    decreases s, |s.kinds| - i
  {
    if i == |s.kinds| then []
    else EncodeField(i + 1, s.kinds[i], m.values[i]) + EncodeFrom(s, m, i + 1)
  }

  function Encode(s: Schema, m: Message): bytes
    decreases s, |s.kinds| + 1, 0
  {
    if |m.values| == |s.kinds| then EncodeFrom(s, m, 0) else []
  }

  // ---------------------------------------------------------------- reading

  function ReadKey(b: bytes): (r: Option<(nat, nat, bytes)>)
    ensures r.Some? ==> r.value.0 >= 1 && |r.value.2| < |b|
  {
    var (key, rest) :- ReadVarint(b);
    if key >= 0x1_0000_0000 || key % 8 > 5 || key / 8 == 0 then None
    else Some((key / 8, key % 8, rest))
  }

  function ReadDelimited(b: bytes): (r: Option<(bytes, bytes)>)
    ensures r.Some? ==> |r.value.0| + |r.value.1| < |b|
  {
    var (length, rest) :- ReadVarint(b);
    if length > |rest| then None else Some((rest[..length], rest[length..]))
  }

  /** Passes over the contents of an unknown field. */
  function Skip(wire: nat, tag: nat, b: bytes, depth: nat): (r: Option<bytes>)
    ensures r.Some? ==> |r.value| <= |b|
    decreases |b|, 1
  {
    if depth == 0 then None
    else if wire == 0 then
      var (_, rest) :- ReadVarint(b);
      Some(rest)
    else if wire == 1 then
      if |b| < 8 then None else Some(b[8..])
    else if wire == 2 then
      var (_, rest) :- ReadDelimited(b);
      Some(rest)
    else if wire == 3 then
      SkipGroup(tag, b, depth)
    else if wire == 5 then
      if |b| < 4 then None else Some(b[4..])
    else None
  }

  function SkipGroup(tag: nat, b: bytes, depth: nat): (r: Option<bytes>)
    requires depth > 0
    ensures r.Some? ==> |r.value| <= |b|
    decreases |b|, 0
  {
    var (inner, wire, rest) :- ReadKey(b);
    if wire == 4 then
      if inner == tag then Some(rest) else None
    else
      var next :- Skip(wire, inner, rest, depth - 1);
      SkipGroup(tag, next, depth)
  }

  /** Folds one occurrence of a field into the value read so far. */
  function MergeField(
      k: Kind, wire: nat, before: Value, b: bytes, depth: nat := RECURSION_LIMIT): (r: Option<(Value, bytes)>)
    requires HasKind(k, before)
    ensures r.Some? ==> HasKind(k, r.value.0) && |r.value.1| < |b|
    decreases k
  {
    if IsNumber(k) then
      if wire != 0 then None
      else
        var (bits, rest) :- ReadVarint(b);
        CapacityIsU64();
        Some((Number(FromBits(k, bits)), rest))
    else if wire != 2 then None
    else
      var (payload, rest) :- ReadDelimited(b);
      match k
      case Blob => Some((Octets(payload), rest))
      case Text => if ValidUtf8(payload) then Some((Octets(payload), rest)) else None
      case TextList =>
        if ValidUtf8(payload) then Some((OctetsList(before.bs + [payload]), rest)) else None
      case MessageList(s) =>
        if depth == 0 then None
        else
          var m :- Merge(s, payload, Default(s), depth - 1);
          Some((Messages(before.ms + [m]), rest))
  }

  /** Folds the rest of a field, after its key, into the message read so far. */
  function MergeRest(s: Schema, tag: nat, wire: nat, b: bytes, acc: Message, depth: nat): (r: Option<(Message, bytes)>)
    requires WellTyped(s, acc) && tag >= 1
    ensures r.Some? ==> WellTyped(s, r.value.0) && |r.value.1| <= |b|
    decreases s, |b|, 0
  {
    if tag > |s.kinds| then
      var next :- Skip(wire, tag, b, depth);
      Some((acc, next))
    else
      var (v, next) :- MergeField(s.kinds[tag - 1], wire, acc.values[tag - 1], b, depth);
      Some((Store(s, acc, tag - 1, v), next))
  }

  /** Reads fields until the input is used up, starting from the values in `acc`. */
  function Merge(s: Schema, b: bytes, acc: Message, depth: nat := RECURSION_LIMIT): (r: Option<Message>)
    requires WellTyped(s, acc)
    ensures r.Some? ==> WellTyped(s, r.value)
    decreases s, |b|, 1
  {
    if b == [] then Some(acc)
    else
      var (tag, wire, rest) :- ReadKey(b);
      var (m, more) :- MergeRest(s, tag, wire, rest, acc, depth);
      Merge(s, more, m, depth)
  }

  function Decode(s: Schema, b: bytes, depth: nat := RECURSION_LIMIT): (r: Option<Message>)
    ensures r.Some? ==> WellTyped(s, r.value)
  {
    Merge(s, b, Default(s), depth)
  }

  // ---------------------------------------------------------------- decoding inverts encoding

  lemma {:induction false} BitsRoundTrip(k: Kind, n: int)
    requires IsNumber(k) && HasKind(k, Number(n))
    ensures 0 <= ToBits(n) < U64 && FromBits(k, ToBits(n)) == n
  {
  }

  lemma {:induction false} KeyRoundTrip(tag: nat, wire: nat, rest: bytes)
    requires 1 <= tag < 0x2000_0000 && wire <= 5
    ensures ReadKey(Key(tag, wire) + rest) == Some((tag, wire, rest))
  {
    CapacityIsU64();
    VarintRoundTrip(tag * 8 + wire, rest, 0);
  }

  lemma {:induction false} TakeDelimited(b: bytes, payload: bytes, rest: bytes)
    requires ReadVarint(b) == Some((|payload|, payload + rest))
    ensures ReadDelimited(b) == Some((payload, rest))
  {
    var both := payload + rest;
    assert both[..|payload|] == payload && both[|payload|..] == rest;
  }

  lemma {:induction false} DelimitedRoundTrip(payload: bytes, rest: bytes)
    requires |payload| < U64
    ensures ReadDelimited(EncodeVarint(|payload|) + payload + rest) == Some((payload, rest))
  {
    var length := EncodeVarint(|payload|);
    CapacityIsU64();
    VarintRoundTrip(|payload|, payload + rest, 0);
    assert length + payload + rest == length + (payload + rest);
    TakeDelimited(length + payload + rest, payload, rest);
  }

  /** Reading a known field stores it and goes on after it. */
  lemma {:induction false} MergeKnown(
      s: Schema, i: nat, wire: nat, body: bytes, acc: Message, depth: nat := RECURSION_LIMIT)
    requires Sound(s, depth) && WellTyped(s, acc) && i < |s.kinds| && wire <= 5
    ensures Merge(s, Key(i + 1, wire) + body, acc, depth) ==
            (match MergeField(s.kinds[i], wire, acc.values[i], body, depth)
             case None => None
             case Some((v, rest)) => Merge(s, rest, Store(s, acc, i, v), depth))
  {
    KeyRoundTrip(i + 1, wire, body);
    hide Key, ReadKey, MergeField, Skip, HasKind, Merge, Store;
    MergeStep(s, Key(i + 1, wire) + body, acc, depth);
  }

  lemma {:induction false} MergeStep(s: Schema, b: bytes, acc: Message, depth: nat)
    requires WellTyped(s, acc) && ReadKey(b).Some?
    ensures
      var (tag, wire, rest) := ReadKey(b).value;
      Merge(s, b, acc, depth) ==
        match MergeRest(s, tag, wire, rest, acc, depth)
        case None => None
        case Some((m, more)) => Merge(s, more, m, depth)
  {
    assert b != [];
    hide ReadKey, MergeRest, WellTyped;
  }

  /** The value of a list field after more entries were read. */
  function Extended(k: Kind, before: Value, payloads: seq<bytes>, depth: nat := RECURSION_LIMIT): (r: Option<Value>)
    requires HasKind(k, before) && (k.TextList? || k.MessageList?)
    ensures r.Some? ==> HasKind(k, r.value)
  {
    match k
    case TextList =>
      if forall b <- payloads :: ValidUtf8(b) then Some(OctetsList(before.bs + payloads)) else None
    case MessageList(s) =>
      if depth == 0 then None
      else
        var ms :- DecodeEach(s, payloads, depth - 1);
        Some(Messages(before.ms + ms))
  }

  function DecodeEach(s: Schema, payloads: seq<bytes>, depth: nat := RECURSION_LIMIT): (r: Option<seq<Message>>)
    ensures r.Some? ==> forall m <- r.value :: WellTyped(s, m)
  {
    if payloads == [] then Some([])
    else
      var m :- Decode(s, payloads[0], depth);
      var ms :- DecodeEach(s, payloads[1..], depth);
      Some([m] + ms)
  }

  lemma {:induction false} ExtendedByNothing(k: Kind, before: Value, depth: nat := RECURSION_LIMIT)
    requires HasKind(k, before) && (k.TextList? || (k.MessageList? && depth > 0))
    ensures Extended(k, before, [], depth) == Some(before)
  {
    if k.TextList? {
      assert before.bs + [] == before.bs;
    } else {
      assert before.ms + [] == before.ms;
    }
  }

  /** One entry is merged, the others extend what it left. */
  lemma {:induction false} MergeEntry(
      k: Kind, before: Value, payloads: seq<bytes>, tail: bytes, depth: nat := RECURSION_LIMIT)
    requires HasKind(k, before) && (k.TextList? || k.MessageList?)
    requires payloads != [] && |payloads[0]| < U64
    requires Extended(k, before, payloads, depth).Some?
    ensures
      var r := MergeField(k, 2, before, EncodeVarint(|payloads[0]|) + payloads[0] + tail, depth);
      r.Some? && r.value.1 == tail && Extended(k, r.value.0, payloads[1..], depth) == Extended(k, before, payloads, depth)
  {
    var p := payloads[0];
    DelimitedRoundTrip(p, tail);
    if k.TextList? {
      assert before.bs + payloads == before.bs + [p] + payloads[1..];
    } else {
      var m := Decode(k.schema, p, depth - 1).value;
      var ms := DecodeEach(k.schema, payloads[1..], depth - 1).value;
      assert before.ms + ([m] + ms) == before.ms + [m] + ms;
    }
  }

  /** Reading the entries of a list field appends them, in order. */
  lemma {:induction false} MergeList(
      s: Schema, i: nat, payloads: seq<bytes>, tail: bytes, acc: Message, last: Value, depth: nat := RECURSION_LIMIT)
    requires Sound(s, depth) && WellTyped(s, acc) && i < |s.kinds|
    requires s.kinds[i].TextList? || s.kinds[i].MessageList?
    requires Extended(s.kinds[i], acc.values[i], payloads, depth) == Some(last)
    requires |DelimitedAll(i + 1, payloads)| < U64
    ensures Merge(s, DelimitedAll(i + 1, payloads) + tail, acc, depth) == Merge(s, tail, Store(s, acc, i, last), depth)
    decreases |payloads|
  {
    var k := s.kinds[i];
    if payloads == [] {
      ExtendedByNothing(k, acc.values[i], depth);
      assert DelimitedAll(i + 1, payloads) + tail == tail;
      assert acc.values[i := last] == acc.values;
    } else {
      var p := payloads[0];
      var more := DelimitedAll(i + 1, payloads[1..]) + tail;
      var body := EncodeVarint(|p|) + p + more;
      assert DelimitedAll(i + 1, payloads) + tail == Key(i + 1, 2) + body;
      MergeEntry(k, acc.values[i], payloads, more, depth);
      MergeKnown(s, i, 2, body, acc, depth);
      var next := Store(s, acc, i, MergeField(k, 2, acc.values[i], body, depth).value.0);
      MergeList(s, i, payloads[1..], tail, next, last, depth);
      assert next.values[i := last] == acc.values[i := last];
    }
  }

  lemma {:induction false} DecodeEachEncoded(s: Schema, ms: seq<Message>, tag: nat, depth: nat := RECURSION_LIMIT)
    requires Sound(s, depth) && forall m <- ms :: WellTyped(s, m)
    requires |DelimitedAll(tag, EncodeEach(s, ms))| < U64
    ensures DecodeEach(s, EncodeEach(s, ms), depth) == Some(ms)
    decreases s, |s.kinds| + 4, |ms|
  {
    if ms != [] {
      var each := EncodeEach(s, ms);
      assert each[0] == Encode(s, ms[0]) && each[1..] == EncodeEach(s, ms[1..]);
      DecodeEncode(s, ms[0], depth);
      DecodeEachEncoded(s, ms[1..], tag, depth);
      assert [ms[0]] + ms[1..] == ms;
    }
  }

  lemma {:induction false} MergeNumber(k: Kind, before: Value, n: int, tail: bytes, depth: nat := RECURSION_LIMIT)
    requires IsNumber(k) && HasKind(k, before) && HasKind(k, Number(n))
    ensures ToBits(n) >= 0
    ensures MergeField(k, 0, before, EncodeVarint(ToBits(n)) + tail, depth) == Some((Number(n), tail))
  {
    BitsRoundTrip(k, n);
    var bits := ToBits(n);
    assert ReadVarint(EncodeVarint(bits) + tail) == Some((bits, tail)) by {
      CapacityIsU64();
      VarintRoundTrip(bits, tail, 0);
    }
  }

  lemma {:induction false} MergeEncodedNumber(
      s: Schema, i: nat, n: int, tail: bytes, acc: Message, depth: nat := RECURSION_LIMIT)
    requires Sound(s, depth) && WellTyped(s, acc) && i < |s.kinds|
    requires IsNumber(s.kinds[i]) && HasKind(s.kinds[i], Number(n)) && acc.values[i] == Number(0)
    ensures Merge(s, EncodeField(i + 1, s.kinds[i], Number(n)) + tail, acc, depth) ==
            Merge(s, tail, Store(s, acc, i, Number(n)), depth)
  {
    var encoded := EncodeField(i + 1, s.kinds[i], Number(n));
    BitsRoundTrip(s.kinds[i], n);
    if n == 0 {
      assert encoded + tail == tail;
      assert acc.values[i := Number(n)] == acc.values;
    } else {
      var body := EncodeVarint(ToBits(n)) + tail;
      assert encoded + tail == Key(i + 1, 0) + body;
      assert MergeField(s.kinds[i], 0, acc.values[i], body, depth) == Some((Number(n), tail)) by {
        MergeNumber(s.kinds[i], acc.values[i], n, tail, depth);
      }
      MergeKnown(s, i, 0, body, acc, depth);
    }
  }

  lemma {:induction false} MergeEncodedOctets(
      s: Schema, i: nat, b: bytes, tail: bytes, acc: Message, depth: nat := RECURSION_LIMIT)
    requires Sound(s, depth) && WellTyped(s, acc) && i < |s.kinds|
    requires s.kinds[i].Text? || s.kinds[i].Blob?
    requires HasKind(s.kinds[i], Octets(b)) && acc.values[i] == Octets([])
    requires |b| < U64
    ensures Merge(s, EncodeField(i + 1, s.kinds[i], Octets(b)) + tail, acc, depth) ==
            Merge(s, tail, Store(s, acc, i, Octets(b)), depth)
  {
    var encoded := EncodeField(i + 1, s.kinds[i], Octets(b));
    if b == [] {
      assert encoded + tail == tail && acc.values[i := Octets(b)] == acc.values;
    } else {
      var body := EncodeVarint(|b|) + b + tail;
      assert encoded + tail == Key(i + 1, 2) + body;
      DelimitedRoundTrip(b, tail);
      MergeKnown(s, i, 2, body, acc, depth);
    }
  }

  lemma {:induction false} MergeEncodedList(
      s: Schema, i: nat, v: Value, payloads: seq<bytes>, tail: bytes, acc: Message, depth: nat := RECURSION_LIMIT)
    requires Sound(s, depth) && WellTyped(s, acc) && i < |s.kinds|
    requires s.kinds[i].TextList? || s.kinds[i].MessageList?
    requires HasKind(s.kinds[i], v) && acc.values[i] == DefaultValue(s.kinds[i])
    requires EncodeField(i + 1, s.kinds[i], v) == DelimitedAll(i + 1, payloads)
    requires s.kinds[i].TextList? ==> v.bs == payloads
    requires s.kinds[i].MessageList? ==> DecodeEach(s.kinds[i].schema, payloads, depth - 1) == Some(v.ms)
    requires |DelimitedAll(i + 1, payloads)| < U64
    ensures Merge(s, EncodeField(i + 1, s.kinds[i], v) + tail, acc, depth) == Merge(s, tail, Store(s, acc, i, v), depth)
  {
    if s.kinds[i].TextList? {
      assert [] + v.bs == v.bs;
    } else {
      assert [] + v.ms == v.ms;
    }
    assert Extended(s.kinds[i], acc.values[i], payloads, depth) == Some(v);
    MergeList(s, i, payloads, tail, acc, v, depth);
  }

  /** Reading one written field stores exactly the value that was written. */
  lemma {:induction false} MergeEncodedField(
      s: Schema, i: nat, v: Value, tail: bytes, acc: Message, depth: nat := RECURSION_LIMIT)
    requires Sound(s, depth) && WellTyped(s, acc) && i < |s.kinds|
    requires HasKind(s.kinds[i], v) && acc.values[i] == DefaultValue(s.kinds[i])
    requires |EncodeField(i + 1, s.kinds[i], v)| < U64
    ensures Merge(s, EncodeField(i + 1, s.kinds[i], v) + tail, acc, depth) == Merge(s, tail, Store(s, acc, i, v), depth)
    decreases s, 0
  {
    var k := s.kinds[i];
    if IsNumber(k) {
      MergeEncodedNumber(s, i, v.n, tail, acc, depth);
    } else if k.TextList? {
      MergeEncodedList(s, i, v, v.bs, tail, acc, depth);
    } else if k.MessageList? {
      DecodeEachEncoded(k.schema, v.ms, i + 1, depth - 1);
      MergeEncodedList(s, i, v, EncodeEach(k.schema, v.ms), tail, acc, depth);
    } else {
      MergeEncodedOctets(s, i, v.b, tail, acc, depth);
    }
  }

  /** `acc` after the fields of `m` from index `i` on have been read into it. */
  function Overlay(s: Schema, acc: Message, m: Message, i: nat): (r: Message)
    requires WellTyped(s, acc) && WellTyped(s, m) && i <= |s.kinds|
    ensures WellTyped(s, r)
    ensures forall j :: 0 <= j < |s.kinds| ==> r.values[j] == if j < i then acc.values[j] else m.values[j]
  {
    Message(seq(|s.kinds|, j requires 0 <= j < |s.kinds| => if j < i then acc.values[j] else m.values[j]))
  }

  ghost predicate UnreadFrom(s: Schema, acc: Message, i: nat)
    requires WellTyped(s, acc)
  {
    forall j :: i <= j < |s.kinds| ==> acc.values[j] == DefaultValue(s.kinds[j])
  }

  lemma {:induction false} OverlayOneMore(s: Schema, acc: Message, m: Message, i: nat)
    requires WellTyped(s, acc) && WellTyped(s, m) && i < |s.kinds|
    ensures Overlay(s, Store(s, acc, i, m.values[i]), m, i + 1) == Overlay(s, acc, m, i)
  {
    assert Overlay(s, Store(s, acc, i, m.values[i]), m, i + 1).values == Overlay(s, acc, m, i).values;
  }

  /** Reading the written fields from index `i` on stores exactly their values. */
  lemma {:induction false} MergeEncodedFrom(
      s: Schema, m: Message, i: nat, tail: bytes, acc: Message, depth: nat := RECURSION_LIMIT)
    requires Sound(s, depth) && WellTyped(s, m) && WellTyped(s, acc) && i <= |s.kinds|
    requires UnreadFrom(s, acc, i)
    requires |EncodeFrom(s, m, i)| < U64
    ensures Merge(s, EncodeFrom(s, m, i) + tail, acc, depth) == Merge(s, tail, Overlay(s, acc, m, i), depth)
    decreases s, |s.kinds| - i + 1
  {
    if i == |s.kinds| {
      assert EncodeFrom(s, m, i) + tail == tail;
      assert Overlay(s, acc, m, i).values == acc.values;
    } else {
      var field, others := EncodeField(i + 1, s.kinds[i], m.values[i]), EncodeFrom(s, m, i + 1);
      assert EncodeFrom(s, m, i) + tail == field + (others + tail);
      MergeEncodedField(s, i, m.values[i], others + tail, acc, depth);
      OverlayOneMore(s, acc, m, i);
      MergeEncodedFrom(s, m, i + 1, tail, Store(s, acc, i, m.values[i]), depth);
    }
  }

  /** After the encoding of a message, the decoder goes on from exactly that message. */
  lemma {:induction false} DecodeEncodeThen(s: Schema, m: Message, tail: bytes, depth: nat := RECURSION_LIMIT)
    requires Sound(s, depth) && WellTyped(s, m) && |Encode(s, m)| < U64
    ensures Decode(s, Encode(s, m) + tail, depth) == Merge(s, tail, m, depth)
    decreases s, |s.kinds| + 2, 0
  {
    MergeEncodedFrom(s, m, 0, tail, Default(s), depth);
    assert Overlay(s, Default(s), m, 0).values == m.values;
  }

  /** Decoding gives back every message that was encoded. */
  lemma {:induction false} DecodeEncode(s: Schema, m: Message, depth: nat := RECURSION_LIMIT)
    requires Sound(s, depth) && WellTyped(s, m) && |Encode(s, m)| < U64
    ensures Decode(s, Encode(s, m), depth) == Some(m)
    decreases s, |s.kinds| + 3, 0
  {
    DecodeEncodeThen(s, m, [], depth);
    assert Encode(s, m) + [] == Encode(s, m);
  }

  /** Two messages of one schema never share an encoding. */
  lemma {:induction false} EncodeInjective(s: Schema, m: Message, m': Message)
    requires Sound(s) && WellTyped(s, m) && WellTyped(s, m') && |Encode(s, m)| < U64
    requires Encode(s, m) == Encode(s, m')
    ensures m == m'
  {
    DecodeEncode(s, m);
    DecodeEncode(s, m');
  }

  // ---------------------------------------------------------------- what the decoder tolerates

  lemma {:induction false} VarintPrefix(b: bytes, tail: bytes, count: nat)
    requires ReadVarint(b, count).Some?
    ensures
      var (n, rest) := ReadVarint(b, count).value;
      ReadVarint(b + tail, count) == Some((n, rest + tail))
    decreases |b|
  {
    assert (b + tail)[1..] == b[1..] + tail;
    if b[0] >= 128 {
      VarintPrefix(b[1..], tail, count + 1);
    }
  }

  lemma {:induction false} KeyPrefix(b: bytes, tail: bytes)
    requires ReadKey(b).Some?
    ensures
      var (tag, wire, rest) := ReadKey(b).value;
      ReadKey(b + tail) == Some((tag, wire, rest + tail))
  {
    VarintPrefix(b, tail, 0);
  }

  lemma {:induction false} DelimitedPrefix(b: bytes, tail: bytes)
    requires ReadDelimited(b).Some?
    ensures
      var (payload, rest) := ReadDelimited(b).value;
      ReadDelimited(b + tail) == Some((payload, rest + tail))
  {
    VarintPrefix(b, tail, 0);
    var (length, rest) := ReadVarint(b).value;
    assert (rest + tail)[..length] == rest[..length];
    assert (rest + tail)[length..] == rest[length..] + tail;
  }

  lemma {:induction false} SkipPrefix(wire: nat, tag: nat, b: bytes, depth: nat, tail: bytes)
    requires Skip(wire, tag, b, depth).Some?
    ensures Skip(wire, tag, b + tail, depth) == Some(Skip(wire, tag, b, depth).value + tail)
    decreases |b|, 1
  {
    if wire == 0 {
      VarintPrefix(b, tail, 0);
    } else if wire == 1 {
      assert (b + tail)[8..] == b[8..] + tail;
    } else if wire == 2 {
      DelimitedPrefix(b, tail);
    } else if wire == 3 {
      SkipGroupPrefix(tag, b, depth, tail);
    } else {
      assert (b + tail)[4..] == b[4..] + tail;
    }
  }

  lemma {:induction false} SkipGroupPrefix(tag: nat, b: bytes, depth: nat, tail: bytes)
    requires depth > 0 && SkipGroup(tag, b, depth).Some?
    ensures SkipGroup(tag, b + tail, depth) == Some(SkipGroup(tag, b, depth).value + tail)
    decreases |b|, 0
  {
    hide ReadKey;
    KeyPrefix(b, tail);
    var (inner, wire, rest) := ReadKey(b).value;
    if wire != 4 {
      SkipPrefix(wire, inner, rest, depth - 1, tail);
      SkipGroupPrefix(tag, Skip(wire, inner, rest, depth - 1).value, depth, tail);
    }
  }

  /** The value of a field after one more occurrence: scalars are replaced, lists grow. */
  function After(k: Kind, before: Value, v: Value): (r: Value)
    requires HasKind(k, before) && HasKind(k, v)
    ensures HasKind(k, r)
  {
    match k
    case TextList => OctetsList(before.bs + v.bs)
    case MessageList(_) => Messages(before.ms + v.ms)
    case _ => v
  }

  /** What an occurrence of a field holds and where it ends depends neither on what was read before nor
      on what follows. */
  lemma {:induction false} FieldPrefix(k: Kind, wire: nat, before: Value, b: bytes, tail: bytes, depth: nat)
    requires HasKind(k, before)
    requires MergeField(k, wire, DefaultValue(k), b, depth).Some?
    ensures
      var (v, rest) := MergeField(k, wire, DefaultValue(k), b, depth).value;
      MergeField(k, wire, before, b + tail, depth) == Some((After(k, before, v), rest + tail))
  {
    if IsNumber(k) {
      VarintPrefix(b, tail, 0);
    } else {
      DelimitedPrefix(b, tail);
      hide ReadDelimited, Merge;
      var payload := ReadDelimited(b).value.0;
      if k.TextList? {
        assert before.bs + ([] + [payload]) == before.bs + [payload];
      } else if k.MessageList? {
        var m := Merge(k.schema, payload, Default(k.schema), depth - 1).value;
        assert before.ms + ([] + [m]) == before.ms + [m];
      }
    }
  }

  lemma {:induction false} FieldNeedsNothingBefore(k: Kind, wire: nat, before: Value, b: bytes, depth: nat)
    requires HasKind(k, before)
    requires MergeField(k, wire, before, b, depth).Some?
    ensures
      var r := MergeField(k, wire, DefaultValue(k), b, depth);
      && r.Some? && r.value.1 == MergeField(k, wire, before, b, depth).value.1
      && MergeField(k, wire, before, b, depth).value.0 == After(k, before, r.value.0)
  {
    hide Merge;
  }

  // ---------------------------------------------------------------- records

  /** The octets of exactly one field, known or unknown, in any form that the decoder reads. */
  predicate IsRecord(s: Schema, c: bytes, depth: nat := RECURSION_LIMIT): (r: bool)
    ensures r ==> ReadKey(c).Some?
  {
    match ReadKey(c)
    case None => false
    case Some((tag, wire, body)) =>
      if tag > |s.kinds| then Skip(wire, tag, body, depth) == Some([])
      else
        var r := MergeField(s.kinds[tag - 1], wire, DefaultValue(s.kinds[tag - 1]), body, depth);
        r.Some? && r.value.1 == []
  }

  function TagOf(c: bytes): (tag: nat)
    requires ReadKey(c).Some?
    ensures tag >= 1
  {
    ReadKey(c).value.0
  }

  /** What a record of a known field holds. */
  function ValueOf(s: Schema, c: bytes, depth: nat := RECURSION_LIMIT): (v: Value)
    requires IsRecord(s, c, depth) && TagOf(c) <= |s.kinds|
    ensures HasKind(s.kinds[TagOf(c) - 1], v)
  {
    hide HasKind, ReadKey, MergeField, Skip;
    var (tag, wire, body) := ReadKey(c).value;
    MergeField(s.kinds[tag - 1], wire, DefaultValue(s.kinds[tag - 1]), body, depth).value.0
  }

  predicate AllRecords(s: Schema, records: seq<bytes>, depth: nat := RECURSION_LIMIT) {
    forall c <- records :: IsRecord(s, c, depth)
  }

  function Joined(records: seq<bytes>): bytes {
    if records == [] then [] else records[0] + Joined(records[1..])
  }

  /** What the records of one field hold, in their order. */
  function ValuesFor(s: Schema, i: nat, records: seq<bytes>, depth: nat := RECURSION_LIMIT): (vs: seq<Value>)
    requires i < |s.kinds| && AllRecords(s, records, depth)
    ensures forall v <- vs :: HasKind(s.kinds[i], v)
  {
    hide HasKind, IsRecord;
    if records == [] then []
    else
      assert records[0] in records && forall c <- records[1..] :: c in records;
      (if TagOf(records[0]) == i + 1 then [ValueOf(s, records[0], depth)] else []) + ValuesFor(s, i, records[1..], depth)
  }

  /** The last of the values, or all entries of the lists. */
  function Gathered(k: Kind, before: Value, vs: seq<Value>): (r: Value)
    requires HasKind(k, before) && forall v <- vs :: HasKind(k, v)
    ensures HasKind(k, r)
    decreases |vs|
  {
    if vs == [] then before
    else
      assert vs[0] in vs && forall v <- vs[1..] :: v in vs;
      Gathered(k, After(k, before, vs[0]), vs[1..])
  }

  /** The message whose every field gathers the records of that field. */
  function Collected(s: Schema, acc: Message, records: seq<bytes>, depth: nat := RECURSION_LIMIT): (m: Message)
    requires WellTyped(s, acc) && AllRecords(s, records, depth)
    ensures WellTyped(s, m)
  {
    Message(seq(|s.kinds|, i requires 0 <= i < |s.kinds| =>
      Gathered(s.kinds[i], acc.values[i], ValuesFor(s, i, records, depth))))
  }

  /** A field's value after one record: that record may be of another field, or of none. */
  function AfterRecord(s: Schema, i: nat, before: Value, c: bytes, depth: nat): (r: Value)
    requires i < |s.kinds| && HasKind(s.kinds[i], before) && IsRecord(s, c, depth)
    ensures HasKind(s.kinds[i], r)
  {
    if TagOf(c) == i + 1 then After(s.kinds[i], before, ValueOf(s, c, depth)) else before
  }

  lemma {:induction false} GatherOneMore(s: Schema, i: nat, before: Value, records: seq<bytes>, depth: nat)
    requires i < |s.kinds| && HasKind(s.kinds[i], before)
    requires records != [] && AllRecords(s, records, depth)
    ensures AllRecords(s, records[1..], depth) && IsRecord(s, records[0], depth)
    ensures Gathered(s.kinds[i], before, ValuesFor(s, i, records, depth)) ==
            Gathered(s.kinds[i], AfterRecord(s, i, before, records[0], depth), ValuesFor(s, i, records[1..], depth))
  {
    hide IsRecord, TagOf, ValueOf, HasKind, After;
    assert records[0] in records && forall c <- records[1..] :: c in records;
    var vs, more := ValuesFor(s, i, records, depth), ValuesFor(s, i, records[1..], depth);
    if TagOf(records[0]) == i + 1 {
      assert vs[0] == ValueOf(s, records[0], depth) && vs[1..] == more;
    } else {
      assert vs == more;
    }
  }

  /** The message after one record. */
  function Next(s: Schema, acc: Message, c: bytes, depth: nat): (r: Message)
    requires WellTyped(s, acc) && IsRecord(s, c, depth)
    ensures WellTyped(s, r)
  {
    hide HasKind, IsRecord;
    Message(seq(|s.kinds|, i requires 0 <= i < |s.kinds| => AfterRecord(s, i, acc.values[i], c, depth)))
  }

  lemma {:induction false} NextStores(s: Schema, acc: Message, c: bytes, depth: nat)
    requires WellTyped(s, acc) && IsRecord(s, c, depth)
    ensures TagOf(c) > |s.kinds| ==> Next(s, acc, c, depth) == acc
    ensures TagOf(c) <= |s.kinds| ==>
              var i := TagOf(c) - 1;
              Next(s, acc, c, depth) == Store(s, acc, i, After(s.kinds[i], acc.values[i], ValueOf(s, c, depth)))
  {
    hide IsRecord, HasKind, ValueOf, TagOf, After;
    if TagOf(c) > |s.kinds| {
      assert Next(s, acc, c, depth).values == acc.values;
    } else {
      var i := TagOf(c) - 1;
      assert Next(s, acc, c, depth).values == acc.values[i := After(s.kinds[i], acc.values[i], ValueOf(s, c, depth))];
    }
  }

  lemma {:induction false} ReadOneRecord(s: Schema, c: bytes, tail: bytes, acc: Message, depth: nat)
    requires WellTyped(s, acc) && IsRecord(s, c, depth)
    ensures Merge(s, c + tail, acc, depth) == Merge(s, tail, Next(s, acc, c, depth), depth)
  {
    hide ReadKey, MergeField, Skip, Next, Merge, After, HasKind, Store;
    NextStores(s, acc, c, depth);
    KeyPrefix(c, tail);
    var (tag, wire, body) := ReadKey(c).value;
    assert [] + tail == tail;
    MergeStep(s, c + tail, acc, depth);
    if tag > |s.kinds| {
      SkipPrefix(wire, tag, body, depth, tail);
    } else {
      FieldPrefix(s.kinds[tag - 1], wire, acc.values[tag - 1], body, tail, depth);
    }
  }

  lemma {:induction false} CollectOneMore(s: Schema, acc: Message, records: seq<bytes>, depth: nat)
    requires WellTyped(s, acc) && records != [] && AllRecords(s, records, depth)
    ensures AllRecords(s, records[1..], depth) && IsRecord(s, records[0], depth)
    ensures Collected(s, acc, records, depth) == Collected(s, Next(s, acc, records[0], depth), records[1..], depth)
  {
    hide IsRecord, HasKind, AfterRecord, ValuesFor, Gathered;
    assert records[0] in records && forall c <- records[1..] :: c in records;
    var a, b := Collected(s, acc, records, depth), Collected(s, Next(s, acc, records[0], depth), records[1..], depth);
    forall i | 0 <= i < |s.kinds| ensures a.values[i] == b.values[i] {
      GatherOneMore(s, i, acc.values[i], records, depth);
    }
    assert a.values == b.values;
  }

  lemma {:induction false} RecordsAreRead(s: Schema, records: seq<bytes>, acc: Message, depth: nat)
    requires WellTyped(s, acc) && AllRecords(s, records, depth)
    ensures Merge(s, Joined(records), acc, depth) == Some(Collected(s, acc, records, depth))
    decreases |records|
  {
    hide IsRecord, HasKind, Next;
    if records == [] {
      assert Collected(s, acc, records, depth).values == acc.values;
    } else {
      CollectOneMore(s, acc, records, depth);
      ReadOneRecord(s, records[0], Joined(records[1..]), acc, depth);
      RecordsAreRead(s, records[1..], Next(s, acc, records[0], depth), depth);
    }
  }

  lemma {:induction false} SkippedFront(wire: nat, tag: nat, b: bytes, depth: nat)
    requires Skip(wire, tag, b, depth).Some?
    ensures
      var rest := Skip(wire, tag, b, depth).value;
      b == b[..|b| - |rest|] + rest && Skip(wire, tag, b[..|b| - |rest|], depth) == Some([])
    decreases |b|, 1
  {
    var rest := Skip(wire, tag, b, depth).value;
    var front := b[..|b| - |rest|];
    if wire == 0 {
      VarintFront(b, 0);
    } else if wire == 1 {
      assert b[8..] == rest && front[8..] == [];
    } else if wire == 2 {
      DelimitedFront(b);
    } else if wire == 3 {
      SkippedGroupFront(tag, b, depth);
    } else {
      assert b[4..] == rest && front[4..] == [];
    }
  }

  lemma {:induction false} SkippedGroupFront(tag: nat, b: bytes, depth: nat)
    requires depth > 0 && SkipGroup(tag, b, depth).Some?
    ensures
      var rest := SkipGroup(tag, b, depth).value;
      b == b[..|b| - |rest|] + rest && SkipGroup(tag, b[..|b| - |rest|], depth) == Some([])
    decreases |b|, 0
  {
    hide ReadKey;
    KeyFront(b);
    var (inner, wire, body) := ReadKey(b).value;
    var key := b[..|b| - |body|];
    var rest := SkipGroup(tag, b, depth).value;
    if wire == 4 {
      assert rest == body;
    } else {
      SkippedFront(wire, inner, body, depth - 1);
      var next := Skip(wire, inner, body, depth - 1).value;
      SkippedGroupFront(tag, next, depth);
      var contents, others := body[..|body| - |next|], next[..|next| - |rest|];
      assert b[..|b| - |rest|] == key + (contents + others);
      KeyPrefix(key, contents + others);
      SkipPrefix(wire, inner, contents, depth - 1, others);
      assert [] + (contents + others) == contents + others && [] + others == others;
    }
  }

  lemma {:induction false} VarintAlone(front: bytes, rest: bytes, n: nat, count: nat)
    requires ReadVarint(front + rest, count) == Some((n, rest))
    ensures ReadVarint(front, count) == Some((n, []))
    decreases |front|
  {
    assert front != [];
    assert (front + rest)[1..] == front[1..] + rest;
    if front[0] < 128 {
      assert |rest| == |front[1..] + rest|;
      assert front[1..] == [];
    } else {
      var high := ReadVarint((front + rest)[1..], count + 1).value.0;
      VarintAlone(front[1..], rest, high, count + 1);
    }
  }

  /** What was read stands at the front. */
  lemma {:induction false} VarintFront(b: bytes, count: nat)
    requires ReadVarint(b, count).Some?
    ensures
      var (n, rest) := ReadVarint(b, count).value;
      b == b[..|b| - |rest|] + rest && ReadVarint(b[..|b| - |rest|], count) == Some((n, []))
  {
    hide ReadVarint;
    var (n, rest) := ReadVarint(b, count).value;
    assert b == b[..|b| - |rest|] + rest;
    VarintAlone(b[..|b| - |rest|], rest, n, count);
  }

  lemma {:induction false} KeyFront(b: bytes)
    requires ReadKey(b).Some?
    ensures
      var (tag, wire, rest) := ReadKey(b).value;
      b == b[..|b| - |rest|] + rest && ReadKey(b[..|b| - |rest|]) == Some((tag, wire, []))
  {
    VarintFront(b, 0);
    var (key, rest) := ReadVarint(b).value;
    assert ReadVarint(b[..|b| - |rest|]) == Some((key, []));
  }

  lemma {:induction false} LengthAndPayload(key: bytes, payload: bytes)
    requires ReadVarint(key) == Some((|payload|, []))
    ensures ReadDelimited(key + payload) == Some((payload, []))
  {
    VarintPrefix(key, payload, 0);
    hide ReadVarint;
    assert [] + payload == payload && payload[..|payload|] == payload && payload[|payload|..] == [];
  }

  lemma {:induction false} DelimitedFront(b: bytes)
    requires ReadDelimited(b).Some?
    ensures
      var (payload, rest) := ReadDelimited(b).value;
      b == b[..|b| - |rest|] + rest && ReadDelimited(b[..|b| - |rest|]) == Some((payload, []))
  {
    VarintFront(b, 0);
    hide ReadVarint;
    var (length, more) := ReadVarint(b).value;
    var key, payload, rest := b[..|b| - |more|], more[..length], more[length..];
    assert ReadDelimited(b) == Some((payload, rest));
    hide ReadDelimited;
    assert more == payload + rest;
    assert b == key + more == (key + payload) + rest;
    LengthAndPayload(key, payload);
    assert b[..|b| - |rest|] == key + payload;
  }

  /** The value of a field after its length and payload, or what follows them, were found. */
  lemma {:induction false} SamePayloadSameField(k: Kind, b: bytes, b': bytes, depth: nat)
    requires !IsNumber(k) && ReadDelimited(b).Some? && ReadDelimited(b').Some?
    requires ReadDelimited(b).value.0 == ReadDelimited(b').value.0
    requires MergeField(k, 2, DefaultValue(k), b, depth).Some?
    ensures MergeField(k, 2, DefaultValue(k), b', depth) ==
            Some((MergeField(k, 2, DefaultValue(k), b, depth).value.0, ReadDelimited(b').value.1))
    ensures MergeField(k, 2, DefaultValue(k), b, depth).value.1 == ReadDelimited(b).value.1
  {
    hide ReadDelimited, Merge, HasKind;
  }

  lemma {:induction false} FieldFront(k: Kind, wire: nat, b: bytes, depth: nat)
    requires MergeField(k, wire, DefaultValue(k), b, depth).Some?
    ensures
      var (v, rest) := MergeField(k, wire, DefaultValue(k), b, depth).value;
      b == b[..|b| - |rest|] + rest && MergeField(k, wire, DefaultValue(k), b[..|b| - |rest|], depth) == Some((v, []))
  {
    if IsNumber(k) {
      VarintFront(b, 0);
      hide ReadVarint;
    } else {
      assert wire == 2 && ReadDelimited(b).Some?;
      hide MergeField, ReadDelimited;
      DelimitedFront(b);
      var front := b[..|b| - |ReadDelimited(b).value.1|];
      SamePayloadSameField(k, b, front, depth);
    }
  }

  lemma {:induction false} ReadsStart(s: Schema, b: bytes, acc: Message, depth: nat)
    requires WellTyped(s, acc) && b != [] && Merge(s, b, acc, depth).Some?
    ensures ReadKey(b).Some?
    ensures
      var (tag, wire, body) := ReadKey(b).value;
      if tag > |s.kinds| then Skip(wire, tag, body, depth).Some?
      else MergeField(s.kinds[tag - 1], wire, acc.values[tag - 1], body, depth).Some?
  {
    hide ReadKey, MergeField, Skip;
  }

  lemma {:induction false} KeyAndBody(s: Schema, key: bytes, body: bytes, depth: nat)
    requires ReadKey(key).Some? && ReadKey(key).value.2 == []
    ensures ReadKey(key + body) == Some((ReadKey(key).value.0, ReadKey(key).value.1, body))
    ensures
      var (tag, wire, _) := ReadKey(key).value;
      IsRecord(s, key + body, depth) <==>
        if tag > |s.kinds| then Skip(wire, tag, body, depth) == Some([])
        else
          var r := MergeField(s.kinds[tag - 1], wire, DefaultValue(s.kinds[tag - 1]), body, depth);
          r.Some? && r.value.1 == []
  {
    hide ReadKey, MergeField, Skip;
    KeyPrefix(key, body);
    assert [] + body == body;
  }

  /** The first record of an input that is read. */
  lemma {:induction false} FirstRecord(s: Schema, b: bytes, acc: Message, depth: nat) returns (c: bytes, rest: bytes)
    requires WellTyped(s, acc) && b != [] && Merge(s, b, acc, depth).Some?
    ensures b == c + rest && c != [] && IsRecord(s, c, depth)
  {
    hide ReadKey, MergeField, Skip, Merge, HasKind;
    ReadsStart(s, b, acc, depth);
    KeyFront(b);
    var (tag, wire, body) := ReadKey(b).value;
    var key := b[..|b| - |body|];
    if tag > |s.kinds| {
      SkippedFront(wire, tag, body, depth);
      rest := Skip(wire, tag, body, depth).value;
    } else {
      var k := s.kinds[tag - 1];
      FieldNeedsNothingBefore(k, wire, acc.values[tag - 1], body, depth);
      FieldFront(k, wire, body, depth);
      rest := MergeField(k, wire, DefaultValue(k), body, depth).value.1;
    }
    var front := body[..|body| - |rest|];
    KeyAndBody(s, key, front, depth);
    c := key + front;
  }

  /** Whatever the decoder reads is a sequence of records. */
  lemma {:induction false} InputIsRecords(s: Schema, b: bytes, acc: Message, depth: nat) returns (records: seq<bytes>)
    requires WellTyped(s, acc) && Merge(s, b, acc, depth).Some?
    ensures AllRecords(s, records, depth) && Joined(records) == b
    decreases |b|
  {
    hide IsRecord, HasKind, ReadKey, MergeField, Skip, Collected, Next, Merge;
    if b == [] {
      return [];
    }
    var c, rest := FirstRecord(s, b, acc, depth);
    ReadOneRecord(s, c, rest, acc, depth);
    var others := InputIsRecords(s, rest, Next(s, acc, c, depth), depth);
    records := [c] + others;
    assert records[1..] == others;
  }

  /** The octets are records, and every field of the message gathers the records of that field. */
  ghost predicate Spells(s: Schema, b: bytes, m: Message, depth: nat := RECURSION_LIMIT) {
    exists records :: AllRecords(s, records, depth) && Joined(records) == b && Collected(s, Default(s), records, depth) == m
  }

  /** The decoder reads exactly this: any records, in any order and any form. Of a scalar field the last
      record counts, of a list field all of them, and records of unknown fields do not count. */
  lemma {:induction false} DecodesExactlySpellings(s: Schema, b: bytes, m: Message, depth: nat := RECURSION_LIMIT)
    ensures Decode(s, b, depth) == Some(m) <==> Spells(s, b, m, depth)
  {
    hide IsRecord, HasKind, Merge, Collected;
    if Decode(s, b, depth) == Some(m) {
      var records := InputIsRecords(s, b, Default(s), depth);
      RecordsAreRead(s, records, Default(s), depth);
    }
    if Spells(s, b, m, depth) {
      var records :| AllRecords(s, records, depth) && Joined(records) == b && Collected(s, Default(s), records, depth) == m;
      RecordsAreRead(s, records, Default(s), depth);
    }
  }

  /** Only what the records of each field hold matters: neither how they are written, nor how the fields
      are mixed, nor any unknown records among them. */
  lemma {:induction false} RearrangedIsRead(s: Schema, p: seq<bytes>, q: seq<bytes>, depth: nat := RECURSION_LIMIT)
    requires AllRecords(s, p, depth) && AllRecords(s, q, depth)
    requires forall i :: 0 <= i < |s.kinds| ==> ValuesFor(s, i, p, depth) == ValuesFor(s, i, q, depth)
    ensures Decode(s, Joined(p), depth).Some? && Decode(s, Joined(p), depth) == Decode(s, Joined(q), depth)
  {
    hide IsRecord, HasKind, Merge, ValuesFor, Gathered;
    RecordsAreRead(s, p, Default(s), depth);
    RecordsAreRead(s, q, Default(s), depth);
    assert Collected(s, Default(s), p, depth).values == Collected(s, Default(s), q, depth).values;
  }

  // ---------------------------------------------------------------- rearranged encodings

  /** A piece of a message's encoding: a field as it is written, one record of a field written in some
      other way, or one record of an unknown field. */
  datatype Piece = Written(i: nat) | Respelled(i: nat, octets: bytes) | Foreign(octets: bytes)

  predicate PieceOf(s: Schema, m: Message, p: Piece)
    requires WellTyped(s, m)
  {
    match p
    case Written(i) => i < |s.kinds|
    case Respelled(i, c) => i < |s.kinds| && IsRecord(s, c) && TagOf(c) == i + 1 && ValueOf(s, c) == m.values[i]
    case Foreign(c) => IsRecord(s, c) && TagOf(c) > |s.kinds|
  }

  function PieceOctets(s: Schema, m: Message, p: Piece): bytes
    requires WellTyped(s, m) && PieceOf(s, m, p)
  {
    match p
    case Written(i) => EncodeField(i + 1, s.kinds[i], m.values[i])
    case Respelled(_, c) => c
    case Foreign(c) => c
  }

  function PiecesOctets(s: Schema, m: Message, ps: seq<Piece>): bytes
    requires WellTyped(s, m) && forall p <- ps :: PieceOf(s, m, p)
  {
    if ps == [] then [] else PieceOctets(s, m, ps[0]) + PiecesOctets(s, m, ps[1..])
  }

  function FieldsOf(ps: seq<Piece>): seq<nat> {
    if ps == [] then []
    else (if ps[0].Foreign? then [] else [ps[0].i]) + FieldsOf(ps[1..])
  }

  predicate Distinct(fields: seq<nat>) {
    forall i, j :: 0 <= i < j < |fields| ==> fields[i] != fields[j]
  }

  lemma {:induction false} OnlyOccurrence(k: Kind, v: Value)
    requires HasKind(k, v)
    ensures After(k, DefaultValue(k), v) == v
  {
    if k.TextList? {
      assert [] + v.bs == v.bs;
    } else if k.MessageList? {
      assert [] + v.ms == v.ms;
    }
  }

  lemma {:induction false} ReadPiece(s: Schema, m: Message, p: Piece, tail: bytes, acc: Message)
    requires Sound(s) && WellTyped(s, m) && WellTyped(s, acc) && PieceOf(s, m, p)
    requires !p.Foreign? ==> acc.values[p.i] == DefaultValue(s.kinds[p.i])
    requires |PieceOctets(s, m, p)| < U64
    ensures Merge(s, PieceOctets(s, m, p) + tail, acc) ==
            Merge(s, tail, if p.Foreign? then acc else Store(s, acc, p.i, m.values[p.i]))
  {
    hide IsRecord, Merge, Next, ValueOf, After, Sound, EncodeField, HasKind;
    match p {
      case Written(i) =>
        MergeEncodedField(s, i, m.values[i], tail, acc);
      case Respelled(i, c) =>
        ReadOneRecord(s, c, tail, acc, RECURSION_LIMIT);
        NextStores(s, acc, c, RECURSION_LIMIT);
        OnlyOccurrence(s.kinds[i], m.values[i]);
      case Foreign(c) =>
        ReadOneRecord(s, c, tail, acc, RECURSION_LIMIT);
        NextStores(s, acc, c, RECURSION_LIMIT);
    }
  }

  lemma {:induction false} FieldsOfRest(ps: seq<Piece>)
    requires ps != [] && Distinct(FieldsOf(ps))
    ensures
      var fields := FieldsOf(ps[1..]);
      && Distinct(fields)
      && (ps[0].Foreign? ==> FieldsOf(ps) == fields)
      && (!ps[0].Foreign? ==> FieldsOf(ps) == [ps[0].i] + fields && ps[0].i !in fields)
  {
    var all, fields := FieldsOf(ps), FieldsOf(ps[1..]);
    if !ps[0].Foreign? {
      assert all == [ps[0].i] + fields;
      assert forall k :: 0 <= k < |fields| ==> fields[k] == all[k + 1];
      assert all[0] == ps[0].i;
    } else {
      assert all == fields;
    }
  }

  lemma {:induction false} ReadPieces(s: Schema, m: Message, ps: seq<Piece>, acc: Message)
    requires Sound(s) && WellTyped(s, m) && WellTyped(s, acc) && forall p <- ps :: PieceOf(s, m, p)
    requires Distinct(FieldsOf(ps)) && |PiecesOctets(s, m, ps)| < U64
    requires forall i <- FieldsOf(ps) :: i < |s.kinds| ==> acc.values[i] == DefaultValue(s.kinds[i])
    ensures
      var r := Merge(s, PiecesOctets(s, m, ps), acc);
      r.Some? && forall i :: 0 <= i < |s.kinds| ==> r.value.values[i] == if i in FieldsOf(ps) then m.values[i] else acc.values[i]
    decreases |ps|
  {
    hide PieceOctets, HasKind, Sound;
    if ps == [] {
      assert Merge(s, [], acc) == Some(acc);
    } else {
      var p, more := ps[0], ps[1..];
      assert p in ps && forall q <- more :: q in ps;
      FieldsOfRest(ps);
      hide PieceOf, Merge, FieldsOf, Distinct;
      ReadPiece(s, m, p, PiecesOctets(s, m, more), acc);
      ReadPieces(s, m, more, if p.Foreign? then acc else Store(s, acc, p.i, m.values[p.i]));
    }
  }

  /** A message's fields, each written once, in any order, as they are or in another way, with any unknown
      records before, between and after them, are read as that message. */
  lemma {:induction false} RearrangedEncodingIsRead(s: Schema, m: Message, ps: seq<Piece>)
    requires Sound(s) && WellTyped(s, m) && forall p <- ps :: PieceOf(s, m, p)
    requires Distinct(FieldsOf(ps)) && |PiecesOctets(s, m, ps)| < U64
    requires forall i :: 0 <= i < |s.kinds| ==> i in FieldsOf(ps)
    ensures Decode(s, PiecesOctets(s, m, ps)) == Some(m)
  {
    hide PiecesOctets, PieceOf, Merge;
    ReadPieces(s, m, ps, Default(s));
    assert Decode(s, PiecesOctets(s, m, ps)).value.values == m.values;
  }

  /** A varint with one octet more than it needs. */
  function OverlongVarint(n: nat): bytes {
    if n < 128 then [n + 128, 0] else [n % 128 + 128] + OverlongVarint(n / 128)
  }

  lemma {:induction false} OverlongIsRead(n: nat, count: nat)
    requires count <= 8 && n < Capacity(count + 1)
    ensures ReadVarint(OverlongVarint(n), count) == Some((n, []))
    decreases n
  {
    var b := OverlongVarint(n);
    assert Capacity(9) == 2;
    if n < 128 {
      assert b[1..] == [0] && b[1..][1..] == [];
      assert ReadVarint(b[1..], count + 1) == Some((0, []));
    } else {
      assert b[1..] == OverlongVarint(n / 128);
      OverlongIsRead(n / 128, count + 1);
    }
  }

  lemma {:induction false} NumberIsMerged(k: Kind, value: bytes)
    requires IsNumber(k) && ReadVarint(value).Some?
    ensures MergeField(k, 0, DefaultValue(k), value) ==
            Some((Number(FromBits(k, ReadVarint(value).value.0)), ReadVarint(value).value.1))
  {
  }

  /** A number field with any octets for its key and its value that are read as these numbers is another
      way to write it, over-long forms and a written zero included. */
  lemma {:induction false} AnyVarintsAreRespelling(s: Schema, m: Message, i: nat, key: bytes, value: bytes)
    requires Sound(s) && WellTyped(s, m) && i < |s.kinds| && IsNumber(s.kinds[i])
    requires ReadVarint(key) == Some(((i + 1) * 8, []))
    requires ReadVarint(value).Some? && ReadVarint(value).value.1 == []
    requires m.values[i] == Number(FromBits(s.kinds[i], ReadVarint(value).value.0))
    ensures PieceOf(s, m, Respelled(i, key + value))
  {
    assert (i + 1) * 8 < 0x1_0000_0000;
    hide MergeField, Sound, HasKind, ReadVarint;
    assert ReadKey(key) == Some((i + 1, 0, []));
    var k := s.kinds[i];
    assert MergeField(k, 0, DefaultValue(k), value) == Some((m.values[i], [])) by {
      NumberIsMerged(k, value);
    }
    KeyAndBody(s, key, value, RECURSION_LIMIT);
    hide ReadKey;
  }
}
