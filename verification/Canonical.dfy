/** Canonical decoding: the lenient decoder's result is accepted only when encoding it again gives
    back the input octet for octet. */
module Canonical {
  import opened Bytes
  import opened Wire

  datatype ProtocolError =
    | TooLarge
    | Empty
    | LaunchBundleComponent(component: string, source: ProtocolError)
    | InvalidSignature
    | InvalidField(field: string)
    | DecodeFailed
    | Expired
    | UnknownKey
    | NonCanonical

  /** How a message type of the program is laid out: its schema and the two conversions between
      its values and the generic field values. */
  datatype Codec<!T> = Codec(schema: Schema, to: T -> Message, from: Message --> T)

  ghost predicate Faithful<T(!new)>(c: Codec<T>) {
    && Sound(c.schema)
    && (forall t: T :: WellTyped(c.schema, c.to(t)))
    && (forall m: Message :: WellTyped(c.schema, m) ==> c.from.requires(m) && c.to(c.from(m)) == m)
    && (forall t: T :: c.from.requires(c.to(t)) && c.from(c.to(t)) == t)
  }

  function EncodeToVec<T>(c: Codec<T>, value: T): bytes {
    Encode(c.schema, c.to(value))
  }

  function DecodeCanonical<T(!new)>(c: Codec<T>, input: bytes): Result<T, ProtocolError>
    requires Faithful(c)
  {
    if input == [] then Err(Empty)
    else if |input| > MAX_MESSAGE_BYTES then Err(TooLarge)
    else
      match Decode(c.schema, input)
      case None => Err(DecodeFailed)
      case Some(m) =>
        var value := c.from(m);
        if EncodeToVec(c, value) != input then Err(NonCanonical) else Ok(value)
  }

  /** Exactly the non-empty encodings of at most 64 KiB are accepted, each as the message it encodes. */
  lemma {:induction false} AcceptsExactlyEncodings<T(!new)>(c: Codec<T>, input: bytes, value: T)
    requires Faithful(c)
    ensures DecodeCanonical(c, input) == Ok(value) <==>
            input == EncodeToVec(c, value) && 0 < |input| <= MAX_MESSAGE_BYTES
  {
    if input == EncodeToVec(c, value) && 0 < |input| <= MAX_MESSAGE_BYTES {
      DecodeEncode(c.schema, c.to(value));
    }
  }

  /** A message is accepted back from its encoding unless that is empty or too long, and then the
      error says which. */
  lemma {:induction false} DecodesWhatWasEncoded<T(!new)>(c: Codec<T>, value: T)
    requires Faithful(c)
    ensures
      var input := EncodeToVec(c, value);
      DecodeCanonical(c, input) ==
        if input == [] then Err(Empty)
        else if |input| > MAX_MESSAGE_BYTES then Err(TooLarge)
        else Ok(value)
  {
    AcceptsExactlyEncodings(c, EncodeToVec(c, value), value);
  }

  /** No message has two accepted encodings. */
  lemma {:induction false} OneEncodingPerMessage<T(!new)>(c: Codec<T>, a: bytes, b: bytes)
    requires Faithful(c)
    requires DecodeCanonical(c, a).Ok? && DecodeCanonical(c, a) == DecodeCanonical(c, b)
    ensures a == b
  {
    AcceptsExactlyEncodings(c, a, DecodeCanonical(c, a).value);
    AcceptsExactlyEncodings(c, b, DecodeCanonical(c, a).value);
  }

  /** Distinct messages have distinct encodings. */
  lemma {:induction false} EncodingDeterminesMessage<T(!new)>(c: Codec<T>, a: T, b: T)
    requires Faithful(c) && |EncodeToVec(c, a)| < U64
    requires EncodeToVec(c, a) == EncodeToVec(c, b)
    ensures a == b
  {
    EncodeInjective(c.schema, c.to(a), c.to(b));
  }

  /** Each error has its own cause, in this order: nothing to decode, too much, octets that are no
      message, and a message that is written differently. */
  lemma {:induction false} DecodingErrors<T(!new)>(c: Codec<T>, input: bytes)
    requires Faithful(c)
    ensures
      var r := DecodeCanonical(c, input);
      && (r == Err(Empty) <==> input == [])
      && (r == Err(TooLarge) <==> |input| > 65536)
      && (r == Err(DecodeFailed) <==> 0 < |input| <= 65536 && Decode(c.schema, input).None?)
      && (r.Err? ==> r.error in {Empty, TooLarge, DecodeFailed, NonCanonical})
  {
  }

  /** What is not canonical is refused for that reason only: the lenient decoder reads it as some
      message whose own encoding is a different octet string. */
  lemma {:induction false} RefusedAsNonCanonical<T(!new)>(c: Codec<T>, input: bytes)
    requires Faithful(c) && 0 < |input| <= MAX_MESSAGE_BYTES
    ensures DecodeCanonical(c, input) == Err(NonCanonical) <==>
            Decode(c.schema, input).Some? && forall value: T :: input != EncodeToVec(c, value)
  {
    forall value: T
      ensures input == EncodeToVec(c, value) ==> DecodeCanonical(c, input) == Ok(value)
    {
      AcceptsExactlyEncodings(c, input, value);
    }
  }
}
