/** What the lenient reader accepts, octet for octet: every form of a varint, of a key, of a known field and
    of an unknown one, and how deep groups may be nested. */
module Forms {
  import opened Bytes
  import opened Wire

  // ---------------------------------------------------------------- varints

  /** The number made of the low seven bits of each octet, the first octet holding the lowest. */
  function Groups(c: bytes): (n: nat) {
    if c == [] then 0 else c[0] % 0x80 + 0x80 * Groups(c[1..])
  }

  /** All octets but the last have the high bit. */
  predicate Chain(c: bytes) {
    c != [] && c[|c| - 1] < 0x80 && forall i :: 0 <= i < |c| - 1 ==> c[i] >= 0x80
  }

  lemma {:induction false} LongerChain(c: bytes)
    requires |c| > 1
    ensures Chain(c) <==> c[0] >= 0x80 && Chain(c[1..])
  {
    if c[0] >= 0x80 && Chain(c[1..]) {
      assert forall i :: 0 < i < |c| - 1 ==> c[i] == c[1..][i - 1];
    }
  }

  lemma {:induction false} ChainIsRead(c: bytes, rest: bytes, count: nat)
    requires Chain(c) && count <= 9
    ensures ReadVarint(c + rest, count) ==
              if |c| <= 10 - count && Groups(c) < Capacity(count) then Some((Groups(c), rest)) else None
    decreases |c|
  {
    if |c| == 1 {
      assert c[1..] == [] && (c + rest)[1..] == rest;
    } else {
      LongerChain(c);
      assert (c + rest)[1..] == c[1..] + rest;
      if count < 9 {
        ChainIsRead(c[1..], rest, count + 1);
      }
    }
  }

  lemma {:induction false} ReadIsChain(b: bytes, count: nat)
    requires ReadVarint(b, count).Some?
    ensures
      var c := b[..|b| - |ReadVarint(b, count).value.1|];
      Chain(c) && b == c + ReadVarint(b, count).value.1
    decreases |b|
  {
    var rest := ReadVarint(b, count).value.1;
    var c := b[..|b| - |rest|];
    assert b == c + b[|b| - |rest|..];
    if b[0] < 0x80 {
      assert c == [b[0]];
    } else {
      ReadIsChain(b[1..], count + 1);
      assert c[1..] == b[1..][..|b| - 1 - |rest|];
      LongerChain(c);
    }
  }

  /** A varint is one to ten octets, all but the last with the high bit, whose low bits make a number of at
      most 64 bits. Over-long forms are varints. */
  lemma {:induction false} WhatVarintsAre(b: bytes, n: nat, rest: bytes)
    ensures ReadVarint(b) == Some((n, rest)) <==>
            exists c :: Chain(c) && |c| <= 10 && Groups(c) == n < 0x1_0000_0000_0000_0000 && b == c + rest
  {
    CapacityIsU64();
    if ReadVarint(b) == Some((n, rest)) {
      ReadIsChain(b, 0);
      ChainIsRead(b[..|b| - |rest|], rest, 0);
    }
    if c :| Chain(c) && |c| <= 10 && Groups(c) == n < 0x1_0000_0000_0000_0000 && b == c + rest {
      ChainIsRead(c, rest, 0);
    }
  }

  /** A key is a varint of at most 32 bits: a field number from 1 on, times eight, and a wire type up to 5. */
  lemma {:induction false} WhatKeysAre(b: bytes, tag: nat, wire: nat, rest: bytes)
    ensures ReadKey(b) == Some((tag, wire, rest)) <==>
            && 1 <= tag < 0x2000_0000 && wire <= 5 && ReadVarint(b) == Some((8 * tag + wire, rest))
  {
    hide ReadVarint;
  }

  /** A number that does not fit its field is cut down to its low bits; a truth value is whether any bit is
      set. */
  lemma {:induction false} NumbersAreCutDown(bits: nat)
    requires bits < 0x1_0000_0000_0000_0000
    ensures 0 <= FromBits(Uint32, bits) < 0x1_0000_0000 && (bits - FromBits(Uint32, bits)) % 0x1_0000_0000 == 0
    ensures -0x8000_0000 <= FromBits(Int32, bits) < 0x8000_0000 && (bits - FromBits(Int32, bits)) % 0x1_0000_0000 == 0
    ensures FromBits(Uint64, bits) == bits
    ensures FromBits(Int64, bits) == if bits >= 0x8000_0000_0000_0000 then bits - 0x1_0000_0000_0000_0000 else bits
    ensures FromBits(Bool, bits) == if bits == 0 then 0 else 1
  {
    LowBits(bits);
    CapacityIsU64();
  }

  lemma {:induction false} LowBits(bits: nat)
    ensures (bits - bits % 0x1_0000_0000) % 0x1_0000_0000 == 0
    ensures (bits - (bits % 0x1_0000_0000 - 0x1_0000_0000)) % 0x1_0000_0000 == 0
  {
    var q := bits / 0x1_0000_0000;
    assert bits - bits % 0x1_0000_0000 == q * 0x1_0000_0000;
  }

  // ---------------------------------------------------------------- fields

  /** The body of a known field: a varint for a number, and otherwise a length with so many octets, which
      are well-formed text in a text field, and a message in a message field. */
  predicate FieldBody(k: Kind, wire: nat, body: bytes) {
    if IsNumber(k) then wire == 0 && ReadVarint(body).Some? && ReadVarint(body).value.1 == []
    else
      && wire == 2 && ReadDelimited(body).Some? && ReadDelimited(body).value.1 == []
      && (k.Text? || k.TextList? ==> ValidUtf8(ReadDelimited(body).value.0))
      && (k.MessageList? ==> Decode(k.schema, ReadDelimited(body).value.0, 99).Some?)
  }

  function BodyValue(k: Kind, wire: nat, body: bytes): Value
    requires FieldBody(k, wire, body)
  {
    if IsNumber(k) then Number(FromBits(k, ReadVarint(body).value.0))
    else
      var payload := ReadDelimited(body).value.0;
      match k
      case TextList => OctetsList([payload])
      case MessageList(inner) => Messages([Decode(inner, payload, 99).value])
      case _ => Octets(payload)
  }

  /** The forms of a known field, and what it then holds by itself. */
  lemma {:induction false} KnownForms(s: Schema, i: nat, wire: nat, body: bytes)
    requires i < |s.kinds| && i + 1 < 0x2000_0000 && wire <= 5
    ensures IsRecord(s, Key(i + 1, wire) + body) <==> FieldBody(s.kinds[i], wire, body)
    ensures FieldBody(s.kinds[i], wire, body) ==>
              && TagOf(Key(i + 1, wire) + body) == i + 1
              && ValueOf(s, Key(i + 1, wire) + body) == BodyValue(s.kinds[i], wire, body)
  {
    KeyRoundTrip(i + 1, wire, body);
    BodyIsMerged(s.kinds[i], wire, body);
    hide Key, ReadKey, FieldBody, BodyValue, MergeField, Skip, HasKind;
  }

  lemma {:induction false} BodyIsMerged(k: Kind, wire: nat, body: bytes)
    ensures
      var r := MergeField(k, wire, DefaultValue(k), body);
      && (r.Some? && r.value.1 == [] <==> FieldBody(k, wire, body))
      && (FieldBody(k, wire, body) ==> r.value.0 == BodyValue(k, wire, body))
  {
    hide ReadVarint, ReadDelimited, Merge, FromBits, ValidUtf8, Default;
  }

  /** What follows the key of an unknown field: a varint, eight octets, a length with so many octets, four
      octets, or, for a group, anything up to its end. An end of a group stands nowhere else. */
  lemma {:induction false} UnknownForms(s: Schema, tag: nat, wire: nat, body: bytes)
    requires |s.kinds| < tag < 0x2000_0000 && wire <= 5
    ensures IsRecord(s, Key(tag, wire) + body) <==>
            match wire
            case 0 => ReadVarint(body).Some? && ReadVarint(body).value.1 == []
            case 1 => |body| == 8
            case 2 => ReadDelimited(body).Some? && ReadDelimited(body).value.1 == []
            case 3 => SkipGroup(tag, body, RECURSION_LIMIT) == Some([])
            case 4 => false
            case _ => |body| == 4
  {
    KeyRoundTrip(tag, wire, body);
    hide Key, ReadKey, ReadVarint, ReadDelimited, MergeField, SkipGroup;
    if wire == 1 && |body| >= 8 {
      assert body[8..] == [] <==> |body| == 8;
    } else if wire == 5 && |body| >= 4 {
      assert body[4..] == [] <==> |body| == 4;
    }
  }

  // ---------------------------------------------------------------- groups

  /** The rest of a group with so many groups inside it, one in the other. */
  function Nest(tag: nat, n: nat): bytes {
    if n == 0 then Key(tag, 4) else Key(tag, 3) + Nest(tag, n - 1) + Key(tag, 4)
  }

  lemma {:induction false} GroupIsSkipped(tag: nat, b: bytes, depth: nat)
    ensures Skip(3, tag, b, depth) == if depth == 0 then None else SkipGroup(tag, b, depth)
  {
    hide SkipGroup;
  }

  lemma {:induction false} GroupGoesOn(tag: nat, b: bytes, inner: nat, rest: bytes, depth: nat)
    requires depth > 0 && ReadKey(b) == Some((inner, 3, rest))
    ensures SkipGroup(tag, b, depth) ==
              match Skip(3, inner, rest, depth - 1)
              case None => None
              case Some(next) => SkipGroup(tag, next, depth)
  {
    hide ReadKey;
  }

  lemma {:induction false} GroupEnds(tag: nat, other: nat, rest: bytes, depth: nat)
    requires depth > 0 && 1 <= other < 0x2000_0000
    ensures SkipGroup(tag, Key(other, 4) + rest, depth) == if other == tag then Some(rest) else None
  {
    KeyRoundTrip(other, 4, rest);
    hide Key, ReadKey;
  }

  lemma {:induction false} NestIsSkipped(tag: nat, n: nat, rest: bytes, depth: nat)
    requires 1 <= tag < 0x2000_0000
    ensures Skip(3, tag, Nest(tag, n) + rest, depth) == if n < depth then Some(rest) else None
    decreases n
  {
    hide Key, ReadKey, Skip, SkipGroup;
    GroupIsSkipped(tag, Nest(tag, n) + rest, depth);
    if depth > 0 {
      GroupEnds(tag, tag, rest, depth);
      if n > 0 {
        var more := Nest(tag, n - 1) + (Key(tag, 4) + rest);
        assert Nest(tag, n) + rest == Key(tag, 3) + more;
        KeyRoundTrip(tag, 3, more);
        GroupGoesOn(tag, Key(tag, 3) + more, tag, more, depth);
        NestIsSkipped(tag, n - 1, Key(tag, 4) + rest, depth - 1);
      }
    }
  }

  /** Groups may be nested a hundred deep, and end only with their own field number. */
  lemma {:induction false} GroupsNest(s: Schema, tag: nat, n: nat, other: nat)
    requires |s.kinds| < tag < 0x2000_0000 && 1 <= other < 0x2000_0000
    ensures IsRecord(s, Key(tag, 3) + Nest(tag, n)) <==> n < 100
    ensures IsRecord(s, Key(tag, 3) + Key(other, 4)) <==> other == tag
  {
    KeyRoundTrip(tag, 3, Nest(tag, n));
    KeyRoundTrip(tag, 3, Key(other, 4));
    KeyRoundTrip(other, 4, []);
    NestIsSkipped(tag, n, [], 100);
    assert Nest(tag, n) + [] == Nest(tag, n) && Key(other, 4) + [] == Key(other, 4);
    GroupEnds(tag, other, [], 100);
    GroupIsSkipped(tag, Key(other, 4), 100);
    hide Key, ReadKey, Nest, Skip, SkipGroup;
  }
}
