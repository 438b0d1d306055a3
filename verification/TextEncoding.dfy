/** Text as characters: the octets that count as text are exactly the UTF-8 encodings of strings (Table 3-6
    of the Unicode Standard), and what is asked of text is asked of its characters. */
module TextEncoding {
  import opened Bytes
  import opened Evidence
  import Environment

  function Utf8Of(c: char): (b: bytes)
    ensures b != []
  {
    var n := c as int;
    if n < 0x80 then [n]
    else if n < 0x800 then [0xC0 + n / 0x40, 0x80 + n % 0x40]
    else if n < 0x1_0000 then [0xE0 + n / 0x1000, 0x80 + n / 0x40 % 0x40, 0x80 + n % 0x40]
    else [0xF0 + n / 0x4_0000, 0x80 + n / 0x1000 % 0x40, 0x80 + n / 0x40 % 0x40, 0x80 + n % 0x40]
  }

  function Utf8(s: string): bytes {
    if s == "" then [] else Utf8Of(s[0]) + Utf8(s[1..])
  }

  lemma {:induction false} OneStep(c: char, rest: bytes)
    ensures Utf8Step(Utf8Of(c) + rest) == |Utf8Of(c)|
    ensures (Utf8Of(c) + rest)[|Utf8Of(c)|..] == rest
  {
    var n, b := c as int, Utf8Of(c) + rest;
    if n < 0x80 {
      assert b[0] == n;
    } else if n < 0x800 {
      assert b[0] == 0xC0 + n / 0x40 && b[1] == 0x80 + n % 0x40;
    } else if n < 0x1_0000 {
      assert b[0] == 0xE0 + n / 0x1000 && b[1] == 0x80 + n / 0x40 % 0x40 && b[2] == 0x80 + n % 0x40;
    } else {
      FourOctetStep(c, rest);
    }
  }

  lemma {:induction false} FourOctetStep(c: char, rest: bytes)
    requires c as int >= 0x1_0000
    ensures Utf8Step(Utf8Of(c) + rest) == |Utf8Of(c)|
    ensures (Utf8Of(c) + rest)[|Utf8Of(c)|..] == rest
  {
    var n, b := c as int, Utf8Of(c) + rest;
    assert b[0] == 0xF0 + n / 0x4_0000 && b[1] == 0x80 + n / 0x1000 % 0x40;
    assert b[2] == 0x80 + n / 0x40 % 0x40 && b[3] == 0x80 + n % 0x40;
  }

  lemma {:induction false} EncodedIsText(s: string)
    ensures ValidUtf8(Utf8(s))
  {
    if s != "" {
      EncodedIsText(s[1..]);
      OneStep(s[0], Utf8(s[1..]));
    }
  }

  /** The six bits that a continuation octet carries. */
  function Group(b: byte): (n: int)
    requires Continuation(b)
    ensures 0 <= n < 0x40 && b == 0x80 + n
  {
    b as int - 0x80
  }

  lemma {:induction false} Sextets(high: nat, a: nat, b: nat, c: nat)
    requires a < 0x40 && b < 0x40 && c < 0x40
    ensures
      var n := high * 0x4_0000 + a * 0x1000 + b * 0x40 + c;
      && n / 0x4_0000 == high
      && n / 0x1000 == high * 0x40 + a && n / 0x1000 % 0x40 == a
      && n / 0x40 == high * 0x1000 + a * 0x40 + b && n / 0x40 % 0x40 == b
      && n % 0x40 == c
  {
    var n := high * 0x4_0000 + a * 0x1000 + b * 0x40 + c;
    LastSextet(high * 0x1000 + a * 0x40 + b, c);
    LastSextet(high * 0x40 + a, b);
    LastSextet(high, a);
    assert n / 0x40 == high * 0x1000 + a * 0x40 + b;
    assert n / 0x1000 == n / 0x40 / 0x40;
    assert n / 0x4_0000 == n / 0x1000 / 0x40;
  }

  lemma {:induction false} LastSextet(q: nat, r: nat)
    requires r < 0x40
    ensures (q * 0x40 + r) / 0x40 == q && (q * 0x40 + r) % 0x40 == r
  {
  }

  lemma {:induction false} FromOctets(lead: nat, rest: seq<nat>) returns (c: char)
    requires 1 <= |rest| <= 3 && forall r <- rest :: r < 0x40
    requires |rest| == 1 ==> 2 <= lead < 0x20
    requires |rest| == 2 ==> lead < 0x10 && (lead == 0 ==> rest[0] >= 0x20) && (lead == 0xD ==> rest[0] < 0x20)
    requires |rest| == 3 ==> lead < 5 && (lead == 0 ==> rest[0] >= 0x10) && (lead == 4 ==> rest[0] < 0x10)
    ensures Utf8Of(c) ==
              if |rest| == 1 then [0xC0 + lead, 0x80 + rest[0]]
              else if |rest| == 2 then [0xE0 + lead, 0x80 + rest[0], 0x80 + rest[1]]
              else [0xF0 + lead, 0x80 + rest[0], 0x80 + rest[1], 0x80 + rest[2]]
  {
    assert forall i :: 0 <= i < |rest| ==> rest[i] in rest;
    if |rest| == 1 {
      LastSextet(lead, rest[0]);
      c := (lead * 0x40 + rest[0]) as char;
    } else if |rest| == 2 {
      Sextets(0, lead, rest[0], rest[1]);
      c := (lead * 0x1000 + rest[0] * 0x40 + rest[1]) as char;
    } else {
      c := FromFourOctets(lead, rest[0], rest[1], rest[2]);
    }
  }

  lemma {:induction false} FromFourOctets(lead: nat, first: nat, second: nat, third: nat) returns (c: char)
    requires first < 0x40 && second < 0x40 && third < 0x40
    requires lead < 5 && (lead == 0 ==> first >= 0x10) && (lead == 4 ==> first < 0x10)
    ensures Utf8Of(c) == [0xF0 + lead, 0x80 + first, 0x80 + second, 0x80 + third]
  {
    Sextets(lead, first, second, third);
    c := (lead * 0x4_0000 + first * 0x1000 + second * 0x40 + third) as char;
  }

  /** The character at the front of a text. */
  lemma {:induction false} FirstCharacter(b: bytes) returns (c: char)
    requires b != [] && Utf8Step(b) > 0
    ensures Utf8Of(c) == b[..Utf8Step(b)]
  {
    var k := Utf8Step(b);
    var lead: int := b[0];
    if k == 1 {
      c := lead as char;
      assert Utf8Of(c) == [b[0]];
    } else if k == 2 {
      hide Utf8Of;
      c := FromOctets(lead - 0xC0, [Group(b[1])]);
    } else if k == 3 {
      hide Utf8Of;
      c := FromOctets(lead - 0xE0, [Group(b[1]), Group(b[2])]);
    } else {
      hide Utf8Of;
      c := FromOctets(lead - 0xF0, [Group(b[1]), Group(b[2]), Group(b[3])]);
    }
  }

  lemma {:induction false} OneMore(c: char, rest: string)
    ensures Utf8([c] + rest) == Utf8Of(c) + Utf8(rest)
  {
    hide Utf8Of;
    assert ([c] + rest)[1..] == rest;
  }

  lemma {:induction false} TextGoesOn(b: bytes)
    requires ValidUtf8(b) && b != []
    ensures 0 < Utf8Step(b) <= |b| && ValidUtf8(b[Utf8Step(b)..])
  {
    hide Utf8Step;
  }

  lemma {:induction false} CharactersOf(b: bytes) returns (s: string)
    requires ValidUtf8(b)
    ensures Utf8(s) == b
    decreases |b|
  {
    if b == [] {
      s := "";
    } else {
      hide Utf8, Utf8Of, Utf8Step, ValidUtf8;
      TextGoesOn(b);
      var c := FirstCharacter(b);
      var rest := CharactersOf(b[Utf8Step(b)..]);
      s := [c] + rest;
      OneMore(c, rest);
      assert b == b[..Utf8Step(b)] + b[Utf8Step(b)..];
    }
  }

  /** Octets are text exactly if some string is encoded as them. */
  lemma {:induction false} TextIsEncodedStrings(b: bytes)
    ensures ValidUtf8(b) <==> exists s: string :: Utf8(s) == b
  {
    if ValidUtf8(b) {
      var s := CharactersOf(b);
    }
    if s: string :| Utf8(s) == b {
      EncodedIsText(s);
    }
  }

  predicate Control(c: char) {
    c as int < 0x20 || 0x7F <= c as int <= 0x9F
  }

  /** An octet, with the one after it, that shows a control character. */
  predicate Shows(b: bytes, i: nat)
    requires i < |b|
  {
    b[i] < 0x20 || b[i] == 0x7F || (b[i] == 0xC2 && i + 1 < |b| && b[i + 1] <= 0x9F)
  }

  lemma {:induction false} ShowsInFirst(c: char, rest: bytes)
    ensures (exists i :: 0 <= i < |Utf8Of(c)| && Shows(Utf8Of(c) + rest, i)) <==> Control(c)
  {
    var b := Utf8Of(c) + rest;
    assert Shows(b, 0) <==> Control(c);
    assert forall i :: 0 < i < |Utf8Of(c)| ==> 0x80 <= b[i] <= 0xBF && !Shows(b, i);
  }

  lemma {:induction false} ControlShows(b: bytes)
    ensures HasControl(b) <==> exists i :: 0 <= i < |b| && Shows(b, i)
  {
    if HasControl(b) {
      var i :| 0 <= i < |b| &&
        (b[i] < 0x20 || b[i] == 0x7F || (b[i] == 0xC2 && i + 1 < |b| && b[i + 1] <= 0x9F));
      assert Shows(b, i);
    }
  }

  lemma {:induction false} ControlAmongCharacters(s: string)
    ensures HasControl(Utf8(s)) <==> exists c <- s :: Control(c)
  {
    if s != "" {
      var b, first, rest := Utf8(s), Utf8Of(s[0]), Utf8(s[1..]);
      ControlAmongCharacters(s[1..]);
      ShowsInFirst(s[0], rest);
      ControlShows(b);
      ControlShows(rest);
      hide Utf8Of, Control, HasControl;
      assert forall i :: 0 <= i < |rest| ==> (Shows(rest, i) <==> Shows(b, |first| + i));
      if i :| 0 <= i < |b| && Shows(b, i) {
        if i >= |first| {
          assert Shows(rest, i - |first|);
        }
      }
    }
  }

  /** A value is fit to be reported exactly if it has 1 to 512 octets and no control character. */
  lemma {:induction false} WhatValuesAreSafe(s: string)
    ensures SafeValue(Utf8(s)) <==> 1 <= |Utf8(s)| <= 512 && forall c <- s :: !Control(c)
  {
    ControlAmongCharacters(s);
    hide HasControl, Utf8, Control;
  }

  /** Counting UTF-16 code units in octets is counting them in the string. */
  lemma {:induction false} UnitsAgree(s: string)
    ensures ValidUtf8(Utf8(s)) && Utf16Units(Utf8(s)) == |Environment.Utf16(s)|
  {
    EncodedIsText(s);
    if s != "" {
      UnitsAgree(s[1..]);
      OneStep(s[0], Utf8(s[1..]));
      assert |Utf8Of(s[0])| == 4 <==> s[0] as int >= 0x1_0000;
    }
  }
}
