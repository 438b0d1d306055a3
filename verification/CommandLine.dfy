/** The Windows command line of the game: a printer for arguments, and the platform's own rules for
    splitting a command line again (Microsoft's C language reference, section "Parsing C command-line
    arguments"). Only ASCII characters have a meaning in these rules, so text is modelled as
    characters rather than UTF-16 code units. */
module CommandLine {

  predicate Blank(c: char) {
    c == ' ' || c == '\t'
  }

  predicate NeedsQuotes(value: string) {
    value == "" || exists c <- value :: Blank(c) || c == '"'
  }

  function Backslashes(n: nat): (s: string)
    ensures |s| == n && forall c <- s :: c == '\\'
  {
    seq(n, i => '\\')
  }

  lemma {:induction false} SplitBackslashes(a: nat, b: nat)
    ensures Backslashes(a + b) == Backslashes(a) + Backslashes(b)
  {
  }

  // ---------------------------------------------------------------- printing

  /** The text between the quotes and the closing quote, when `pending` backslashes were read but
      not yet written. */
  function QuotedBody(value: string, pending: nat): string
    decreases |value|
  {
    if value == "" then Backslashes(2 * pending) + "\""
    else if value[0] == '\\' then QuotedBody(value[1..], pending + 1)
    else if value[0] == '"' then Backslashes(2 * pending + 1) + "\"" + QuotedBody(value[1..], 0)
    else Backslashes(pending) + [value[0]] + QuotedBody(value[1..], 0)
  }

  function Quoted(value: string): string {
    if NeedsQuotes(value) then "\"" + QuotedBody(value, 0) else value
  }

  /** What one character adds to the output and how many backslashes are pending after it. */
  function Printed(character: char, pending: nat): (r: (string, nat)) {
    if character == '\\' then ("", pending + 1)
    else if character == '"' then (Backslashes(pending * 2 + 1) + [character], 0)
    else (Backslashes(pending) + [character], 0)
  }

  /** One step of printing leaves unchanged what will have been printed in the end. */
  lemma {:induction false} PrintedSoFar(output: string, value: string, i: nat, pending: nat)
    requires i < |value|
    ensures var (more, slashes) := Printed(value[i], pending);
            output + QuotedBody(value[i..], pending) == output + more + QuotedBody(value[i + 1..], slashes)
  {
    hide Backslashes;
    assert value[i..][1..] == value[i + 1..];
    var (more, slashes) := Printed(value[i], pending);
    var rest := QuotedBody(value[i + 1..], slashes);
    assert QuotedBody(value[i..], pending) == more + rest;
    assert output + (more + rest) == output + more + rest;
  }

  lemma {:induction false} EmptyBody(pending: nat)
    ensures QuotedBody("", pending) == Backslashes(2 * pending) + "\""
  {
  }

  /** Prints one argument, with a loop that counts backslashes until it knows what follows them. */
  method Quote(value: string) returns (output: string)
    ensures output == Quoted(value)
  {
    if value != "" && !exists c <- value :: Blank(c) || c == '"' {
      return value;
    }
    hide QuotedBody, Backslashes;
    output := "\"";
    var slashes: nat := 0;
    ghost var body := QuotedBody(value, 0);
    assert value[0..] == value;
    for i := 0 to |value|
      invariant output + QuotedBody(value[i..], slashes) == "\"" + body
    {
      ghost var before, printed := output, Printed(value[i], slashes);
      PrintedSoFar(before, value, i, slashes);
      var character := value[i];
      if character == '\\' {
        assert output == before + printed.0;
        slashes := slashes + 1;
        continue;
      }
      if character == '"' {
        output := output + Backslashes(slashes * 2 + 1);
      } else {
        output := output + Backslashes(slashes);
      }
      slashes := 0;
      output := output + [character];
      assert output == before + printed.0;
    }
    assert value[|value|..] == "";
    ghost var printed := output;
    output := output + Backslashes(slashes * 2);
    output := output + "\"";
    assert output == printed + (Backslashes(2 * slashes) + "\"");
    EmptyBody(slashes);
  }

  /** The arguments after the program name, each preceded by a space. */
  function Tail(args: seq<string>): string {
    if args == [] then "" else " " + Quoted(args[0]) + Tail(args[1..])
  }

  function WindowsCommandLine(game: string, args: seq<string>): string {
    Quoted(game) + Tail(args)
  }

  // ---------------------------------------------------------------- splitting

  /** The platform reads a command line up to its terminating NUL. */
  function UntilNul(s: string): string {
    if s == "" || s[0] == '\0' then "" else [s[0]] + UntilNul(s[1..])
  }

  /** The program name: quotes only switch blanks on and off, and backslashes mean themselves. */
  function ProgramName(s: string, inQuotes: bool): (r: (string, string))
    ensures |r.1| <= |s|
  {
    if s == "" then ("", "")
    else if s[0] == '"' then ProgramName(s[1..], !inQuotes)
    else if !inQuotes && Blank(s[0]) then ("", s[1..])
    else
      var (name, rest) := ProgramName(s[1..], inQuotes);
      ([s[0]] + name, rest)
  }

  function LeadingBackslashes(s: string): (n: nat)
    ensures n <= |s| && s[..n] == Backslashes(n)
    ensures n == |s| || s[n] != '\\'
  {
    if s == "" || s[0] != '\\' then 0
    else
      var n := LeadingBackslashes(s[1..]);
      assert s[..n + 1] == [s[0]] + s[1..][..n];
      n + 1
  }

  function Prepend(a: string, r: (string, string)): (string, string) {
    (a + r.0, r.1)
  }

  /** One further argument: before a quote, 2n backslashes stand for n and leave the quote its
      meaning, 2n + 1 stand for n and a plain quote; elsewhere backslashes mean themselves; and a
      doubled quote inside quotes is a plain one. */
  function Argument(s: string, inQuotes: bool): (r: (string, string))
    ensures |r.1| <= |s|
    ensures s != "" && !Blank(s[0]) ==> |r.1| < |s|
    decreases |s|, 1
  {
    var n := LeadingBackslashes(s);
    AfterBackslashes(n, s[n..], inQuotes)
  }

  /** The same, once `n` backslashes were read and `t` begins with something else. */
  function AfterBackslashes(n: nat, t: string, inQuotes: bool): (r: (string, string))
    ensures |r.1| <= |t|
    ensures t != "" && !Blank(t[0]) ==> |r.1| < |t|
    decreases |t|, 0
  {
    if t != "" && t[0] == '"' then
      if n % 2 == 1 then Prepend(Backslashes(n / 2) + "\"", Argument(t[1..], inQuotes))
      else if inQuotes && |t| > 1 && t[1] == '"' then Prepend(Backslashes(n / 2) + "\"", Argument(t[2..], inQuotes))
      else Prepend(Backslashes(n / 2), Argument(t[1..], !inQuotes))
    else if t == "" || (!inQuotes && Blank(t[0])) then (Backslashes(n), t)
    else Prepend(Backslashes(n) + [t[0]], Argument(t[1..], inQuotes))
  }

  function SkipBlanks(s: string): (r: string)
    ensures |r| <= |s| && (r == "" || !Blank(r[0]))
  {
    if s != "" && Blank(s[0]) then SkipBlanks(s[1..]) else s
  }

  function SplitArguments(s: string): seq<string>
    decreases |s|
  {
    var t := SkipBlanks(s);
    if t == "" then []
    else
      var (arg, rest) := Argument(t, false);
      [arg] + SplitArguments(rest)
  }

  function SplitCommandLine(s: string): seq<string> {
    var (name, rest) := ProgramName(UntilNul(s), false);
    [name] + SplitArguments(rest)
  }

  // ---------------------------------------------------------------- arguments survive

  /** Nothing follows, or a blank does. */
  predicate Ends(rest: string) {
    rest == "" || Blank(rest[0])
  }

  lemma {:induction false} CountBackslashes(n: nat, s: string)
    requires s == "" || s[0] != '\\'
    ensures LeadingBackslashes(Backslashes(n) + s) == n
  {
    var all := Backslashes(n) + s;
    var m := LeadingBackslashes(all);
    assert n == |all| || all[n] == s[0];
    assert forall i :: 0 <= i < m ==> all[i] == Backslashes(m)[i];
    assert forall i :: 0 <= i < n ==> all[i] == Backslashes(n)[i];
  }

  lemma {:induction false} ArgumentAfter(n: nat, s: string, inQuotes: bool)
    requires s == "" || s[0] != '\\'
    ensures Argument(Backslashes(n) + s, inQuotes) == AfterBackslashes(n, s, inQuotes)
  {
    hide AfterBackslashes, Backslashes;
    CountBackslashes(n, s);
    assert (Backslashes(n) + s)[n..] == s;
  }

  lemma {:induction false} EndOfArgument(rest: string)
    requires Ends(rest)
    ensures Argument(rest, false) == ("", rest)
  {
    ArgumentAfter(0, rest, false);
    assert Backslashes(0) + rest == rest;
  }

  /** The parser undoes what the printer wrote between quotes: at the closing quote, */
  lemma {:induction false} CloseIsRead(pending: nat, rest: string)
    requires Ends(rest)
    ensures Argument(Backslashes(2 * pending) + "\"" + rest, true) == (Backslashes(pending), rest)
  {
    hide Argument, Backslashes;
    var s := "\"" + rest;
    assert Backslashes(2 * pending) + "\"" + rest == Backslashes(2 * pending) + s;
    ArgumentAfter(2 * pending, s, true);
    assert s[1..] == rest;
    EndOfArgument(rest);
    assert Backslashes(pending) + "" == Backslashes(pending);
  }

  /** at a quote of the value, */
  lemma {:induction false} QuoteIsRead(pending: nat, more: string)
    ensures Argument(Backslashes(2 * pending + 1) + "\"" + more, true) ==
            Prepend(Backslashes(pending) + "\"", Argument(more, true))
  {
    hide Argument, Backslashes;
    var s := "\"" + more;
    assert Backslashes(2 * pending + 1) + "\"" + more == Backslashes(2 * pending + 1) + s;
    ArgumentAfter(2 * pending + 1, s, true);
    assert s[1..] == more;
  }

  /** and at any other character. */
  lemma {:induction false} CharacterIsRead(pending: nat, c: char, more: string, inQuotes: bool)
    requires c != '"' && c != '\\' && (inQuotes || !Blank(c))
    ensures Argument(Backslashes(pending) + [c] + more, inQuotes) ==
            Prepend(Backslashes(pending) + [c], Argument(more, inQuotes))
  {
    hide Argument, Backslashes;
    var s := [c] + more;
    assert Backslashes(pending) + [c] + more == Backslashes(pending) + s;
    ArgumentAfter(pending, s, inQuotes);
    assert s[1..] == more;
  }

  lemma {:induction false} PrintedIsRead(c: char, pending: nat, more: string)
    requires c != '\\'
    ensures Argument(Printed(c, pending).0 + more, true) == Prepend(Backslashes(pending) + [c], Argument(more, true))
  {
    hide Argument, Backslashes;
    if c == '"' {
      QuoteIsRead(pending, more);
      assert Printed(c, pending).0 + more == Backslashes(2 * pending + 1) + "\"" + more;
      assert Backslashes(pending) + [c] == Backslashes(pending) + "\"";
    } else {
      CharacterIsRead(pending, c, more, true);
    }
  }

  lemma {:induction false} BodyIsRead(value: string, pending: nat, rest: string)
    requires Ends(rest)
    ensures Argument(QuotedBody(value, pending) + rest, true) == (Backslashes(pending) + value, rest)
    decreases |value|
  {
    hide Argument, Backslashes, QuotedBody, Printed;
    if value == "" {
      EmptyBody(pending);
      CloseIsRead(pending, rest);
      assert Backslashes(pending) + value == Backslashes(pending);
    } else {
      var c, tail := value[0], value[1..];
      BodyStep(value, pending);
      if c == '\\' {
        BodyIsRead(tail, pending + 1, rest);
        assert Backslashes(pending + 1) + tail == Backslashes(pending) + value by {
          BackslashAhead(pending, tail);
          assert value == "\\" + tail;
        }
      } else {
        var body := QuotedBody(tail, 0);
        BodyIsRead(tail, 0, rest);
        assert Backslashes(0) + tail == tail;
        PrintedIsRead(c, pending, body + rest);
        assert Printed(c, pending).0 + body + rest == Printed(c, pending).0 + (body + rest);
        assert Backslashes(pending) + [c] + tail == Backslashes(pending) + value;
      }
    }
  }

  lemma {:induction false} BodyStep(value: string, pending: nat)
    requires value != ""
    ensures var c, tail := value[0], value[1..];
            QuotedBody(value, pending) ==
            if c == '\\' then QuotedBody(tail, pending + 1) else Printed(c, pending).0 + QuotedBody(tail, 0)
  {
    hide Backslashes;
  }

  lemma {:induction false} BackslashAhead(pending: nat, tail: string)
    ensures Backslashes(pending + 1) + tail == Backslashes(pending) + ("\\" + tail)
  {
  }

  /** A value without blanks and quotes is read as itself. */
  lemma {:induction false} PlainIsRead(value: string, rest: string)
    requires Ends(rest) && forall c <- value :: !Blank(c) && c != '"'
    ensures Argument(value + rest, false) == (value, rest)
    decreases |value|
  {
    hide Argument, AfterBackslashes, Backslashes, LeadingBackslashes;
    var n := LeadingBackslashes(value);
    var t := value[n..];
    assert value == Backslashes(n) + t;
    if t == "" {
      assert value == Backslashes(n);
      PlainEnd(n, rest);
    } else {
      assert t[0] in value;
      var more := t[1..] + rest;
      assert value + rest == Backslashes(n) + [t[0]] + more;
      CharacterIsRead(n, t[0], more, false);
      assert forall c <- t[1..] :: c in value;
      PlainIsRead(t[1..], rest);
      assert value == Backslashes(n) + [t[0]] + t[1..];
    }
  }

  lemma {:induction false} PlainEnd(n: nat, rest: string)
    requires Ends(rest)
    ensures Argument(Backslashes(n) + rest, false) == (Backslashes(n), rest)
  {
    hide Argument, Backslashes;
    ArgumentAfter(n, rest, false);
  }

  lemma {:induction false} ArgumentIsRead(value: string, rest: string)
    requires Ends(rest)
    ensures Argument(Quoted(value) + rest, false) == (value, rest)
  {
    hide Argument, AfterBackslashes, QuotedBody;
    if NeedsQuotes(value) {
      var s := QuotedBody(value, 0) + rest;
      var all := "\"" + s;
      assert Quoted(value) + rest == all;
      OpeningQuote(s);
      BodyIsRead(value, 0, rest);
      assert Backslashes(0) + value == value;
      assert "" + value == value;
    } else {
      PlainIsRead(value, rest);
    }
  }

  lemma {:induction false} OpeningQuote(s: string)
    ensures Argument("\"" + s, false) == Prepend("", Argument(s, true))
  {
    hide Argument;
    var all := "\"" + s;
    ArgumentAfter(0, all, false);
    assert Backslashes(0) + all == all;
    assert all[1..] == s;
    assert Backslashes(0) == "";
  }

  lemma {:induction false} SplitFirst(t: string)
    requires t != "" && !Blank(t[0])
    ensures SplitArguments(t) == [Argument(t, false).0] + SplitArguments(Argument(t, false).1)
    ensures SplitArguments(" " + t) == SplitArguments(t)
  {
    hide Argument;
    assert (" " + t)[1..] == t;
    assert SkipBlanks(" " + t) == SkipBlanks(t) == t;
  }

  lemma {:induction false} TailIsRead(args: seq<string>)
    ensures Ends(Tail(args)) && SplitArguments(Tail(args)) == args
    ensures args != [] ==> SplitArguments(Tail(args)[1..]) == args
    decreases |args|
  {
    hide Argument, SplitArguments;
    if args == [] {
      NothingToSplit();
    } else {
      TailIsRead(args[1..]);
      var rest := Tail(args[1..]);
      var t := Quoted(args[0]) + rest;
      assert Tail(args) == " " + t && Tail(args)[1..] == t;
      QuotedStartsPlain(args[0]);
      SplitFirst(t);
      ArgumentIsRead(args[0], rest);
      assert [args[0]] + args[1..] == args;
    }
  }

  lemma {:induction false} NothingToSplit()
    ensures SplitArguments("") == []
  {
    assert SkipBlanks("") == "";
  }

  lemma {:induction false} QuotedStartsPlain(value: string)
    ensures Quoted(value) != "" && !Blank(Quoted(value)[0])
  {
    if !NeedsQuotes(value) {
      assert value[0] in value;
    }
  }

  // ---------------------------------------------------------------- the program name

  function TrailingBackslashes(s: string): (n: nat)
    ensures n <= |s|
  {
    if s == "" || s[|s| - 1] != '\\' then 0 else 1 + TrailingBackslashes(s[..|s| - 1])
  }

  lemma {:induction false} TrailingOfConcat(a: string, b: string)
    requires b != ""
    ensures TrailingBackslashes(a + b) ==
            if TrailingBackslashes(b) == |b| then |b| + TrailingBackslashes(a) else TrailingBackslashes(b)
    decreases |b|
  {
    assert (a + b)[..|a + b| - 1] == a + b[..|b| - 1];
    if |b| > 1 {
      if b[|b| - 1] == '\\' {
        TrailingOfConcat(a, b[..|b| - 1]);
      }
    } else {
      assert a + b[..0] == a;
    }
  }

  lemma {:induction false} TrailingOfBackslashes(n: nat)
    ensures TrailingBackslashes(Backslashes(n)) == n
  {
    if n > 0 {
      TrailingOfBackslashes(n - 1);
      assert Backslashes(n)[..n - 1] == Backslashes(n - 1);
    }
  }

  /** Without quotes in it, a value is printed as it is, with its trailing backslashes doubled. */
  lemma {:induction false} BodyWithoutQuotes(value: string, pending: nat)
    requires '"' !in value
    ensures QuotedBody(value, pending) ==
            Backslashes(pending) + value + Backslashes(TrailingBackslashes(Backslashes(pending) + value)) + "\""
    decreases |value|
  {
    hide TrailingBackslashes, Backslashes;
    var all := Backslashes(pending) + value;
    if value == "" {
      assert all == Backslashes(pending);
      TrailingOfBackslashes(pending);
      SplitBackslashes(pending, pending);
      assert value[|value|..] == "";
    } else if value[0] == '\\' {
      BodyWithoutQuotes(value[1..], pending + 1);
      SplitBackslashes(pending, 1);
      assert Backslashes(1) == [value[0]] by {
        assert Backslashes(1)[0] in Backslashes(1);
      }
      assert Backslashes(pending + 1) + value[1..] == all;
    } else {
      var front := Backslashes(pending) + [value[0]];
      var rest := value[1..];
      var tail := Backslashes(TrailingBackslashes(rest)) + "\"";
      assert QuotedBody(rest, 0) == rest + tail by {
        BodyWithoutQuotes(rest, 0);
        assert Backslashes(0) + rest == rest;
        assert rest + Backslashes(TrailingBackslashes(rest)) + "\"" == rest + tail;
      }
      assert value[0] in value;
      assert all == front + rest;
      TrailingAfter(front, rest);
      assert QuotedBody(value, pending) == front + (rest + tail);
      assert front + (rest + tail) == all + Backslashes(TrailingBackslashes(all)) + "\"";
    }
  }

  lemma {:induction false} TrailingAfter(front: string, rest: string)
    requires front != "" && front[|front| - 1] != '\\'
    ensures TrailingBackslashes(front + rest) == TrailingBackslashes(rest)
  {
    if rest == "" {
      assert front + rest == front;
    } else {
      TrailingOfConcat(front, rest);
    }
  }

  lemma {:induction false} NameInQuotes(s: string, rest: string)
    requires '"' !in s && Ends(rest)
    ensures ProgramName(s + "\"" + rest, true) == (s, if rest == "" then "" else rest[1..])
    decreases |s|
  {
    var all := s + "\"" + rest;
    if s == "" {
      assert all[1..] == rest;
    } else {
      assert all[0] == s[0] && s[0] in s;
      assert all[1..] == s[1..] + "\"" + rest;
      NameInQuotes(s[1..], rest);
      assert [s[0]] + s[1..] == s;
    }
  }

  lemma {:induction false} PlainName(s: string, rest: string)
    requires Ends(rest) && forall c <- s :: !Blank(c) && c != '"'
    ensures ProgramName(s + rest, false) == (s, if rest == "" then "" else rest[1..])
    decreases |s|
  {
    if s == "" {
      assert s + rest == rest;
    } else {
      assert (s + rest)[0] == s[0] && s[0] in s;
      assert (s + rest)[1..] == s[1..] + rest;
      assert forall c <- s[1..] :: c in s;
      PlainName(s[1..], rest);
      assert [s[0]] + s[1..] == s;
    }
  }

  /** The program name that a path without quotes is read as: itself, with its trailing backslashes
      doubled if it had to be quoted. */
  lemma {:induction false} NameIsRead(game: string, rest: string)
    requires '"' !in game && Ends(rest)
    ensures ProgramName(Quoted(game) + rest, false) ==
            ((if NeedsQuotes(game) then game + Backslashes(TrailingBackslashes(game)) else game),
             if rest == "" then "" else rest[1..])
  {
    if NeedsQuotes(game) {
      BodyWithoutQuotes(game, 0);
      assert Backslashes(0) + game == game;
      var name := game + Backslashes(TrailingBackslashes(game));
      NameInQuotes(name, rest);
      assert (Quoted(game) + rest)[1..] == name + "\"" + rest;
    } else {
      PlainName(game, rest);
    }
  }

  lemma {:induction false} NameHasNoQuotes(s: string, inQuotes: bool)
    ensures '"' !in ProgramName(s, inQuotes).0
    decreases |s|
  {
    if s != "" {
      NameHasNoQuotes(s[1..], if s[0] == '"' then !inQuotes else inQuotes);
    }
  }

  // ---------------------------------------------------------------- NULs

  predicate NulFree(s: string) {
    '\0' !in s
  }

  lemma {:induction false} UntilNulOfNulFree(s: string)
    requires NulFree(s)
    ensures UntilNul(s) == s
    decreases |s|
  {
    if s != "" {
      assert s[0] in s;
      UntilNulOfNulFree(s[1..]);
    }
  }

  lemma {:induction false} UntilNulIsNulFree(s: string)
    ensures NulFree(UntilNul(s))
    decreases |s|
  {
    if s != "" && s[0] != '\0' {
      UntilNulIsNulFree(s[1..]);
    }
  }

  lemma {:induction false} BodyIsNulFree(value: string, pending: nat)
    requires NulFree(value)
    ensures NulFree(QuotedBody(value, pending))
    decreases |value|
  {
    if value != "" {
      assert value[0] in value;
      BodyIsNulFree(value[1..], if value[0] == '\\' then pending + 1 else 0);
    }
  }

  lemma {:induction false} TailIsNulFree(args: seq<string>)
    requires forall a <- args :: NulFree(a)
    ensures NulFree(Tail(args))
    decreases |args|
  {
    if args != [] {
      BodyIsNulFree(args[0], 0);
      TailIsNulFree(args[1..]);
    }
  }

  lemma {:induction false} NameIsNulFree(s: string, inQuotes: bool)
    requires NulFree(s)
    ensures NulFree(ProgramName(s, inQuotes).0) && NulFree(ProgramName(s, inQuotes).1)
    decreases |s|
  {
    if s != "" {
      NameIsNulFree(s[1..], if s[0] == '"' then !inQuotes else inQuotes);
    }
  }

  lemma {:induction false} ArgumentIsNulFree(s: string, inQuotes: bool)
    requires NulFree(s)
    ensures NulFree(Argument(s, inQuotes).0) && NulFree(Argument(s, inQuotes).1)
    decreases |s|
  {
    var n := LeadingBackslashes(s);
    var t := s[n..];
    if t != "" && t[0] == '"' {
      if n % 2 == 1 {
        ArgumentIsNulFree(t[1..], inQuotes);
      } else if inQuotes && |t| > 1 && t[1] == '"' {
        ArgumentIsNulFree(t[2..], inQuotes);
      } else {
        ArgumentIsNulFree(t[1..], !inQuotes);
      }
    } else if !(t == "" || (!inQuotes && Blank(t[0]))) {
      assert t[0] in s;
      ArgumentIsNulFree(t[1..], inQuotes);
    }
  }

  lemma {:induction false} ArgumentsAreNulFree(s: string)
    requires NulFree(s)
    ensures forall a <- SplitArguments(s) :: NulFree(a)
    decreases |s|
  {
    SkipKeepsNulFree(s);
    var t := SkipBlanks(s);
    if t != "" {
      ArgumentIsNulFree(t, false);
      ArgumentsAreNulFree(Argument(t, false).1);
    }
  }

  lemma {:induction false} SkipKeepsNulFree(s: string)
    requires NulFree(s)
    ensures NulFree(SkipBlanks(s))
    decreases |s|
  {
    if s != "" && Blank(s[0]) {
      SkipKeepsNulFree(s[1..]);
    }
  }

  // ---------------------------------------------------------------- the round trip

  /** A path the printer can carry: no quotes, and no trailing backslash where quotes are needed. */
  predicate CarriablePath(game: string) {
    '"' !in game && (NeedsQuotes(game) ==> game == "" || game[|game| - 1] != '\\')
  }

  /** The started program sees exactly the given path and arguments if and only if none of them
      contains a NUL and the path has no quote and, if it is empty or contains a blank, does not end
      in a backslash. The arguments themselves are unrestricted. */
  lemma {:induction false} CommandLineRoundTrip(game: string, args: seq<string>)
    ensures SplitCommandLine(WindowsCommandLine(game, args)) == [game] + args <==>
            CarriablePath(game) && NulFree(game) && forall a <- args :: NulFree(a)
  {
    hide WindowsCommandLine, SplitCommandLine, CarriablePath, NulFree;
    var line := WindowsCommandLine(game, args);
    if !(NulFree(game) && forall a <- args :: NulFree(a)) {
      SplitIsNulFree(line);
      var wanted := [game] + args;
      if !NulFree(game) {
        assert wanted[0] !in SplitCommandLine(line);
      } else {
        var a :| a in args && !NulFree(a);
        assert a in wanted && a !in SplitCommandLine(line);
      }
    } else {
      LineIsNulFree(game, args);
      LineIsSplit(game, args);
      NameSurvives(game, Tail(args));
    }
  }

  lemma {:induction false} LineIsSplit(game: string, args: seq<string>)
    requires UntilNul(WindowsCommandLine(game, args)) == WindowsCommandLine(game, args)
    ensures Ends(Tail(args))
    ensures var name := ProgramName(Quoted(game) + Tail(args), false).0;
            SplitCommandLine(WindowsCommandLine(game, args)) == [game] + args <==> name == game
  {
    hide ProgramName, Quoted, Argument, SplitArguments, UntilNul;
    var (name, rest) := ProgramName(Quoted(game) + Tail(args), false);
    var split := SplitCommandLine(WindowsCommandLine(game, args));
    assert split == [name] + SplitArguments(rest);
    TailIsRead(args);
    if name != game {
      assert split[0] == name && ([game] + args)[0] == game;
    } else {
      assert '"' !in game by {
        NameHasNoQuotes(Quoted(game) + Tail(args), false);
      }
      NameIsRead(game, Tail(args));
      NothingToSplit();
    }
  }

  /** The path alone survives exactly when it is carriable. */
  lemma {:induction false} NameSurvives(game: string, rest: string)
    requires Ends(rest)
    ensures ProgramName(Quoted(game) + rest, false).0 == game <==> CarriablePath(game)
  {
    hide ProgramName, Quoted;
    if '"' in game {
      NameHasNoQuotes(Quoted(game) + rest, false);
    } else {
      NameIsRead(game, rest);
      if TrailingBackslashes(game) == 0 {
        assert game + Backslashes(0) == game;
      }
    }
  }

  lemma {:induction false} SplitIsNulFree(line: string)
    ensures forall a <- SplitCommandLine(line) :: NulFree(a)
  {
    UntilNulIsNulFree(line);
    NameIsNulFree(UntilNul(line), false);
    ArgumentsAreNulFree(ProgramName(UntilNul(line), false).1);
  }

  lemma {:induction false} LineIsNulFree(game: string, args: seq<string>)
    requires NulFree(game) && forall a <- args :: NulFree(a)
    ensures UntilNul(WindowsCommandLine(game, args)) == WindowsCommandLine(game, args)
  {
    BodyIsNulFree(game, 0);
    TailIsNulFree(args);
    UntilNulOfNulFree(WindowsCommandLine(game, args));
  }

  /** Only an argument that is empty or contains a space, a tab or a quote is quoted; any other is printed
      as it is. */
  lemma {:induction false} WhatIsQuoted(value: string)
    ensures value != "" && ' ' !in value && '\t' !in value && '"' !in value ==> Quoted(value) == value
    ensures value == "" || ' ' in value || '\t' in value || '"' in value ==>
              |Quoted(value)| >= 2 && Quoted(value)[0] == '"' && Quoted(value)[|Quoted(value)| - 1] == '"'
  {
    BodyEndsInQuote(value, 0);
    hide QuotedBody;
  }

  lemma {:induction false} BodyEndsInQuote(value: string, pending: nat)
    ensures QuotedBody(value, pending) != "" && QuotedBody(value, pending)[|QuotedBody(value, pending)| - 1] == '"'
    decreases |value|
  {
    if value != "" {
      BodyEndsInQuote(value[1..], 0);
      BodyEndsInQuote(value[1..], pending + 1);
    }
  }
}
