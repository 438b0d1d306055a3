/** The environment of the game on Windows: which entries of the launcher's own environment reach it,
    the two pipe handles that are always set, and the block of UTF-16 code units that carries them.
    A `char` is a Unicode scalar value, and comparing strings by code point is comparing their UTF-8
    octets. The uppercase mapping of the Unicode character database is a parameter, `upper`. */
module Environment {
  import opened Bytes

  datatype Entry = Entry(key: string, value: string)

  datatype EnvironmentError = InvalidEntry

  const READ_HANDLE := "CERTAEL_AGENT_READ_HANDLE"

  const WRITE_HANDLE := "CERTAEL_AGENT_WRITE_HANDLE"

  // ---------------------------------------------------------------- lists

  function Filter<T>(s: seq<T>, p: T -> bool): (r: seq<T>)
    ensures forall e <- r :: e in s && p(e)
    ensures forall e <- s :: p(e) ==> e in r
  {
    if s == [] then [] else (if p(s[0]) then [s[0]] else []) + Filter(s[1..], p)
  }

  lemma {:induction false} FilterConcat<T>(a: seq<T>, b: seq<T>, p: T -> bool)
    ensures Filter(a + b, p) == Filter(a, p) + Filter(b, p)
    decreases |a|
  {
    if a == [] {
      assert a + b == b;
    } else {
      assert (a + b)[1..] == a[1..] + b;
      FilterConcat(a[1..], b, p);
    }
  }

  lemma {:induction false} FiltersCommute<T>(s: seq<T>, p: T -> bool, q: T -> bool)
    ensures Filter(Filter(s, p), q) == Filter(Filter(s, q), p)
    decreases |s|
  {
    if s != [] {
      FiltersCommute(s[1..], p, q);
      FilterConcat(if p(s[0]) then [s[0]] else [], Filter(s[1..], p), q);
      FilterConcat(if q(s[0]) then [s[0]] else [], Filter(s[1..], q), p);
    }
  }

  lemma {:induction false} FilterAll<T>(s: seq<T>, p: T -> bool)
    requires forall e <- s :: p(e)
    ensures Filter(s, p) == s
    decreases |s|
  {
    if s != [] {
      FilterAll(s[1..], p);
      assert [s[0]] + s[1..] == s;
    }
  }

  lemma {:induction false} FilterNone<T>(s: seq<T>, p: T -> bool)
    requires forall e <- s :: !p(e)
    ensures Filter(s, p) == []
  {
    if Filter(s, p) != [] {
      assert Filter(s, p)[0] in Filter(s, p);
    }
  }

  // ---------------------------------------------------------------- the order of keys

  predicate LexLeq(a: string, b: string) {
    a == "" || (b != "" && (a[0] < b[0] || (a[0] == b[0] && LexLeq(a[1..], b[1..]))))
  }

  lemma {:induction false} LexTotal(a: string, b: string)
    ensures LexLeq(a, b) || LexLeq(b, a)
    ensures LexLeq(a, b) && LexLeq(b, a) ==> a == b
    decreases |a|
  {
    if a != "" && b != "" {
      LexTotal(a[1..], b[1..]);
      assert a == [a[0]] + a[1..] && b == [b[0]] + b[1..];
    }
  }

  lemma {:induction false} LexTransitive(a: string, b: string, c: string)
    requires LexLeq(a, b) && LexLeq(b, c)
    ensures LexLeq(a, c)
    decreases |a|
  {
    if a != "" && a[0] == b[0] == c[0] {
      LexTransitive(a[1..], b[1..], c[1..]);
    }
  }

  predicate Before(a: Entry, b: Entry, upper: string -> string) {
    LexLeq(upper(a.key), upper(b.key))
  }

  predicate Sorted(s: seq<Entry>, upper: string -> string) {
    forall i, j :: 0 <= i < j < |s| ==> Before(s[i], s[j], upper)
  }

  function Insert(e: Entry, s: seq<Entry>, upper: string -> string): seq<Entry> {
    if s == [] || Before(e, s[0], upper) then [e] + s else [s[0]] + Insert(e, s[1..], upper)
  }

  /** The stable sort by uppercased key. */
  function StableSort(s: seq<Entry>, upper: string -> string): seq<Entry> {
    if s == [] then [] else Insert(s[0], StableSort(s[1..], upper), upper)
  }

  function WithKey(upper: string -> string, u: string): Entry -> bool {
    (e: Entry) => upper(e.key) == u
  }

  /** The entries whose uppercased key is `u`, in order. */
  function Class(s: seq<Entry>, upper: string -> string, u: string): seq<Entry> {
    Filter(s, WithKey(upper, u))
  }

  lemma {:induction false} InsertKeeps(e: Entry, s: seq<Entry>, upper: string -> string, u: string)
    requires Sorted(s, upper)
    ensures Sorted(Insert(e, s, upper), upper)
    ensures forall x :: x in Insert(e, s, upper) <==> x == e || x in s
    ensures Class(Insert(e, s, upper), upper, u) == Class([e], upper, u) + Class(s, upper, u)
    decreases |s|
  {
    hide LexLeq;
    var r := Insert(e, s, upper);
    if s == [] || Before(e, s[0], upper) {
      FilterConcat([e], s, WithKey(upper, u));
      forall j | 1 <= j < |r| ensures Before(e, r[j], upper) {
        if j > 1 {
          LexTransitive(upper(e.key), upper(s[0].key), upper(s[j - 1].key));
        }
      }
    } else {
      var rest := Insert(e, s[1..], upper);
      InsertKeeps(e, s[1..], upper, u);
      InsertSplits(e, s, upper, u);
      LexTotal(upper(e.key), upper(s[0].key));
      forall x <- rest ensures Before(s[0], x, upper) {
        assert x == e || x in s[1..];
      }
      forall i, j | 0 <= i < j < |r| ensures Before(r[i], r[j], upper) {
        assert r[j] == rest[j - 1];
        if i > 0 {
          assert r[i] == rest[i - 1];
        }
      }
    }
  }

  lemma {:induction false} InsertSplits(e: Entry, s: seq<Entry>, upper: string -> string, u: string)
    requires s != [] && !Before(e, s[0], upper)
    requires Class(Insert(e, s[1..], upper), upper, u) == Class([e], upper, u) + Class(s[1..], upper, u)
    ensures Class(Insert(e, s, upper), upper, u) == Class([e], upper, u) + Class(s, upper, u)
  {
    hide LexLeq, Filter;
    var p := WithKey(upper, u);
    var others, rest := Filter(s[1..], p), Insert(e, s[1..], upper);
    FilterConcat([s[0]], rest, p);
    FilterConcat([s[0]], s[1..], p);
    assert [s[0]] + s[1..] == s;
    LexTotal(upper(e.key), upper(s[0].key));
    if upper(e.key) != u {
      FilterNone([e], p);
      assert [] + others == others && [] + Filter(s, p) == Filter(s, p);
    } else {
      FilterNone([s[0]], p);
      assert Filter(s, p) == others;
    }
    assert Insert(e, s, upper) == [s[0]] + rest;
  }

  /** The stable sort is sorted and leaves the entries of each key in their order. */
  lemma {:induction false} SortKeeps(s: seq<Entry>, upper: string -> string, u: string)
    ensures Sorted(StableSort(s, upper), upper)
    ensures forall x :: x in StableSort(s, upper) <==> x in s
    ensures Class(StableSort(s, upper), upper, u) == Class(s, upper, u)
    decreases |s|
  {
    if s != [] {
      SortKeeps(s[1..], upper, u);
      InsertKeeps(s[0], StableSort(s[1..], upper), upper, u);
      FilterConcat([s[0]], s[1..], WithKey(upper, u));
      assert [s[0]] + s[1..] == s;
    }
  }

  lemma {:induction false} HeadOfClass(a: seq<Entry>, upper: string -> string)
    requires a != []
    ensures var u := upper(a[0].key); Class(a, upper, u) == [a[0]] + Class(a[1..], upper, u)
    ensures forall w :: w != upper(a[0].key) ==> Class(a, upper, w) == Class(a[1..], upper, w)
  {
  }

  lemma {:induction false} HeadIsLeast(a: seq<Entry>, b: seq<Entry>, upper: string -> string)
    requires a != [] && b != [] && Sorted(b, upper)
    requires forall u :: Class(a, upper, u) == Class(b, upper, u)
    ensures Before(b[0], a[0], upper)
  {
    hide LexLeq;
    var u := upper(a[0].key);
    HeadOfClass(a, upper);
    assert a[0] in Class(b, upper, u);
    var j :| 0 <= j < |b| && b[j] == a[0];
    LexTotal(u, u);
  }

  lemma {:induction false} EmptyClasses(a: seq<Entry>, b: seq<Entry>, upper: string -> string)
    requires forall u :: Class(a, upper, u) == Class(b, upper, u)
    ensures b == [] ==> a == []
  {
    if a != [] {
      HeadOfClass(a, upper);
      assert a[0] in Class(b, upper, upper(a[0].key));
    }
  }

  /** Sorted lists with the same entries in each class are the same list: sortedness and stability
      determine the result of the sort. */
  lemma {:induction false} StableSortIsUnique(a: seq<Entry>, b: seq<Entry>, upper: string -> string)
    requires Sorted(a, upper) && Sorted(b, upper)
    requires forall u :: Class(a, upper, u) == Class(b, upper, u)
    ensures a == b
    decreases |a|
  {
    hide LexLeq;
    if a == [] || b == [] {
      EmptyClasses(a, b, upper);
      EmptyClasses(b, a, upper);
    } else {
      HeadIsLeast(a, b, upper);
      HeadIsLeast(b, a, upper);
      LexTotal(upper(a[0].key), upper(b[0].key));
      HeadOfClass(a, upper);
      HeadOfClass(b, upper);
      var u := upper(a[0].key);
      assert Class(a, upper, u)[0] == a[0] && Class(b, upper, u)[0] == b[0];
      forall w ensures Class(a[1..], upper, w) == Class(b[1..], upper, w) {
        if w == u {
          assert Class(a[1..], upper, u) == Class(a, upper, u)[1..];
          assert Class(b[1..], upper, u) == Class(b, upper, u)[1..];
        }
      }
      StableSortIsUnique(a[1..], b[1..], upper);
      assert a == [a[0]] + a[1..] && b == [b[0]] + b[1..];
    }
  }

  lemma {:induction false} FilterKeepsSorted(s: seq<Entry>, p: Entry -> bool, upper: string -> string)
    requires Sorted(s, upper)
    ensures Sorted(Filter(s, p), upper)
    decreases |s|
  {
    hide LexLeq;
    if s != [] {
      FilterKeepsSorted(s[1..], p, upper);
      var rest := Filter(s[1..], p);
      forall x <- rest ensures Before(s[0], x, upper) {
        assert x in s[1..];
      }
    }
  }

  /** Dropping entries and sorting can be done in either order. */
  lemma {:induction false} FilterOfSorted(s: seq<Entry>, p: Entry -> bool, upper: string -> string)
    ensures Filter(StableSort(s, upper), p) == StableSort(Filter(s, p), upper)
  {
    hide StableSort, Sorted, Filter;
    var a, b := Filter(StableSort(s, upper), p), StableSort(Filter(s, p), upper);
    forall u ensures Class(a, upper, u) == Class(b, upper, u) {
      SortKeeps(s, upper, u);
      SortKeeps(Filter(s, p), upper, u);
      FiltersCommute(StableSort(s, upper), p, WithKey(upper, u));
      FiltersCommute(s, p, WithKey(upper, u));
    }
    SortKeeps(s, upper, "");
    SortKeeps(Filter(s, p), upper, "");
    FilterKeepsSorted(StableSort(s, upper), p, upper);
    StableSortIsUnique(a, b, upper);
  }

  // ---------------------------------------------------------------- sanitizing

  function AsciiLower(c: char): char {
    if 'A' <= c <= 'Z' then (c as int + 32) as char else c
  }

  predicate EqIgnoreAsciiCase(a: string, b: string) {
    |a| == |b| && forall i :: 0 <= i < |a| ==> AsciiLower(a[i]) == AsciiLower(b[i])
  }

  function Named(name: string): Entry -> bool {
    (e: Entry) => EqIgnoreAsciiCase(e.key, name)
  }

  predicate IsHandle(e: Entry) {
    EqIgnoreAsciiCase(e.key, READ_HANDLE) || EqIgnoreAsciiCase(e.key, WRITE_HANDLE)
  }

  predicate IsDriveCurrentDirectoryKey(key: string) {
    |key| == 3 && key[0] == '=' && ('a' <= key[1] <= 'z' || 'A' <= key[1] <= 'Z') && key[2] == ':'
  }

  /** An entry that must not reach a process: no name, a NUL, or an ordinary name with '='. */
  predicate Offending(e: Entry) {
    e.key == "" || '\0' in e.key || '\0' in e.value || (e.key[0] != '=' && '=' in e.key)
  }

  /** A bookkeeping entry other than a drive's current directory. */
  predicate Pseudo(e: Entry) {
    e.key != "" && e.key[0] == '=' && !IsDriveCurrentDirectoryKey(e.key)
  }

  function NotHandle(): Entry -> bool {
    (e: Entry) => !IsHandle(e)
  }

  function NotPseudo(): Entry -> bool {
    (e: Entry) => !Pseudo(e)
  }

  function DecimalString(n: nat): (s: string)
    ensures s != "" && forall c <- s :: '0' <= c <= '9'
  {
    var digit := ('0' as int + n % 10) as char;
    if n < 10 then [digit] else DecimalString(n / 10) + [digit]
  }

  function Handles(read: nat, write: nat): seq<Entry> {
    [Entry(READ_HANDLE, DecimalString(read)), Entry(WRITE_HANDLE, DecimalString(write))]
  }

  /** The inherited entries that survive. */
  function Surviving(values: seq<Entry>): seq<Entry> {
    Filter(Filter(values, NotHandle()), NotPseudo())
  }

  function Sanitized(values: seq<Entry>, read: nat, write: nat, upper: string -> string):
    Result<seq<Entry>, EnvironmentError>
  {
    if exists e <- values :: !IsHandle(e) && Offending(e) then Err(InvalidEntry)
    else Ok(StableSort(Surviving(values) + Handles(read, write), upper))
  }

  lemma {:induction false} HandlesPass(read: nat, write: nat)
    ensures forall e <- Handles(read, write) :: IsHandle(e) && !Offending(e) && !Pseudo(e)
    ensures Filter(Handles(read, write), NotPseudo()) == Handles(read, write)
    ensures Filter(Handles(read, write), NotHandle()) == []
  {
    hide DecimalString;
    assert '\0' !in READ_HANDLE && '=' !in READ_HANDLE && READ_HANDLE[0] == 'C';
    assert '\0' !in WRITE_HANDLE && '=' !in WRITE_HANDLE && WRITE_HANDLE[0] == 'C';
    FilterAll(Handles(read, write), NotPseudo());
    FilterNone(Handles(read, write), NotHandle());
  }

  lemma {:induction false} FilterOne(e: Entry)
    ensures Filter([e], NotPseudo()) == if Pseudo(e) then [] else [e]
  {
    if Pseudo(e) {
      FilterNone([e], NotPseudo());
    } else {
      FilterAll([e], NotPseudo());
    }
  }

  /** Copies entry by entry, giving up at the first offending one. */
  method CopyEntries(sorted: seq<Entry>) returns (result: Result<seq<Entry>, EnvironmentError>)
    ensures result == if exists e <- sorted :: Offending(e) then Err(InvalidEntry) else Ok(Filter(sorted, NotPseudo()))
  {
    hide Filter;
    var sanitized: seq<Entry> := [];
    FilterNone(sorted[..0], NotPseudo());
    for i := 0 to |sorted|
      invariant forall e <- sorted[..i] :: !Offending(e)
      invariant sanitized == Filter(sorted[..i], NotPseudo())
    {
      var e := sorted[i];
      assert e in sorted && sanitized + [] == sanitized;
      if e.key == "" || '\0' in e.key || '\0' in e.value {
        return Err(InvalidEntry);
      }
      assert sorted[..i + 1] == sorted[..i] + [e];
      FilterConcat(sorted[..i], [e], NotPseudo());
      FilterOne(e);
      var driveCurrentDirectory := IsDriveCurrentDirectoryKey(e.key);
      if e.key[0] == '=' && !driveCurrentDirectory {
        continue;
      }
      if !driveCurrentDirectory && '=' in e.key {
        return Err(InvalidEntry);
      }
      sanitized := sanitized + [e];
    }
    assert sorted[..|sorted|] == sorted;
    return Ok(sanitized);
  }

  /** Retains, pushes, sorts and then copies what may reach the game. */
  method SanitizeEnvironmentEntries(values: seq<Entry>, read: nat, write: nat, upper: string -> string)
    returns (result: Result<seq<Entry>, EnvironmentError>)
    ensures result == Sanitized(values, read, write, upper)
  {
    hide DecimalString, Handles, IsHandle, StableSort, Sorted, LexLeq, Offending, Pseudo, Filter;
    var kept := Filter(values, NotHandle());
    kept := kept + Handles(read, write);
    var sorted := StableSort(kept, upper);
    HandlesPass(read, write);
    SortKeeps(kept, upper, "");
    FilterOfSorted(kept, NotPseudo(), upper);
    FilterConcat(Filter(values, NotHandle()), Handles(read, write), NotPseudo());
    assert forall e <- values :: !IsHandle(e) ==> e in sorted;
    result := CopyEntries(sorted);
  }

  /** The result is sorted by uppercased key, and the entries of each key are the surviving inherited
      ones in their order, followed by the handles. */
  lemma {:induction false} SanitizedIsStablySorted(
    values: seq<Entry>, read: nat, write: nat, upper: string -> string, u: string)
    requires Sanitized(values, read, write, upper).Ok?
    ensures var r := Sanitized(values, read, write, upper).value;
            Sorted(r, upper) && Class(r, upper, u) ==
            Class(Surviving(values), upper, u) + Class(Handles(read, write), upper, u)
  {
    hide DecimalString, Surviving, Handles;
    SortKeeps(Surviving(values) + Handles(read, write), upper, u);
    FilterConcat(Surviving(values), Handles(read, write), WithKey(upper, u));
  }

  /** Whatever the launcher inherited, each handle name, in any ASCII case, has exactly one entry and
      it is the launcher's own. */
  lemma {:induction false} OneEntryPerHandle(values: seq<Entry>, read: nat, write: nat, upper: string -> string)
    requires Sanitized(values, read, write, upper).Ok?
    ensures var r := Sanitized(values, read, write, upper).value;
            Filter(r, Named(READ_HANDLE)) == [Entry(READ_HANDLE, DecimalString(read))] &&
            Filter(r, Named(WRITE_HANDLE)) == [Entry(WRITE_HANDLE, DecimalString(write))]
  {
    hide DecimalString, Surviving, StableSort, Sanitized, LexLeq;
    NamedEntries(values, read, write, upper, READ_HANDLE, Handles(read, write)[0]);
    NamedEntries(values, read, write, upper, WRITE_HANDLE, Handles(read, write)[1]);
  }

  lemma {:induction false} NamedEntries(
    values: seq<Entry>, read: nat, write: nat, upper: string -> string, name: string, own: Entry)
    requires Sanitized(values, read, write, upper).Ok?
    requires name in [READ_HANDLE, WRITE_HANDLE] && own in Handles(read, write) && own.key == name
    ensures Filter(Sanitized(values, read, write, upper).value, Named(name)) == [own]
  {
    hide DecimalString;
    var p := Named(name);
    var inherited, handles := Surviving(values), Handles(read, write);
    FilterOfSorted(inherited + handles, p, upper);
    FilterConcat(inherited, handles, p);
    FilterNone(inherited, p);
    assert handles == [handles[0]] + [handles[1]];
    FilterConcat([handles[0]], [handles[1]], p);
    assert |READ_HANDLE| != |WRITE_HANDLE|;
    assert Filter(handles, p) == [own];
    assert [] + [own] == [own];
    assert StableSort([own], upper) == [own] by {
      assert [own][1..] == [];
      assert StableSort([own][1..], upper) == [];
    }
  }

  /** No inherited entry is altered or invented. */
  lemma {:induction false} SanitizedEntries(values: seq<Entry>, read: nat, write: nat, upper: string -> string)
    requires Sanitized(values, read, write, upper).Ok?
    ensures forall e :: e in Sanitized(values, read, write, upper).value <==>
            e in Handles(read, write) || (e in values && !IsHandle(e) && !Pseudo(e))
    ensures forall e <- Sanitized(values, read, write, upper).value :: !Offending(e) && !Pseudo(e)
  {
    hide DecimalString, Handles, IsHandle, LexLeq, Offending, Pseudo, StableSort, Filter;
    HandlesPass(read, write);
    SortKeeps(Surviving(values) + Handles(read, write), upper, "");
  }

  /** Sanitizing a sanitized environment again, with the same handles, changes nothing. */
  lemma {:induction false} SanitizingIsIdempotent(values: seq<Entry>, read: nat, write: nat, upper: string -> string)
    ensures var r := Sanitized(values, read, write, upper);
            r.Ok? ==> Sanitized(r.value, read, write, upper) == r
  {
    hide DecimalString, Handles, IsHandle, LexLeq, Offending, Pseudo, StableSort, Filter, Sorted;
    var r := Sanitized(values, read, write, upper);
    if r.Ok? {
      var a, handles, inherited := r.value, Handles(read, write), Surviving(values);
      SanitizedEntries(values, read, write, upper);
      SurvivingAgain(values, read, write, upper);
      assert Surviving(a) == StableSort(inherited, upper);
      var b := StableSort(Surviving(a) + handles, upper);
      forall u ensures Class(b, upper, u) == Class(a, upper, u) {
        SortKeeps(inherited, upper, u);
        SortKeeps(inherited + handles, upper, u);
        SortKeeps(Surviving(a) + handles, upper, u);
        FilterConcat(inherited, handles, WithKey(upper, u));
        FilterConcat(Surviving(a), handles, WithKey(upper, u));
      }
      SortKeeps(inherited + handles, upper, "");
      SortKeeps(Surviving(a) + handles, upper, "");
      StableSortIsUnique(b, a, upper);
    }
  }

  lemma {:induction false} SurvivingAgain(values: seq<Entry>, read: nat, write: nat, upper: string -> string)
    ensures Surviving(StableSort(Surviving(values) + Handles(read, write), upper)) ==
            StableSort(Surviving(values), upper)
  {
    hide DecimalString, Handles, IsHandle, LexLeq, Offending, Pseudo, StableSort, Filter, Sorted;
    var handles, inherited := Handles(read, write), Surviving(values);
    HandlesPass(read, write);
    FilterOfSorted(inherited + handles, NotHandle(), upper);
    FilterConcat(inherited, handles, NotHandle());
    FilterAll(inherited, NotHandle());
    assert inherited + [] == inherited;
    FilterOfSorted(inherited, NotPseudo(), upper);
    FilterAll(inherited, NotPseudo());
  }

  // ---------------------------------------------------------------- the block

  type unit16 = x: int | 0 <= x < 0x1_0000

  function Utf16(s: string): seq<unit16> {
    if s == "" then []
    else
      var c := s[0] as int;
      (if c < 0x1_0000 then [c] else [0xD800 + (c - 0x1_0000) / 0x400, 0xDC00 + (c - 0x1_0000) % 0x400])
      + Utf16(s[1..])
  }

  /** Reads UTF-16 (section 3.9 of the Unicode Standard); None at an unpaired surrogate. */
  function FromUtf16(u: seq<unit16>): Option<string> {
    if u == [] then Some("")
    else if u[0] < 0xD800 || 0xE000 <= u[0] then
      var rest := FromUtf16(u[1..]);
      if rest.None? then None else Some([u[0] as char] + rest.value)
    else if u[0] < 0xDC00 && |u| > 1 && 0xDC00 <= u[1] < 0xE000 then
      var rest := FromUtf16(u[2..]);
      if rest.None? then None
      else
        var high: int, low: int := u[0] - 0xD800, u[1] - 0xDC00;
        Some([(0x1_0000 + high * 0x400 + low) as char] + rest.value)
    else None
  }

  lemma {:induction false} Utf16RoundTrip(s: string)
    ensures FromUtf16(Utf16(s)) == Some(s)
    ensures 0 in Utf16(s) <==> '\0' in s
    ensures Utf16(s) == [] <==> s == ""
    decreases |s|
  {
    if s != "" {
      var c := s[0] as int;
      var rest := Utf16(s[1..]);
      Utf16RoundTrip(s[1..]);
      assert s == [s[0]] + s[1..];
      if c < 0x1_0000 {
        assert ([c] + rest)[1..] == rest;
      } else {
        var high, low := 0xD800 + (c - 0x1_0000) / 0x400, 0xDC00 + (c - 0x1_0000) % 0x400;
        assert high < 0xDC00 <= low < 0xE000;
        assert ([high, low] + rest)[2..] == rest;
      }
    }
  }

  function Line(e: Entry): string {
    e.key + "=" + e.value
  }

  function Block(entries: seq<Entry>): seq<unit16> {
    if entries == [] then [0] else Utf16(Line(entries[0])) + [0] + Block(entries[1..])
  }

  method EnvironmentBlockFrom(values: seq<Entry>, read: nat, write: nat, upper: string -> string)
    returns (result: Result<seq<unit16>, EnvironmentError>)
    ensures Sanitized(values, read, write, upper).Err? ==> result == Err(InvalidEntry)
    ensures Sanitized(values, read, write, upper).Ok? ==>
              result == Ok(Block(Sanitized(values, read, write, upper).value))
  {
    hide Sanitized, Utf16, Line;
    var entries := SanitizeEnvironmentEntries(values, read, write, upper);
    if entries.Err? {
      return Err(InvalidEntry);
    }
    var block: seq<unit16> := [];
    assert entries.value[0..] == entries.value;
    for i := 0 to |entries.value|
      invariant block + Block(entries.value[i..]) == Block(entries.value)
    {
      ghost var rest := entries.value[i..];
      assert rest[1..] == entries.value[i + 1..];
      ghost var before := block;
      block := block + Utf16(Line(entries.value[i]));
      block := block + [0];
      assert block + Block(rest[1..]) == before + (Utf16(Line(rest[0])) + [0] + Block(rest[1..]));
    }
    block := block + [0];
    return Ok(block);
  }

  function UntilZero(u: seq<unit16>): (n: nat)
    ensures n <= |u| && 0 !in u[..n] && (n < |u| ==> u[n] == 0)
  {
    if u == [] || u[0] == 0 then 0
    else
      assert u == [u[0]] + u[1..];
      1 + UntilZero(u[1..])
  }

  /** The position of the first '=' past position 0. */
  function Separator(line: string, from: nat): (n: nat)
    requires from <= |line|
    ensures from <= n <= |line|
    decreases |line| - from
  {
    if from == |line| || line[from] == '=' then from else Separator(line, from + 1)
  }

  function ParseLine(line: string): Option<Entry> {
    if line == "" then None
    else
      var n := Separator(line, 1);
      if n == |line| then None else Some(Entry(line[..n], line[n + 1..]))
  }

  /** How a Windows process finds its environment: NUL-terminated lines until an empty one, each split
      at its first '=' past position 0. The second part is what lies beyond the block. */
  function ReadBlock(block: seq<unit16>): Option<(seq<Entry>, seq<unit16>)>
    decreases |block|
  {
    var n := UntilZero(block);
    if n == |block| then None
    else if n == 0 then Some(([], block[1..]))
    else
      var line := FromUtf16(block[..n]);
      if line.None? || ParseLine(line.value).None? then None
      else
        var rest := ReadBlock(block[n + 1..]);
        if rest.None? then None
        else Some(([ParseLine(line.value).value] + rest.value.0, rest.value.1))
  }

  predicate Legible(e: Entry) {
    e.key != "" && '\0' !in e.key && '\0' !in e.value && '=' !in e.key[1..]
  }

  lemma {:induction false} SeparatorIs(line: string, from: nat, n: nat)
    requires from <= n < |line| && line[n] == '=' && forall i :: from <= i < n ==> line[i] != '='
    ensures Separator(line, from) == n
    decreases n - from
  {
    if from < n {
      SeparatorIs(line, from + 1, n);
    }
  }

  lemma {:induction false} LineIsParsed(e: Entry)
    requires Legible(e)
    ensures ParseLine(Line(e)) == Some(e) && '\0' !in Line(e) && Line(e) != ""
  {
    var line, n := Line(e), |e.key|;
    forall i | 1 <= i < n ensures line[i] != '=' {
      assert line[i] == e.key[1..][i - 1];
    }
    SeparatorIs(line, 1, n);
    assert line[..n] == e.key && line[n + 1..] == e.value;
  }

  /** A block of legible entries, whatever memory follows it, is read back as exactly those. */
  lemma {:induction false} BlockIsRead(entries: seq<Entry>, beyond: seq<unit16>)
    requires forall e <- entries :: Legible(e)
    ensures ReadBlock(Block(entries) + beyond) == Some((entries, beyond))
    decreases |entries|
  {
    hide FromUtf16, Utf16, ParseLine, Line, Legible;
    var block := Block(entries) + beyond;
    if entries == [] {
      assert block[0] == 0 && block[1..] == beyond;
    } else {
      var line := Utf16(Line(entries[0]));
      var rest := Block(entries[1..]) + beyond;
      LineIsParsed(entries[0]);
      Utf16RoundTrip(Line(entries[0]));
      assert block == line + [0] + rest;
      UntilZeroIs(line, rest);
      assert block[..|line|] == line && block[|line| + 1..] == rest;
      BlockIsRead(entries[1..], beyond);
      assert entries == [entries[0]] + entries[1..];
    }
  }

  lemma {:induction false} UntilZeroIs(line: seq<unit16>, rest: seq<unit16>)
    requires 0 !in line
    ensures UntilZero(line + [0] + rest) == |line|
    decreases |line|
  {
    if line != [] {
      assert line[0] in line && forall x <- line[1..] :: x in line;
      assert (line + [0] + rest)[1..] == line[1..] + [0] + rest;
      UntilZeroIs(line[1..], rest);
    }
  }

  /** Whenever a block is produced, the child process reads from it exactly the sanitized entries,
      drive entries included. */
  lemma {:induction false} ChildReadsSanitizedEntries(
    values: seq<Entry>, read: nat, write: nat, upper: string -> string, beyond: seq<unit16>)
    requires Sanitized(values, read, write, upper).Ok?
    ensures var r := Sanitized(values, read, write, upper).value;
            ReadBlock(Block(r) + beyond) == Some((r, beyond))
  {
    hide ReadBlock, Block, Sanitized, Handles;
    SanitizedEntries(values, read, write, upper);
    var r := Sanitized(values, read, write, upper).value;
    forall e <- r ensures Legible(e) {
      if e.key[0] == '=' {
        assert IsDriveCurrentDirectoryKey(e.key);
        assert e.key[1..] == [e.key[1], e.key[2]];
      } else {
        assert forall c <- e.key[1..] :: c in e.key;
      }
    }
    BlockIsRead(r, beyond);
  }

  // ---------------------------------------------------------------- what becomes of each entry

  function StringValue(digits: string): int {
    if digits == "" then 0
    else StringValue(digits[..|digits| - 1]) * 10 + (digits[|digits| - 1] as int - '0' as int)
  }

  /** The digits of a handle read back as its number, and none of them is needless. */
  lemma {:induction false} HandlesInDigits(n: nat)
    ensures StringValue(DecimalString(n)) == n
    ensures |DecimalString(n)| > 1 ==> DecimalString(n)[0] != '0'
    ensures n > 0 ==> DecimalString(n)[0] != '0'
    decreases n
  {
    var d := DecimalString(n);
    if n < 10 {
      assert d[..0] == "";
    } else {
      HandlesInDigits(n / 10);
      assert d[..|d| - 1] == DecimalString(n / 10);
    }
  }

  predicate Letter(c: char) {
    'a' <= c <= 'z' || 'A' <= c <= 'Z'
  }

  /** Which inherited entries are refused, which are dropped, and which are replaced. */
  lemma {:induction false} WhatBecomesOfEntries(e: Entry, drive: char)
    ensures Pseudo(e) <==> e.key != "" && e.key[0] == '=' && forall c: char :: Letter(c) ==> e.key != ['=', c, ':']
    ensures Offending(e) <==> e.key == "" || '\0' in e.key + e.value || ('=' in e.key && e.key[0] != '=')
    ensures Letter(drive) ==> IsDriveCurrentDirectoryKey(['=', drive, ':'])
    ensures EqIgnoreAsciiCase(e.key, "CERTAEL_AGENT_READ_HANDLE") || EqIgnoreAsciiCase(e.key, "CERTAEL_AGENT_WRITE_HANDLE")
            <==> IsHandle(e)
  {
    if |e.key| == 3 {
      assert e.key == [e.key[0], e.key[1], e.key[2]];
    }
    hide EqIgnoreAsciiCase;
  }

  /** Case is ignored for letters only. */
  lemma {:induction false} WhatCaseIgnores(a: char, b: char)
    ensures AsciiLower(a) == AsciiLower(b) <==>
              a == b || (Letter(a) && Letter(b) && (a as int - b as int == 32 || b as int - a as int == 32))
  {
  }
}
