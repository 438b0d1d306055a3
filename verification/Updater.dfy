/** The updater as it works on an install root, one file operation at a time. Between any two
    operations the process may crash, an operation may fail, and others may rewrite the version files.
    These are fixed beforehand as a script of turns; results hold for every script. */
module Updater {
  import opened Bytes
  import opened Activation

  /** What happens before one file operation: the files may be replaced by others, the process may
      crash, and the operation may be unable to read or to write. */
  datatype Turn = Turn(rewrite: Option<Files>, crashes: bool, canRead: bool, canWrite: bool)

  const QUIET := Turn(None, false, true, true)

  /** Nobody else touches the version files. */
  predicate Untampered(turns: seq<Turn>) {
    forall t <- turns :: t.rewrite.None?
  }

  predicate Readable(turns: seq<Turn>) {
    forall t <- turns :: t.canRead
  }

  /** Nothing happens and nothing fails. */
  predicate Undisturbed(turns: seq<Turn>) {
    forall t <- turns :: t == QUIET
  }

  /** What the next operation meets. */
  predicate Crashes(turns: seq<Turn>) {
    turns != [] && turns[0].crashes
  }

  predicate Reads(turns: seq<Turn>) {
    turns == [] || (!turns[0].crashes && turns[0].canRead)
  }

  predicate Writes(turns: seq<Turn>) {
    turns == [] || (!turns[0].crashes && turns[0].canWrite)
  }

  /** The next operation cannot tell whether a file is there. */
  predicate Overlooks(turns: seq<Turn>) {
    turns != [] && !turns[0].crashes && !turns[0].canRead
  }

  function Rest(turns: seq<Turn>): seq<Turn> {
    if turns == [] then [] else turns[1..]
  }

  lemma {:induction false} OneTurn(turns: seq<Turn>)
    ensures Readable(turns) ==> Readable(Rest(turns)) && (Reads(turns) || Crashes(turns))
    ensures Untampered(turns) ==> Untampered(Rest(turns)) && (turns != [] ==> turns[0].rewrite.None?)
    ensures Undisturbed(turns) ==>
              Undisturbed(Rest(turns)) && Untampered(turns) && Reads(turns) && Writes(turns) && !Crashes(turns)
  {
    if turns != [] {
      assert turns[0] in turns;
      assert forall t <- turns[1..] :: t in turns;
    }
  }

  /** Nothing happens and nothing fails during the next operations. */
  predicate Calm(turns: seq<Turn>, n: nat) {
    forall i :: 0 <= i < n && i < |turns| ==> turns[i] == QUIET
  }

  function Drop(turns: seq<Turn>, n: nat): seq<Turn> {
    if n >= |turns| then [] else turns[n..]
  }

  lemma {:induction false} CalmTurn(turns: seq<Turn>)
    ensures Drop(turns, 1) == Rest(turns) && Drop(turns, 0) == turns
    ensures Calm(turns, 1) ==>
              Reads(turns) && Writes(turns) && !Crashes(turns) && (turns != [] ==> turns[0].rewrite.None?)
  {
  }

  lemma {:induction false} CalmSplit(turns: seq<Turn>, k: nat, m: nat)
    requires Calm(turns, k + m)
    ensures Calm(turns, k) && Calm(Drop(turns, k), m) && Drop(Drop(turns, k), m) == Drop(turns, k + m)
  {
  }

  /** After so many calm operations the state file is overlooked and then replaced. */
  predicate ForgetsAfter(turns: seq<Turn>, n: nat) {
    Calm(turns, n) && Overlooks(Drop(turns, n)) && WritesThrice(Rest(Drop(turns, n)))
  }

  lemma {:induction false} ForgettingLater(turns: seq<Turn>, k: nat, m: nat)
    requires ForgetsAfter(turns, k + m)
    ensures Calm(turns, k) && ForgetsAfter(Drop(turns, k), m)
  {
    CalmSplit(turns, k, m);
    hide Calm, Drop, Overlooks, WritesThrice;
  }

  lemma {:induction false} ForgettingNow(turns: seq<Turn>)
    ensures ForgetsAfter(turns, 0) <==> Overlooks(turns) && WritesThrice(Rest(turns))
    ensures ForgetsAfter(turns, 1) ==> Reads(turns) && Overlooks(Rest(turns)) && WritesThrice(Rest(Rest(turns)))
  {
    CalmTurn(turns);
    hide Overlooks, WritesThrice;
  }

  /** Such turns. */
  function CalmThenMiss(n: nat): (turns: seq<Turn>)
    ensures ForgetsAfter(turns, n)
  {
    seq(n, i => QUIET) + [Turn(None, false, false, true)]
  }

  /** Recovering with these turns ahead overlooks the state file and then replaces it. */
  predicate Forgets(turns: seq<Turn>) {
    Reads(turns) && Reads(Rest(turns)) && Overlooks(Rest(Rest(turns))) && WritesThrice(Rest(Rest(Rest(turns))))
  }

  predicate WritesThrice(turns: seq<Turn>) {
    Writes(turns) && Writes(Rest(turns)) && Writes(Rest(Rest(turns)))
  }

  lemma {:induction false} UndisturbedIsUntampered(turns: seq<Turn>)
    ensures Undisturbed(turns) ==> Untampered(turns) && Readable(turns)
  {
  }

  /** The contents of the state file. */
  datatype StateFile = Missing | Unreadable | Holds(state: ActivationState)

  function ReadStateFile(record: StateFile): Result<ActivationState, UpdateError> {
    match record
    case Missing => Ok(DefaultState())
    case Unreadable => Err(InvalidActivationState)
    case Holds(s) => if ValidState(s) then Ok(s) else Err(InvalidActivationState)
  }

  /** What a new slot is recorded in: the state of the file, or the default state if that seemed
      missing; and the slot is one for the given names. */
  predicate Recordable(before: StateFile, s: ActivationState, slot: Slot, version: string, name: string) {
    && (ReadStateFile(before) == Ok(s) || s == DefaultState())
    && slot == NewSlot(version, name, slot.sha256)
  }

  /** The slots a state file lists. */
  function Listed(record: StateFile): set<Slot> {
    if record.Holds? then Slots(record.state) else {}
  }

  predicate HasActive(record: StateFile) {
    record.Holds? && record.state.active.Some?
  }

  /** The versions that are active or can become active again by a rollback or a recovery. */
  function Chosen(record: StateFile): set<Slot> {
    if record.Holds? then ChosenIn(record.state) else {}
  }

  function ChosenIn(s: ActivationState): set<Slot> {
    (if s.active.Some? then {s.active.value} else {}) + (if s.previous.Some? then {s.previous.value} else {})
  }

  /** No transition but activating and registering adds to them. */
  lemma {:induction false} ChosenMoves(before: StateFile, s: ActivationState, slot: Slot, activate: bool)
    requires ReadStateFile(before) == Ok(s) || s == DefaultState()
    ensures ChosenIn(Reverted(s)) <= Chosen(before) && ChosenIn(s.(pending := Some(slot))) <= Chosen(before)
    ensures ChosenIn(WithRegistered(s, slot, activate)) <= Chosen(before) + {slot}
    ensures s.pending.Some? ==> ChosenIn(Promoted(s)) <= Chosen(before) + {s.pending.value}
  {
    hide ValidState;
  }

  predicate SoundFile(hash: bytes -> hexdigest, files: Files, record: StateFile) {
    record.Missing? || (record.Holds? && Sound(hash, files, record.state))
  }

  /** What an undisturbed launch starts. */
  function Launched(hash: bytes -> hexdigest, files: Files, record: StateFile): Result<Path, UpdateError> {
    var s :- ReadStateFile(record);
    var t :- Recovered(hash, files, s);
    if t.active.None? then Err(InvalidActivationState) else Ok(Components(t.active.value.relativePath))
  }

  /** What the state file means, and what a missing one stands for. */
  lemma {:induction false} WhatStateFilesMean(s: ActivationState)
    ensures ReadStateFile(Missing) == Ok(ActivationState(1, None, None, None))
    ensures ReadStateFile(Unreadable) == Err(InvalidActivationState)
    ensures ReadStateFile(Holds(s)) ==
              if s.formatVersion == 1 && forall slot <- Slots(s) :: ValidSlot(slot) then Ok(s) else Err(InvalidActivationState)
  {
    hide ValidSlot;
  }

  /** An undisturbed launch starts the active version if it verifies, otherwise the previous one if that
      does, and otherwise nothing; never the pending one. */
  lemma {:induction false} WhatIsLaunched(hash: bytes -> hexdigest, files: Files, s: ActivationState)
    requires ReadStateFile(Holds(s)).Ok?
    ensures s.active.Some? && Verifies(hash, files, s.active.value) ==>
              Launched(hash, files, Holds(s)) == Ok(Components(s.active.value.relativePath))
    ensures s.active.Some? && !Verifies(hash, files, s.active.value) &&
            s.previous.Some? && Verifies(hash, files, s.previous.value) ==>
              Launched(hash, files, Holds(s)) == Ok(Components(s.previous.value.relativePath))
    ensures s.active.None? || (!Verifies(hash, files, s.active.value) &&
                               (s.previous.None? || !Verifies(hash, files, s.previous.value))) ==>
              Launched(hash, files, Holds(s)).Err?
  {
    hide Verifies, Components, Recovered, ValidState;
    RecoverySucceedsIff(hash, files, s);
    if Recovered(hash, files, s).Ok? {
      RecoverySlotBySlot(hash, files, s);
    }
  }

  /** A successful verification: the slot, and the version files as they were when its file was opened. */
  datatype Check = Check(slot: Slot, files: Files)

  predicate Attested(hash: bytes -> hexdigest, c: Check) {
    Verifies(hash, c.files, c.slot)
  }

  // ---------------------------------------------------------------- directory operations

  /** Something is at the path: a file, or a directory with files in it. */
  predicate Present(files: Files, path: Path) {
    exists p :: p in files && path <= p
  }

  function WithoutTree(files: Files, path: Path): Files {
    map p | p in files && !(path <= p) :: files[p]
  }

  /** The files after the directory `from` was renamed to `to`, where nothing was. */
  function Moved(files: Files, from: Path, to: Path): Files {
    var targets := set p | p in files && from <= p :: to + p[|from|..];
    assert forall q <- targets :: from + q[|to|..] in files by {
      forall q <- targets ensures from + q[|to|..] in files {
        var p :| p in files && from <= p && q == to + p[|from|..];
        assert from + q[|to|..] == p;
      }
    }
    WithoutTree(files, from) + map q | q in targets :: files[from + q[|to|..]]
  }

  lemma {:induction false} RemovingAdditionRestores(files: Files, path: Path, target: Path, contents: bytes)
    requires !Present(files, path) && path <= target
    ensures WithoutTree(files[target := contents], path) == files
  {
    assert forall p :: p in files ==> !(path <= p);
  }

  /** Renaming a directory that holds one new file puts that file in place and does nothing else. */
  lemma {:induction false} MovingAdditionPlacesIt(files: Files, from: Path, to: Path, name: string, contents: bytes)
    requires !Present(files, from)
    ensures Moved(files[from + [name] := contents], from, to) == files[to + [name] := contents]
  {
    var source, target := from + [name], to + [name];
    var all := files[source := contents];
    assert forall p :: p in files ==> !(from <= p);
    RemovingAdditionRestores(files, from, source, contents);
    assert source[|from|..] == [name];
    assert target[|to|..] == [name];
    var targets := set p | p in all && from <= p :: to + p[|from|..];
    assert targets == {target} by {
      forall q <- targets ensures q == target {
        var p :| p in all && from <= p && q == to + p[|from|..];
        assert p == source;
      }
      assert source in all && from <= source;
    }
  }

  // ---------------------------------------------------------------- the passing of time

  /** A change of the version files: what they became, and whether the updater did it itself. */
  datatype Change = Change(files: Files, own: bool)

  /** All that other processes and the clock can change, the verifications made so far, and the changes
      of the version files, in their order. */
  datatype Moment = Moment(files: Files, script: seq<Turn>, alive: bool, checks: seq<Check>, history: seq<Change>)

  /** The script is used up from its front, and a crash is final. */
  predicate Proceeds(a: Moment, b: Moment) {
    && |a.checks| <= |b.checks|
    && (b.alive ==> a.alive)
    && (Readable(a.script) ==> Readable(b.script))
    && (Untampered(a.script) ==> Untampered(b.script))
    && (Undisturbed(a.script) && a.alive ==> Undisturbed(b.script) && b.alive)
  }

  predicate Below(dirs: set<Path>, path: Path) {
    exists dir <- dirs :: dir <= path
  }

  /** What one operation of the updater that works in certain directories does to the version files: it
      makes a new empty file there, extends a file there, removes one of the directories, or renames one
      to another where nothing is. */
  ghost predicate OwnStep(dirs: set<Path>, before: Files, after: Files) {
    || (exists path: Path :: Below(dirs, path) && !Present(before, path) && after == before[path := []])
    || (exists path: Path, more: bytes ::
          Below(dirs, path) && path in before && after == before[path := before[path] + more])
    || (exists dir <- dirs :: after == WithoutTree(before, dir))
    || (exists from <- dirs, to <- dirs :: !Present(before, to) && after == Moved(before, from, to))
  }

  lemma {:induction false} MakingIsOwnStep(dirs: set<Path>, files: Files, path: Path)
    requires Below(dirs, path) && !Present(files, path)
    ensures OwnStep(dirs, files, files[path := []])
  {
    hide Present, Below;
  }

  lemma {:induction false} ExtendingIsOwnStep(dirs: set<Path>, files: Files, path: Path, more: bytes)
    requires Below(dirs, path) && path in files
    ensures OwnStep(dirs, files, files[path := files[path] + more])
  {
    hide Present, Below;
  }

  lemma {:induction false} OwnStepOfMore(dirs: set<Path>, more: set<Path>, before: Files, after: Files)
    requires dirs <= more && OwnStep(dirs, before, after)
    ensures OwnStep(more, before, after)
  {
    hide Present, WithoutTree, Moved;
    forall path | Below(dirs, path) ensures Below(more, path) {}
  }

  /** The updater leaves everything outside of those directories as it is. */
  lemma {:induction false} OwnStepStaysInside(dirs: set<Path>, before: Files, after: Files, path: Path)
    requires OwnStep(dirs, before, after) && !Below(dirs, path)
    ensures path in after <==> path in before
    ensures path in before ==> after[path] == before[path]
  {
    hide Present;
    if from, to :| from in dirs && to in dirs && !Present(before, to) && after == Moved(before, from, to) {
      MovingStaysInside(before, from, to, path);
    }
  }

  lemma {:induction false} MovingStaysInside(files: Files, from: Path, to: Path, path: Path)
    requires !(from <= path) && !(to <= path)
    ensures path in Moved(files, from, to) <==> path in files
    ensures path in files ==> Moved(files, from, to)[path] == files[path]
  {
  }

  /** What others made of the version files with these turns. */
  function Rewritings(turns: seq<Turn>): seq<Files> {
    if turns == [] then [] else RewritingOf(turns[0]) + Rewritings(turns[1..])
  }

  function RewritingOf(t: Turn): seq<Files> {
    if t.rewrite.Some? then [t.rewrite.value] else []
  }

  function ByOthers(changes: seq<Change>): seq<Files> {
    if changes == [] then [] else ByOther(changes[0]) + ByOthers(changes[1..])
  }

  function ByOther(c: Change): seq<Files> {
    if c.own then [] else [c.files]
  }

  /** One of the contents that the version files have in turn, beginning with `first`. */
  function Nth(first: Files, later: seq<Change>, i: nat): Files
    requires i <= |later|
  {
    if i == 0 then first else later[i - 1].files
  }

  ghost predicate OwnSteps(dirs: set<Path>, first: Files, later: seq<Change>) {
    forall i {:trigger Nth(first, later, i)} :: 0 <= i < |later| && later[i].own ==>
      OwnStep(dirs, Nth(first, later, i), later[i].files)
  }

  function Taken(a: Moment, b: Moment): seq<Turn>
    requires |b.script| <= |a.script|
  {
    a.script[..|a.script| - |b.script|]
  }

  /** The history in between tells every change of the version files, from what they were to what they
      are now. Those by others are exactly the rewritings of the turns taken, in their order; the others
      are operations of the updater in the given directories. With no directories it has changed
      nothing itself. */
  ghost predicate Traced(dirs: set<Path>, a: Moment, b: Moment) {
    && |b.script| <= |a.script| && b.script == a.script[|a.script| - |b.script|..]
    && a.history <= b.history
    && var later := b.history[|a.history|..];
       && b.files == Nth(a.files, later, |later|)
       && ByOthers(later) == Rewritings(Taken(a, b))
       && OwnSteps(dirs, a.files, later)
  }

  /** The version files were like this at some moment from `a` to `b`. */
  ghost predicate Held(a: Moment, b: Moment, files: Files) {
    files == a.files || exists i :: |a.history| <= i < |b.history| && b.history[i].files == files
  }

  /** These are the version files from before, or what others made of them meanwhile. */
  predicate Given(a: Moment, b: Moment, files: Files) {
    |b.script| <= |a.script| && (files == a.files || files in Rewritings(Taken(a, b)))
  }

  /** The verifications made in between were genuine: each is of version files that were there in
      between. Unless others interfere, no file that was there changes, and what was verified still
      verifies. */
  ghost predicate Keeps(hash: bytes -> hexdigest, a: Moment, b: Moment) {
    && a.checks <= b.checks
    && (forall i :: |a.checks| <= i < |b.checks| ==> Attested(hash, b.checks[i]) && Held(a, b, b.checks[i].files))
    && (Untampered(a.script) ==>
          && Preserved(a.files, b.files)
          && forall i :: |a.checks| <= i < |b.checks| ==> Verifies(hash, b.files, b.checks[i].slot))
  }

  /** The slot was verified in between: its file was there, with its digest. */
  ghost predicate CheckedBetween(hash: bytes -> hexdigest, a: Moment, b: Moment, slot: Slot) {
    exists i :: |a.checks| <= i < |b.checks| && b.checks[i].slot == slot
                && Held(a, b, b.checks[i].files) && Verifies(hash, b.checks[i].files, slot)
  }

  /** The slot's file, with its digest, was there before or is in what others made of the version files
      meanwhile, unless it is in a directory in which the updater worked itself. */
  ghost predicate Sourced(hash: bytes -> hexdigest, dirs: set<Path>, a: Moment, b: Moment, slot: Slot) {
    var target := Components(slot.relativePath);
    Below(dirs, target) ||
    exists files: Files :: Given(a, b, files) && target in files && hash(files[target]) == slot.sha256
  }

  /** What is true of all that happens between two moments. */
  ghost predicate Passes(hash: bytes -> hexdigest, dirs: set<Path>, a: Moment, b: Moment) {
    Traced(dirs, a, b) && Keeps(hash, a, b)
  }

  lemma {:induction false} NothingHappened(a: Moment, b: Moment, dirs: set<Path>)
    requires a.files == b.files && a.script == b.script && a.history == b.history
    ensures Traced(dirs, a, b)
  {
    assert a.script[0..] == a.script && Taken(a, b) == [];
  }

  lemma {:induction false} StepTaken(dirs: set<Path>, a: Moment, b: Moment)
    requires b.history == a.history + [Change(b.files, true)] && a.script == b.script
    requires OwnStep(dirs, a.files, b.files)
    ensures Traced(dirs, a, b)
  {
    hide OwnStep;
    assert a.script[0..] == a.script && Taken(a, b) == [];
    var later := b.history[|a.history|..];
    assert later == [Change(b.files, true)] && later[1..] == [];
    assert Nth(a.files, later, 0) == a.files && Nth(a.files, later, 1) == b.files;
    assert ByOthers(later) == Rewritings(Taken(a, b));
    assert OwnSteps(dirs, a.files, later);
  }

  lemma {:induction false} TurnTaken(a: Moment, b: Moment)
    requires a.script != [] && b.script == a.script[1..]
    requires match a.script[0].rewrite
             case None => b.files == a.files && b.history == a.history
             case Some(f) => b.files == f && b.history == a.history + [Change(f, false)]
    ensures Traced({}, a, b)
  {
    hide OwnStep;
    var later := b.history[|a.history|..];
    assert Taken(a, b) == [a.script[0]] && [a.script[0]][1..] == [];
    if a.script[0].rewrite.Some? {
      assert later == [Change(b.files, false)] && later[1..] == [];
      assert Nth(a.files, later, 1) == b.files;
    }
    assert ByOthers(later) == Rewritings(Taken(a, b));
    assert OwnSteps({}, a.files, later);
  }

  lemma {:induction false} Associate<T>(a: seq<T>, b: seq<T>, c: seq<T>)
    ensures a + (b + c) == a + b + c
  {
  }

  lemma {:induction false} RewritingsConcat(a: seq<Turn>, b: seq<Turn>)
    ensures Rewritings(a + b) == Rewritings(a) + Rewritings(b)
    decreases |a|
  {
    if a == [] {
      assert a + b == b && [] + Rewritings(b) == Rewritings(b);
    } else {
      assert (a + b)[0] == a[0] && (a + b)[1..] == a[1..] + b;
      RewritingsConcat(a[1..], b);
      Associate(RewritingOf(a[0]), Rewritings(a[1..]), Rewritings(b));
    }
  }

  lemma {:induction false} ByOthersConcat(a: seq<Change>, b: seq<Change>)
    ensures ByOthers(a + b) == ByOthers(a) + ByOthers(b)
    decreases |a|
  {
    if a == [] {
      assert a + b == b && [] + ByOthers(b) == ByOthers(b);
    } else {
      assert (a + b)[0] == a[0] && (a + b)[1..] == a[1..] + b;
      ByOthersConcat(a[1..], b);
      Associate(ByOther(a[0]), ByOthers(a[1..]), ByOthers(b));
    }
  }

  lemma {:induction false} OwnStepsConcat(
      dirs: set<Path>, fewer: set<Path>, start: Files, first: seq<Change>, second: seq<Change>)
    requires fewer <= dirs
    requires OwnSteps(dirs, start, first) && OwnSteps(fewer, Nth(start, first, |first|), second)
    ensures OwnSteps(dirs, start, first + second)
    ensures Nth(start, first + second, |first + second|) == Nth(Nth(start, first, |first|), second, |second|)
  {
    hide OwnStep;
    var all, middle := first + second, Nth(start, first, |first|);
    forall i | 0 <= i < |all| && all[i].own ensures OwnStep(dirs, Nth(start, all, i), all[i].files) {
      if i < |first| {
        assert OwnStep(dirs, Nth(start, first, i), first[i].files) && Nth(start, all, i) == Nth(start, first, i);
      } else {
        assert Nth(start, all, i) == Nth(middle, second, i - |first|);
        OwnStepOfMore(fewer, dirs, Nth(middle, second, i - |first|), second[i - |first|].files);
      }
    }
  }

  lemma {:induction false} TakenInTurn(a: Moment, b: Moment, c: Moment)
    requires |b.script| <= |a.script| && b.script == a.script[|a.script| - |b.script|..]
    requires |c.script| <= |b.script| && c.script == b.script[|b.script| - |c.script|..]
    ensures c.script == a.script[|a.script| - |c.script|..] && Taken(a, c) == Taken(a, b) + Taken(b, c)
  {
  }

  lemma {:induction false} TracedTransitive(dirs: set<Path>, fewer: set<Path>, a: Moment, b: Moment, c: Moment)
    requires fewer <= dirs && Traced(dirs, a, b) && Traced(fewer, b, c)
    ensures Traced(dirs, a, c)
    ensures forall f :: Held(a, b, f) || Held(b, c, f) ==> Held(a, c, f)
  {
    hide OwnSteps, Taken, Rewritings, ByOthers, Held;
    var first, second := b.history[|a.history|..], c.history[|b.history|..];
    assert c.history[|a.history|..] == first + second;
    OwnStepsConcat(dirs, fewer, a.files, first, second);
    ByOthersConcat(first, second);
    TakenInTurn(a, b, c);
    RewritingsConcat(Taken(a, b), Taken(b, c));
    HeldLonger(a, b, c);
  }

  lemma {:induction false} HeldLonger(a: Moment, b: Moment, c: Moment)
    requires a.history <= b.history <= c.history
    requires b.files == Nth(a.files, b.history[|a.history|..], |b.history| - |a.history|)
    ensures forall f :: Held(a, b, f) || Held(b, c, f) ==> Held(a, c, f)
  {
    assert forall i :: 0 <= i < |b.history| ==> c.history[i] == b.history[i];
    forall f | Held(b, c, f) ensures Held(a, c, f) {
      if f == b.files && |b.history| > |a.history| {
        assert c.history[|b.history| - 1].files == f;
      }
    }
  }

  /** Back in time to where a file came from. */
  lemma {:induction false} FileComesFrom(
      dirs: set<Path>, first: Files, later: seq<Change>, i: nat, path: Path) returns (source: Files)
    requires OwnSteps(dirs, first, later) && i <= |later|
    requires path in Nth(first, later, i) && !Below(dirs, path)
    ensures source == first || exists k :: 0 <= k < |later| && !later[k].own && later[k].files == source
    ensures path in source && source[path] == Nth(first, later, i)[path]
  {
    hide OwnStep, Below;
    if i == 0 || !later[i - 1].own {
      source := Nth(first, later, i);
    } else {
      assert OwnStep(dirs, Nth(first, later, i - 1), later[i - 1].files);
      OwnStepStaysInside(dirs, Nth(first, later, i - 1), later[i - 1].files, path);
      source := FileComesFrom(dirs, first, later, i - 1, path);
    }
  }

  lemma {:induction false} ByOthersHas(changes: seq<Change>, k: nat)
    requires k < |changes| && !changes[k].own
    ensures changes[k].files in ByOthers(changes)
  {
    if k > 0 {
      ByOthersHas(changes[1..], k - 1);
    }
  }

  /** What was verified is sourced. */
  lemma {:induction false} CheckedIsSourced(hash: bytes -> hexdigest, dirs: set<Path>, a: Moment, b: Moment, slot: Slot)
    requires Traced(dirs, a, b) && CheckedBetween(hash, a, b, slot)
    ensures Sourced(hash, dirs, a, b, slot)
  {
    hide ValidSlot, Components, OwnSteps, Below, Rewritings, ByOthers;
    var target := Components(slot.relativePath);
    var n :| |a.checks| <= n < |b.checks| && b.checks[n].slot == slot && Held(a, b, b.checks[n].files)
             && Verifies(hash, b.checks[n].files, slot);
    var seen, later := b.checks[n].files, b.history[|a.history|..];
    if !Below(dirs, target) {
      var i := HeldIsNth(a, b, seen);
      var source := FileComesFrom(dirs, a.files, later, i, target);
      if source != a.files {
        var k :| 0 <= k < |later| && !later[k].own && later[k].files == source;
        ByOthersHas(later, k);
      }
      assert Given(a, b, source);
    }
  }

  lemma {:induction false} HeldIsNth(a: Moment, b: Moment, files: Files) returns (i: nat)
    requires a.history <= b.history && Held(a, b, files)
    ensures i <= |b.history| - |a.history| && Nth(a.files, b.history[|a.history|..], i) == files
  {
    if files == a.files {
      i := 0;
    } else {
      var k :| |a.history| <= k < |b.history| && b.history[k].files == files;
      i := k - |a.history| + 1;
      assert b.history[|a.history|..][i - 1] == b.history[k];
    }
  }

  lemma {:induction false} ByOthersOfOthers(changes: seq<Change>)
    requires forall i :: 0 <= i < |changes| ==> !changes[i].own
    ensures |ByOthers(changes)| == |changes|
    ensures forall i :: 0 <= i < |changes| ==> changes[i] == Change(ByOthers(changes)[i], false)
    decreases |changes|
  {
    if changes != [] {
      ByOthersOfOthers(changes[1..]);
    }
  }

  /** With no directories to work in, the updater changes no version file: the files change exactly as
      others rewrite them, in the order of the turns taken. */
  lemma {:induction false} OnlyOthersChangeFiles(a: Moment, b: Moment)
    requires Traced({}, a, b)
    ensures
      var given := Rewritings(Taken(a, b));
      && |b.history| == |a.history| + |given| && a.history <= b.history
      && (forall i :: 0 <= i < |given| ==> b.history[|a.history| + i] == Change(given[i], false))
      && b.files == if given == [] then a.files else given[|given| - 1]
  {
    hide OwnStep, Rewritings, ByOthers, Taken;
    var later := b.history[|a.history|..];
    forall i | 0 <= i < |later| ensures !later[i].own {
      if later[i].own {
        assert OwnStep({}, Nth(a.files, later, i), later[i].files);
        NoDirectoriesNoStep(Nth(a.files, later, i), later[i].files);
      }
    }
    ByOthersOfOthers(later);
    assert forall i :: 0 <= i < |later| ==> b.history[|a.history| + i] == later[i];
  }

  /** Where the updater has changed nothing itself, all that was there was given. */
  lemma {:induction false} HeldIsGiven(a: Moment, b: Moment, files: Files)
    requires Traced({}, a, b) && Held(a, b, files)
    ensures Given(a, b, files)
  {
    hide Rewritings, ByOthers;
    var later := b.history[|a.history|..];
    var i := HeldIsNth(a, b, files);
    if i > 0 {
      assert !later[i - 1].own by {
        if later[i - 1].own {
          assert OwnStep({}, Nth(a.files, later, i - 1), later[i - 1].files);
          NoDirectoriesNoStep(Nth(a.files, later, i - 1), later[i - 1].files);
        }
      }
      ByOthersHas(later, i - 1);
    }
  }

  lemma {:induction false} NoDirectoriesNoStep(before: Files, after: Files)
    ensures !OwnStep({}, before, after)
  {
    hide Present, WithoutTree, Moved;
  }

  lemma {:induction false} CheckedLonger(hash: bytes -> hexdigest, a: Moment, b: Moment, c: Moment, slot: Slot)
    requires |a.checks| <= |b.checks| && b.checks <= c.checks
    requires forall f :: Held(a, b, f) || Held(b, c, f) ==> Held(a, c, f)
    requires CheckedBetween(hash, a, b, slot) || CheckedBetween(hash, b, c, slot)
    ensures CheckedBetween(hash, a, c, slot)
  {
    hide Held, Verifies;
    if CheckedBetween(hash, a, b, slot) {
      var i :| |a.checks| <= i < |b.checks| && b.checks[i].slot == slot && Held(a, b, b.checks[i].files)
               && Verifies(hash, b.checks[i].files, slot);
      assert c.checks[i] == b.checks[i];
    } else {
      var i :| |b.checks| <= i < |c.checks| && c.checks[i].slot == slot && Held(b, c, c.checks[i].files)
               && Verifies(hash, c.checks[i].files, slot);
    }
  }

  lemma {:induction false} KeepsTransitive(
      hash: bytes -> hexdigest, dirs: set<Path>, fewer: set<Path>, a: Moment, b: Moment, c: Moment)
    requires Untampered(a.script) ==> Untampered(b.script)
    requires fewer <= dirs && Traced(dirs, a, b) && Traced(fewer, b, c)
    requires Keeps(hash, a, b) && Keeps(hash, b, c)
    ensures Keeps(hash, a, c)
    ensures forall slot :: CheckedBetween(hash, a, b, slot) || CheckedBetween(hash, b, c, slot) ==>
                             CheckedBetween(hash, a, c, slot)
  {
    TracedTransitive(dirs, fewer, a, b, c);
    hide Activation.VerifySlot, Traced, Held, CheckedBetween;
    assert forall i :: 0 <= i < |b.checks| ==> c.checks[i] == b.checks[i];
    if Untampered(a.script) {
      forall i | |a.checks| <= i < |b.checks| ensures Verifies(hash, c.files, c.checks[i].slot) {
        VerifiedStaysVerified(hash, b.files, c.files, b.checks[i].slot);
      }
    }
    forall slot | CheckedBetween(hash, a, b, slot) || CheckedBetween(hash, b, c, slot)
      ensures CheckedBetween(hash, a, c, slot)
    {
      CheckedLonger(hash, a, b, c, slot);
    }
  }

  lemma {:induction false} VerifiedStaysVerified(hash: bytes -> hexdigest, before: Files, after: Files, slot: Slot)
    requires Preserved(before, after) && Verifies(hash, before, slot)
    ensures Verifies(hash, after, slot)
  {
    hide ValidSlot, Components;
  }

  lemma {:induction false} HeldNow(a: Moment, b: Moment)
    requires Traced({}, a, b)
    ensures Held(a, b, a.files) && Held(a, b, b.files)
  {
    hide OwnSteps, Rewritings, ByOthers;
    if |b.history| > |a.history| {
      assert b.history[|a.history|..][|b.history| - |a.history| - 1] == b.history[|b.history| - 1];
    }
  }

  lemma {:induction false} HeldThroughout(a: Moment, b: Moment, c: Moment, files: Files)
    requires Traced({}, a, b) && Traced({}, b, c) && (Held(a, b, files) || Held(b, c, files))
    ensures Held(a, c, files)
  {
    TracedTransitive({}, {}, a, b, c);
  }

  /** What making a verification known does. */
  lemma {:induction false} CheckMade(hash: bytes -> hexdigest, a: Moment, b: Moment, slot: Slot, seen: Files)
    requires Traced({}, a, b) && a.checks == b.checks && Held(a, b, seen) && Verifies(hash, seen, slot)
    requires Untampered(a.script) ==> a.files == b.files == seen
    ensures
      var c := b.(checks := b.checks + [Check(slot, seen)]);
      Passes(hash, {}, a, c) && Held(a, c, seen) && CheckedBetween(hash, a, c, slot)
  {
    hide Activation.VerifySlot;
    var c := b.(checks := b.checks + [Check(slot, seen)]);
    NothingHappened(b, c, {});
    TracedTransitive({}, {}, a, b, c);
    assert c.checks[|b.checks|].slot == slot;
    hide Traced;
  }

  lemma {:induction false} LastCheck(hash: bytes -> hexdigest, a: Moment, b: Moment)
    requires Passes(hash, {}, a, b) && |a.checks| < |b.checks|
    ensures
      var last := b.checks[|b.checks| - 1];
      && Held(a, b, last.files) && Given(a, b, last.files)
      && Attested(hash, last) && CheckedBetween(hash, a, b, last.slot)
      && var target := Components(last.slot.relativePath);
         target in last.files && hash(last.files[target]) == last.slot.sha256
  {
    hide Traced, Held, Given, ValidSlot, Components;
    HeldIsGiven(a, b, b.checks[|b.checks| - 1].files);
  }

  lemma {:induction false} TracesCompose(dirs: set<Path>, a: Moment)
    ensures Traced(dirs, a, a)
    ensures forall fewer: set<Path>, b: Moment, c: Moment {:trigger Traced(dirs, a, b), Traced(fewer, b, c)} ::
              fewer <= dirs && Traced(dirs, a, b) && Traced(fewer, b, c) ==> Traced(dirs, a, c)
  {
    NothingHappened(a, a, dirs);
    hide Traced;
    forall fewer: set<Path>, b: Moment, c: Moment | fewer <= dirs && Traced(dirs, a, b) && Traced(fewer, b, c)
      ensures Traced(dirs, a, c)
    {
      TracedTransitive(dirs, fewer, a, b, c);
    }
  }

  /** Stretches of work that began at `a` compose with what comes after them. */
  lemma {:induction false} TimePasses(hash: bytes -> hexdigest, dirs: set<Path>, a: Moment)
    ensures Passes(hash, dirs, a, a)
    ensures forall fewer: set<Path>, b: Moment, c: Moment
              {:trigger Passes(hash, dirs, a, b), Passes(hash, fewer, b, c)} ::
              fewer <= dirs && Proceeds(a, b) && Passes(hash, dirs, a, b) && Passes(hash, fewer, b, c) ==>
                Passes(hash, dirs, a, c)
    ensures forall fewer: set<Path>, b: Moment, c: Moment, slot: Slot
              {:trigger CheckedBetween(hash, a, b, slot), Passes(hash, fewer, b, c)} ::
              fewer <= dirs && Proceeds(a, b) && Passes(hash, dirs, a, b) && Passes(hash, fewer, b, c) &&
              CheckedBetween(hash, a, b, slot) ==>
                CheckedBetween(hash, a, c, slot)
    ensures forall fewer: set<Path>, b: Moment, c: Moment, slot: Slot
              {:trigger Passes(hash, fewer, b, c), CheckedBetween(hash, b, c, slot)} ::
              fewer <= dirs && Proceeds(a, b) && Passes(hash, dirs, a, b) && Passes(hash, fewer, b, c) &&
              CheckedBetween(hash, b, c, slot) ==>
                CheckedBetween(hash, a, c, slot)
    ensures forall b: Moment, slot: Slot {:trigger Passes(hash, dirs, a, b), CheckedBetween(hash, a, b, slot)} ::
              Passes(hash, dirs, a, b) && CheckedBetween(hash, a, b, slot) ==> Sourced(hash, dirs, a, b, slot)
  {
    KeepsFiles(hash, a, a);
    NothingHappened(a, a, dirs);
    hide Keeps, CheckedBetween, Traced, Sourced, Untampered, Readable, Undisturbed;
    forall fewer: set<Path>, b: Moment, c: Moment
      | fewer <= dirs && Proceeds(a, b) && Passes(hash, dirs, a, b) && Passes(hash, fewer, b, c)
      ensures Passes(hash, dirs, a, c)
      ensures forall slot :: CheckedBetween(hash, a, b, slot) || CheckedBetween(hash, b, c, slot) ==>
                               CheckedBetween(hash, a, c, slot)
    {
      TracedTransitive(dirs, fewer, a, b, c);
      KeepsTransitive(hash, dirs, fewer, a, b, c);
    }
    forall b: Moment, slot: Slot | Passes(hash, dirs, a, b) && CheckedBetween(hash, a, b, slot)
      ensures Sourced(hash, dirs, a, b, slot)
    {
      CheckedIsSourced(hash, dirs, a, b, slot);
    }
  }

  // ---------------------------------------------------------------- installing

  predicate ValidInstall(version: string, name: string, expected: string) {
    SafeComponent(version) && SafeComponent(name) && ValidDigest(expected)
  }

  /** The file that an installation is to put in place, the directory it is prepared in, and the
      digest it must have. */
  datatype Placement = Placement(version: string, name: string, staging: string, contents: bytes, expected: string)

  function Directory(p: Placement): Path {
    VersionDirectory(p.version)
  }

  function Temporary(p: Placement): Path {
    VersionDirectory(p.staging)
  }

  function Target(p: Placement): Path {
    Directory(p) + [p.name]
  }

  function Workplace(p: Placement): (dirs: set<Path>)
    ensures Temporary(p) in dirs && Directory(p) in dirs
  {
    {Temporary(p), Directory(p)}
  }

  function SlotOf(p: Placement): Slot {
    NewSlot(p.version, p.name, p.expected)
  }

  /** What an undisturbed attempt to put a version in place does to the files. */
  function Placed(hash: bytes -> hexdigest, files: Files, p: Placement): Result<Files, UpdateError> {
    if Present(files, Target(p)) then
      if Target(p) !in files then Err(Verification)
      else if hash(files[Target(p)]) != p.expected then Err(Installation)
      else Ok(files)
    else if Present(files, Temporary(p)) then Err(Installation)
    else if hash(p.contents) != p.expected then Err(Verification)
    else if Present(files, Directory(p)) then Err(Installation)
    else Ok(files[Target(p) := p.contents])
  }

  /** When an undisturbed attempt succeeds: with the very file already in place, or with room for it and the
      right digest. It fails as a verification for a digest of what was to be put in place, or for what is no
      file, and otherwise as an installation. */
  lemma {:induction false} WhenPlacingSucceeds(hash: bytes -> hexdigest, files: Files, p: Placement)
    ensures Placed(hash, files, p).Ok? <==>
              || (Target(p) in files && hash(files[Target(p)]) == p.expected)
              || (&& !Present(files, Target(p)) && !Present(files, Temporary(p)) && !Present(files, Directory(p))
                  && hash(p.contents) == p.expected)
    ensures Placed(hash, files, p).Ok? ==>
              Placed(hash, files, p).value == if Target(p) in files then files else files[Target(p) := p.contents]
    ensures Placed(hash, files, p).Err? ==>
              Placed(hash, files, p).error ==
                if Present(files, Target(p)) then if Target(p) in files then Installation else Verification
                else if !Present(files, Temporary(p)) && hash(p.contents) != p.expected then Verification
                else Installation
  {
    assert Target(p) in files ==> Present(files, Target(p)) by {
      QuietAndPresent([], files, Target(p));
    }
    assert !Present(files, Target(p)) ==> Target(p) !in files;
    hide Present;
  }

  /** A new file with the first part of the contents was made at `path`. */
  ghost predicate PartlyCopied(before: Files, after: Files, path: Path, contents: bytes) {
    path !in before && exists k :: 0 <= k <= |contents| && after == before[path := contents[..k]]
  }

  /** The version was put in place, complete and with the right digest. */
  ghost predicate PutInPlace(hash: bytes -> hexdigest, before: Files, after: Files, p: Placement) {
    Target(p) !in before && after == before[Target(p) := p.contents] && hash(p.contents) == p.expected
  }

  /** Nothing was added except in the directory for preparation, or the complete version. */
  ghost predicate AddsOnlyComplete(hash: bytes -> hexdigest, before: Files, after: Files, p: Placement) {
    forall q :: q in after ==>
      || q in before
      || Temporary(p) <= q
      || (q == Target(p) && after[q] == p.contents && hash(p.contents) == p.expected)
  }

  lemma {:induction false} NotPresentNotThere(files: Files, path: Path, name: string)
    requires !Present(files, path)
    ensures path + [name] !in files && !Present(files, path + [name])
  {
    assert path <= path + [name];
    forall q | q in files ensures !(path + [name] <= q) {
      assert path + [name] <= q ==> path <= q;
    }
  }

  lemma {:induction false} QuietAndPresent(turns: seq<Turn>, files: Files, path: Path)
    ensures Undisturbed(turns) ==> Untampered(turns)
    ensures path in files ==> Present(files, path)
  {
    assert path <= path;
  }

  lemma {:induction false} UnchangedAddsNothing(hash: bytes -> hexdigest, files: Files, p: Placement)
    ensures AddsOnlyComplete(hash, files, files, p) && Preserved(files, files)
  {
  }

  lemma {:induction false} SoundFileStays(hash: bytes -> hexdigest, before: Files, after: Files, record: StateFile)
    ensures Preserved(before, after) && SoundFile(hash, before, record) ==> SoundFile(hash, after, record)
  {
    hide Preserved, Sound;
    if Preserved(before, after) && record.Holds? && Sound(hash, before, record.state) {
      SoundnessIsPreserved(hash, before, after, record.state);
    }
  }

  lemma {:induction false} PlacedVerifies(hash: bytes -> hexdigest, files: Files, p: Placement)
    requires Placed(hash, files, p).Ok?
    ensures Target(p) in Placed(hash, files, p).value && hash(Placed(hash, files, p).value[Target(p)]) == p.expected
  {
  }

  lemma {:induction false} KeepsFiles(hash: bytes -> hexdigest, a: Moment, b: Moment)
    requires a.checks == b.checks
    requires Untampered(a.script) ==> Preserved(a.files, b.files)
    ensures Keeps(hash, a, b)
  {
  }

  lemma {:induction false} CopiedSoFar(
      hash: bytes -> hexdigest, a: Moment, b: Moment, path: Path, contents: bytes, done: bytes)
    requires a.checks == b.checks && done <= contents
    requires Untampered(a.script) ==> path !in a.files && b.files == a.files[path := done]
    ensures Keeps(hash, a, b)
    ensures Untampered(a.script) ==> PartlyCopied(a.files, b.files, path, contents)
  {
    hide Untampered;
    assert done == contents[..|done|];
  }

  lemma {:induction false} PlacementByMove(files: Files, p: Placement)
    requires !Present(files, Temporary(p))
    ensures
      var copied := files[Temporary(p) + [p.name] := p.contents];
      && !Present(files, Temporary(p) + [p.name])
      && Moved(copied, Temporary(p), Directory(p)) == files[Target(p) := p.contents]
      && (Temporary(p) == Directory(p) ==> !Present(files, Directory(p)))
      && (Temporary(p) != Directory(p) ==> (Present(copied, Directory(p)) <==> Present(files, Directory(p))))
      && (!Present(files, Directory(p)) ==> Target(p) !in files)
  {
    hide Moved, Present;
    NotPresentNotThere(files, Temporary(p), p.name);
    MovingAdditionPlacesIt(files, Temporary(p), Directory(p), p.name, p.contents);
    PresentAfterCopy(files, p);
    if !Present(files, Directory(p)) {
      NotPresentNotThere(files, Directory(p), p.name);
    }
  }

  /** Removing the directory for preparation leaves no trace of an attempt that failed. */
  lemma {:induction false} CleanedUp(hash: bytes -> hexdigest, before: Files, after: Files, p: Placement)
    requires !Present(before, Temporary(p))
    requires after == before || PartlyCopied(before, after, Temporary(p) + [p.name], p.contents) ||
             PutInPlace(hash, before, after, p)
    ensures Preserved(before, after) && AddsOnlyComplete(hash, before, after, p)
    ensures Preserved(before, WithoutTree(after, Temporary(p)))
    ensures AddsOnlyComplete(hash, before, WithoutTree(after, Temporary(p)), p)
  {
    assert forall q :: q in before ==> !(Temporary(p) <= q);
  }

  lemma {:induction false} CleanedUpExactly(files: Files, p: Placement)
    requires !Present(files, Temporary(p))
    ensures WithoutTree(files[Temporary(p) + [p.name] := p.contents], Temporary(p)) == files
  {
    RemovingAdditionRestores(files, Temporary(p), Temporary(p) + [p.name], p.contents);
  }

  lemma {:induction false} PresentAfterCopy(files: Files, p: Placement)
    requires !Present(files, Temporary(p))
    ensures Temporary(p) == Directory(p) ==> !Present(files, Directory(p))
    ensures Temporary(p) != Directory(p) ==>
              (Present(files[Temporary(p) + [p.name] := p.contents], Directory(p)) <==> Present(files, Directory(p)))
  {
    var source := Temporary(p) + [p.name];
    if Temporary(p) != Directory(p) {
      assert source[..|Temporary(p)|] == Temporary(p);
      assert !(Directory(p) <= source);
      assert source !in files by {
        NotPresentNotThere(files, Temporary(p), p.name);
      }
      forall q | q in files && Directory(p) <= q ensures q in files[source := p.contents] {}
    }
  }

  lemma {:induction false} RestartKeeps(hash: bytes -> hexdigest, dirs: set<Path>, a: Moment, b: Moment)
    requires Traced(dirs, a, b)
    ensures Traced(dirs, a, b.(alive := true))
    ensures Keeps(hash, a, b) ==> Keeps(hash, a, b.(alive := true))
    ensures forall slot :: CheckedBetween(hash, a, b, slot) ==> CheckedBetween(hash, a, b.(alive := true), slot)
  {
    NothingHappened(b, b.(alive := true), dirs);
    TracedTransitive(dirs, dirs, a, b, b.(alive := true));
    hide Activation.VerifySlot, Preserved, Held, Traced;
    forall slot | CheckedBetween(hash, a, b, slot) ensures CheckedBetween(hash, a, b.(alive := true), slot) {
      var i :| |a.checks| <= i < |b.checks| && b.checks[i].slot == slot && Held(a, b, b.checks[i].files)
               && Verifies(hash, b.checks[i].files, slot);
      assert b.(alive := true).checks[i].slot == slot;
    }
  }

  /** The path is that of a slot verified in between. */
  ghost predicate Found(hash: bytes -> hexdigest, a: Moment, b: Moment, path: Path) {
    exists slot :: CheckedBetween(hash, a, b, slot) && path == Components(slot.relativePath)
  }

  lemma {:induction false} FoundLater(hash: bytes -> hexdigest, a: Moment, b: Moment, c: Moment, paths: seq<Path>)
    requires forall slot :: CheckedBetween(hash, a, b, slot) ==> CheckedBetween(hash, a, c, slot)
    requires forall path <- paths :: Found(hash, a, b, path)
    ensures forall path <- paths :: Found(hash, a, c, path)
  {
    hide CheckedBetween, Components;
    forall path <- paths ensures Found(hash, a, c, path) {
      var slot :| CheckedBetween(hash, a, b, slot) && path == Components(slot.relativePath);
      assert CheckedBetween(hash, a, c, slot);
    }
  }

  /** All of them are sourced. */
  lemma {:induction false} FoundIsSourced(hash: bytes -> hexdigest, dirs: set<Path>, a: Moment, b: Moment)
    requires Traced(dirs, a, b)
    ensures forall slot :: CheckedBetween(hash, a, b, slot) ==> Sourced(hash, dirs, a, b, slot)
  {
    hide Traced, CheckedBetween, Sourced;
    forall slot | CheckedBetween(hash, a, b, slot) ensures Sourced(hash, dirs, a, b, slot) {
      CheckedIsSourced(hash, dirs, a, b, slot);
    }
  }

  /** What can be asked of the updater. */
  datatype Command =
    | Install(staged: Option<bytes>, version: string, name: string, expected: string, staging: string)
    | Register(version: string, name: string, activate: bool)
    | Activate
    | Rollback
    | Recover
    | Launch

  /** The state file after an undisturbed recovery. */
  function Repaired(hash: bytes -> hexdigest, files: Files, record: StateFile): StateFile {
    match ReadStateFile(record)
    case Err(_) => record
    case Ok(s) => Written(record, Recovered(hash, files, s))
  }

  function Written(record: StateFile, r: Result<ActivationState, UpdateError>): StateFile {
    match r
    case Err(_) => record
    case Ok(s) => Holds(s)
  }

  /** What an undisturbed command leaves of the version files and the state file, and what it finds. */
  function Effect(
      hash: bytes -> hexdigest, files: Files, record: StateFile, c: Command): (Files, StateFile, Option<Path>) {
    match c
    case Install(staged, version, name, expected, staging) =>
      if staged.None? || !ValidInstall(version, name, expected) then (files, record, None)
      else
        var p := Placement(version, name, staging, staged.value, LowerAscii(expected));
        (match Placed(hash, files, p)
         case Err(_) => (files, record, None)
         case Ok(placed) => (placed, WithPending(record, SlotOf(p)), None))
    case Register(version, name, activate) =>
      var target := VersionDirectory(version) + [name];
      if !SafeComponent(version) || !SafeComponent(name) || target !in files then (files, record, None)
      else
        (files,
         match ReadStateFile(record)
         case Err(_) => record
         case Ok(s) => Holds(WithRegistered(s, NewSlot(version, name, hash(files[target])), activate)),
         None)
    case Activate =>
      (files,
       match ReadStateFile(record)
       case Err(_) => record
       case Ok(s) => Written(record, Activated(hash, files, s)),
       None)
    case Rollback =>
      (files,
       match ReadStateFile(record)
       case Err(_) => record
       case Ok(s) => Written(record, RolledBack(hash, files, s)),
       None)
    case Recover => (files, Repaired(hash, files, record), None)
    case Launch =>
      (files, Repaired(hash, files, record),
       match Launched(hash, files, record)
       case Err(_) => None
       case Ok(path) => Some(path))
  }

  function WithPending(record: StateFile, slot: Slot): StateFile {
    match ReadStateFile(record)
    case Err(_) => record
    case Ok(s) => Holds(s.(pending := Some(slot)))
  }

  /** What undisturbed commands leave, and what they find. */
  function Effects(hash: bytes -> hexdigest, files: Files, record: StateFile, commands: seq<Command>)
    : (Files, StateFile, seq<Path>)
  {
    if commands == [] then (files, record, [])
    else
      var last := |commands| - 1;
      var (f, r, found) := Effects(hash, files, record, commands[..last]);
      var (f', r', path) := Effect(hash, f, r, commands[last]);
      (f', r', if path.Some? then found + [path.value] else found)
  }

  lemma {:induction false} InstalledIsNotChosen(before: StateFile, after: StateFile)
    requires after != before ==> exists s: ActivationState, slot: Slot ::
               (ReadStateFile(before) == Ok(s) || s == DefaultState()) && after == Holds(s.(pending := Some(slot)))
    ensures Chosen(after) <= Chosen(before)
  {
    hide ReadStateFile;
    if after != before {
      var s: ActivationState, slot: Slot :|
        (ReadStateFile(before) == Ok(s) || s == DefaultState()) && after == Holds(s.(pending := Some(slot)));
      ChosenMoves(before, s, slot, false);
    }
  }

  lemma {:induction false} RegisteredIsChosen(
      before: StateFile, after: StateFile, version: string, name: string, activate: bool)
    requires after != before ==> exists s: ActivationState, slot: Slot ::
               Recordable(before, s, slot, version, name) && after == Holds(WithRegistered(s, slot, activate))
    ensures forall slot <- Chosen(after) :: slot in Chosen(before) || slot == NewSlot(version, name, slot.sha256)
  {
    hide ReadStateFile, NewSlot, WithRegistered;
    if after != before {
      var s: ActivationState, slot: Slot :|
        Recordable(before, s, slot, version, name) && after == Holds(WithRegistered(s, slot, activate));
      ChosenMoves(before, s, slot, activate);
    }
  }

  /** Someone asked for this version to be active: by activating what was pending, or by registering it. */
  predicate AskedFor(commands: seq<Command>, slot: Slot) {
    exists c <- commands :: AsksFor(c, slot)
  }

  predicate AsksFor(c: Command, slot: Slot) {
    c.Activate? || (c.Register? && slot == NewSlot(c.version, c.name, slot.sha256))
  }

  lemma {:induction false} StillAskedFor(
      start: set<Slot>, before: set<Slot>, after: set<Slot>, commands: seq<Command>, i: nat)
    requires i < |commands|
    requires forall slot <- before :: slot in start || AskedFor(commands, slot)
    requires forall slot <- after :: slot in before || AsksFor(commands[i], slot)
    ensures forall slot <- after :: slot in start || AskedFor(commands, slot)
  {
    hide AsksFor;
    assert commands[i] in commands;
  }

  /** The path is that of a version that was chosen before or that someone asked for. */
  ghost predicate Legitimate(before: set<Slot>, commands: seq<Command>, path: Path) {
    exists slot :: (slot in before || AskedFor(commands, slot)) && path == Components(slot.relativePath)
  }

  lemma {:induction false} LegitimatePath(before: set<Slot>, commands: seq<Command>, slot: Slot)
    requires slot in before || AskedFor(commands, slot)
    ensures Legitimate(before, commands, Components(slot.relativePath))
  {
    hide AskedFor, Components;
  }

  /** The directories a command works in: only an installation changes version files. */
  function Workplaces(c: Command): set<Path> {
    if c.Install? && c.staged.Some? && ValidInstall(c.version, c.name, c.expected)
    then {VersionDirectory(c.staging), VersionDirectory(c.version)} else {}
  }

  function AllWorkplaces(commands: seq<Command>): (dirs: set<Path>)
    ensures forall c <- commands :: Workplaces(c) <= dirs
  {
    if commands == [] then {} else Workplaces(commands[0]) + AllWorkplaces(commands[1..])
  }

  const BUFFER := 65536

  function Least(a: nat, b: nat): nat {
    if a <= b then a else b
  }

  /** How many reads hashing a file of that length takes. */
  function HashTurns(length: nat): (n: nat)
    ensures n >= 1
  {
    if length == 0 then 1 else 1 + HashTurns(length - Least(BUFFER, length))
  }

  class Updater {
    const hash: bytes -> hexdigest
    var files: Files
    var record: StateFile
    var draft: StateFile  // the state file being prepared under a temporary name
    var script: seq<Turn>
    var alive: bool
    ghost var checks: seq<Check>  // every successful verification so far
    ghost var history: seq<Change>  // every change of the version files so far
    ghost var overlooked: bool  // the state file was there but was last taken to be missing
    ghost var blindWrites: nat  // how often it was replaced after that

    constructor (hash: bytes -> hexdigest, files: Files, record: StateFile, script: seq<Turn>)
      ensures this.hash == hash && this.files == files && this.record == record && this.script == script
      ensures alive && checks == [] && history == [] && blindWrites == 0
    {
      this.hash := hash;
      this.files := files;
      this.record := record;
      draft := Missing;
      this.script := script;
      alive := true;
      checks := [];
      history := [];
      overlooked := false;
      blindWrites := 0;
    }

    ghost function Now(): Moment
      reads this
    {
      Moment(files, script, alive, checks, history)
    }

    /** Time went by while the updater worked in the given directories only. */
    twostate predicate Later(dirs: set<Path>)
      reads this
    {
      Proceeds(old(Now()), Now()) && Passes(hash, dirs, old(Now()), Now())
    }

    /** The slot was verified since, when its file had its digest. */
    twostate predicate JustChecked(slot: Slot)
      reads this
    {
      CheckedBetween(hash, old(Now()), Now(), slot)
    }

    /** The updater changed version files in the given directories only. The state file was not changed,
        or only to one whose slots were listed before or verified since, and what was verified had its
        file from others unless it is in those directories; without tampering it stays sound; and it keeps
        having an active version unless it was replaced after it had been overlooked. */
    twostate predicate Lawful(dirs: set<Path>)
      reads this
    {
      && Later(dirs)
      && (forall slot :: JustChecked(slot) ==> Sourced(hash, dirs, old(Now()), Now(), slot))
      && (forall slot <- Listed(record) :: slot in old(Listed(record)) || JustChecked(slot))
      && (Untampered(old(script)) && old(SoundFile(hash, files, record)) ==> SoundFile(hash, files, record))
      && blindWrites >= old(blindWrites)
      && (Readable(old(script)) ==> blindWrites == old(blindWrites))
      && (old(HasActive(record)) && !HasActive(record) ==> blindWrites > old(blindWrites))
    }

    /** That many operations went by, and nothing happened to the version files. */
    twostate predicate CalmlyTook(n: nat)
      reads this
    {
      alive && files == old(files) && script == Drop(old(script), n)
    }

    // -------------------------------------------------------------- file operations

    /** The next turn. A crashed process can do nothing. */
    method Next() returns (canRead: bool, canWrite: bool)
      modifies `files, `history, `script, `alive
      ensures Later({})
      ensures script == if old(alive) then Rest(old(script)) else old(script)
      ensures alive == (old(alive) && !Crashes(old(script)))
      ensures canRead == (old(alive) && Reads(old(script)))
      ensures canWrite == (old(alive) && Writes(old(script)))
      ensures Untampered(old(script)) ==> files == old(files)
      ensures old(alive) && Calm(old(script), 1) ==> CalmlyTook(1) && canRead && canWrite
      ensures Readable(old(script)) && alive ==> canRead
      ensures Undisturbed(old(script)) && old(alive) ==> canRead && canWrite && files == old(files)
    {
      hide Keeps, Traced, Calm, Drop, Untampered, Readable, Undisturbed;
      ghost var start := Now();
      OneTurn(script);
      CalmTurn(script);
      KeepsFiles(hash, start, start);
      NothingHappened(start, start, {});
      if !alive {
        return false, false;
      }
      if script == [] {
        return true, true;
      }
      var t := script[0];
      script := script[1..];
      alive := !t.crashes;
      if t.rewrite.Some? {
        files := t.rewrite.value;
        history := history + [Change(files, false)];
      }
      TurnTaken(start, Now());
      KeepsFiles(hash, start, Now());
      return alive && t.canRead, alive && t.canWrite;
    }

    method MayRead() returns (ok: bool)
      modifies `files, `history, `script, `alive
      ensures Later({})
      ensures script == if old(alive) then Rest(old(script)) else old(script)
      ensures alive == (old(alive) && !Crashes(old(script)))
      ensures ok == (old(alive) && Reads(old(script)))
      ensures ok ==> alive
      ensures old(alive) && Calm(old(script), 1) ==> CalmlyTook(1) && ok
      ensures Untampered(old(script)) ==> files == old(files)
      ensures Readable(old(script)) && alive ==> ok
      ensures Undisturbed(old(script)) && old(alive) ==> ok && files == old(files)
    {
      var canWrite;
      ok, canWrite := Next();
    }

    method MayWrite() returns (ok: bool)
      modifies `files, `history, `script, `alive
      ensures Later({})
      ensures script == if old(alive) then Rest(old(script)) else old(script)
      ensures alive == (old(alive) && !Crashes(old(script)))
      ensures ok == (old(alive) && Writes(old(script)))
      ensures ok ==> alive
      ensures old(alive) && Calm(old(script), 1) ==> CalmlyTook(1) && ok
      ensures Untampered(old(script)) ==> files == old(files)
      ensures Undisturbed(old(script)) && old(alive) ==> ok && files == old(files)
    {
      var canRead;
      canRead, ok := Next();
    }

    /** Changes the version files by one operation. */
    method ChangeFiles(after: Files, ghost dirs: set<Path>)
      requires OwnStep(dirs, files, after)
      modifies `files, `history
      ensures files == after
      ensures Proceeds(old(Now()), Now()) && Traced(dirs, old(Now()), Now())
    {
      ghost var start := Now();
      files := after;
      history := history + [Change(after, true)];
      StepTaken(dirs, start, Now());
    }

    /** The install root is there and is a directory, as far as the process can tell. */
    method OpenRoot() returns (r: Result<(), UpdateError>)
      modifies `files, `history, `script, `alive
      ensures Later({})
      ensures script == if old(alive) then Rest(old(script)) else old(script)
      ensures alive == (old(alive) && !Crashes(old(script)))
      ensures r.Ok? <==> old(alive) && Reads(old(script))
      ensures r.Ok? ==> alive
      ensures old(alive) && Calm(old(script), 1) ==> CalmlyTook(1) && r.Ok?
      ensures Untampered(old(script)) ==> files == old(files)
      ensures Undisturbed(old(script)) && old(alive) ==> r.Ok? && files == old(files)
    {
      var canRead := MayRead();
      return if canRead then Ok(()) else Err(InvalidConfiguration);
    }

    /** Whether something is at a path; an error counts as nothing. */
    method Exists(path: Path) returns (present: bool)
      modifies `files, `history, `script, `alive
      ensures Later({})
      ensures Untampered(old(script)) ==> files == old(files)
      ensures present ==> alive && Present(files, path)
      ensures old(alive) && Calm(old(script), 1) ==> CalmlyTook(1) && present == Present(files, path)
      ensures Undisturbed(old(script)) && old(alive) ==> files == old(files) && present == Present(files, path)
    {
      var canRead := MayRead();
      return canRead && Present(files, path);
    }

    /** The digest of a file, read through a buffer. An open file keeps its octets, those it had in
        `seen`, even if the version files are rewritten meanwhile. */
    method HashFile(path: Path) returns (r: Result<hexdigest, UpdateError>, ghost seen: Files)
      modifies `files, `history, `script, `alive
      ensures Later({})
      ensures Untampered(old(script)) ==> files == old(files)
      ensures r.Ok? ==> alive && path in seen && r.value == hash(seen[path])
      ensures Held(old(Now()), Now(), seen) && (Untampered(old(script)) ==> seen == files)
      ensures old(alive) && path in old(files) && Calm(old(script), 1 + HashTurns(|old(files)[path]|)) ==>
                CalmlyTook(1 + HashTurns(|old(files)[path]|)) && r == Ok(hash(old(files)[path])) && seen == files
      ensures r.Err? ==> r.error == Verification
      ensures Undisturbed(old(script)) && old(alive) ==> files == old(files) && (r.Ok? <==> path in files)
    {
      hide Keeps, Traced, Untampered, Readable, Undisturbed, Calm, Drop, HashTurns;
      ghost var start := Now();
      UndisturbedIsUntampered(script);
      if path in files && Calm(script, 1 + HashTurns(|files[path]|)) {
        CalmSplit(script, 1, HashTurns(|files[path]|));
      }
      var canRead := MayRead();
      seen := files;
      HeldNow(start, Now());
      if !canRead || path !in files {
        return Err(Verification), seen;
      }
      ghost var before := Now();
      r := HashContents(files[path]);
      TimePasses(hash, {}, start);
      HeldThroughout(start, before, Now(), seen);
    }

    method HashContents(contents: bytes) returns (r: Result<hexdigest, UpdateError>)
      modifies `files, `history, `script, `alive
      ensures Later({})
      ensures Untampered(old(script)) ==> files == old(files)
      ensures r == Ok(hash(contents)) || r == Err(Verification)
      ensures r.Ok? && old(alive) ==> alive
      ensures old(alive) && Calm(old(script), HashTurns(|contents|)) ==>
                CalmlyTook(HashTurns(|contents|)) && r == Ok(hash(contents))
      ensures Undisturbed(old(script)) && old(alive) ==> r.Ok?
    {
      hide Passes, Untampered, Readable, Undisturbed, Calm, Drop;
      ghost var start := Now();
      TimePasses(hash, {}, start);
      var hashed: bytes := [];
      ghost var taken: nat := 0;
      CalmTurn(script);
      while true
        invariant |hashed| <= |contents| && hashed == contents[..|hashed|]
        invariant Later({})
        invariant Untampered(old(script)) ==> files == old(files)
        invariant taken + HashTurns(|contents| - |hashed|) == HashTurns(|contents|)
        invariant old(alive) && Calm(old(script), HashTurns(|contents|)) ==> CalmlyTook(taken)
        decreases |contents| - |hashed|
      {
        if Calm(old(script), HashTurns(|contents|)) {
          CalmSplit(old(script), taken, HashTurns(|contents| - |hashed|));
          CalmSplit(Drop(old(script), taken), 1, HashTurns(|contents| - |hashed|) - 1);
          CalmSplit(old(script), taken + 1, HashTurns(|contents| - |hashed|) - 1);
          CalmSplit(old(script), taken, 1);
        }
        var canRead := MayRead();
        taken := taken + 1;
        if !canRead {
          return Err(Verification);
        }
        var count := Least(BUFFER, |contents| - |hashed|);
        if count == 0 {
          assert contents[..|contents|] == contents;
          return Ok(hash(hashed));
        }
        hashed := hashed + contents[|hashed|..|hashed| + count];
      }
    }

    /** Verifies a slot: its name, its place below the root, and its digest. */
    method VerifySlot(slot: Slot) returns (r: Result<(), UpdateError>)
      modifies `files, `history, `script, `alive, `checks
      ensures Later({})
      ensures Untampered(old(script)) ==> files == old(files)
      ensures r.Ok? ==>
                alive && |checks| == |old(checks)| + 1 && checks == old(checks) + [Check(slot, checks[|checks| - 1].files)]
      ensures r.Ok? ==>
                var seen := checks[|checks| - 1].files;
                && Held(old(Now()), Now(), seen) && (Untampered(old(script)) ==> seen == files)
                && Verifies(hash, seen, slot)
                && ValidSlot(slot) && Components(slot.relativePath) in seen
                && hash(seen[Components(slot.relativePath)]) == slot.sha256
      ensures r.Ok? ==> JustChecked(slot)
      ensures old(alive) && ValidSlot(slot) && Components(slot.relativePath) in old(files) &&
              Calm(old(script), 2 + HashTurns(|old(files)[Components(slot.relativePath)]|)) ==>
                && CalmlyTook(2 + HashTurns(|old(files)[Components(slot.relativePath)]|))
                && r == Activation.VerifySlot(hash, files, slot)
      ensures r.Err? ==> checks == old(checks)
      ensures Undisturbed(old(script)) && old(alive) ==>
                files == old(files) && r == Activation.VerifySlot(hash, files, slot)
    {
      hide ValidSlot, Components, Calm, Drop, HashTurns, Keeps, Traced, Held, Untampered, Readable, Undisturbed;
      ghost var start := Now();
      UndisturbedIsUntampered(script);
      TimePasses(hash, {}, start);
      if !ValidSlot(slot) {
        return Err(InvalidActivationState);
      }
      var target := Components(slot.relativePath);
      if target in files && Calm(script, 2 + HashTurns(|files[target]|)) {
        CalmSplit(script, 1, 1 + HashTurns(|files[target]|));
      }
      var canRead := MayRead();
      if !canRead || target !in files {
        return Err(Verification);
      }
      ghost var before := Now();
      var h, seen := HashFile(target);
      if h.Err? || h.value != slot.sha256 {
        return Err(Verification);
      }
      HeldThroughout(start, before, Now(), seen);
      CheckMade(hash, start, Now(), slot, seen);
      checks := checks + [Check(slot, seen)];
      return Ok(());
    }

    /** Reads the state file. One that cannot be found counts as missing, even if it is there. */
    method ReadState() returns (r: Result<ActivationState, UpdateError>)
      modifies `files, `history, `script, `alive, `overlooked
      ensures Later({})
      ensures overlooked == (old(alive) && !record.Missing? && Overlooks(old(script)))
      ensures overlooked ==> r == Ok(DefaultState()) && alive && script == Rest(old(script)) && !Readable(old(script))
      ensures r.Ok? && alive && !overlooked ==> ReadStateFile(record) == r
      ensures Untampered(old(script)) ==> files == old(files)
      ensures r.Ok? ==> ReadStateFile(record) == r || r.value == DefaultState()
      ensures r.Ok? ==> ValidState(r.value) && Slots(r.value) <= Listed(record)
      ensures r.Ok? && SoundFile(hash, files, record) ==> Sound(hash, files, r.value)
      ensures Undisturbed(old(script)) && old(alive) ==> files == old(files) && r == ReadStateFile(record)
    {
      hide Passes;
      TimePasses(hash, {}, Now());
      ghost var start := alive;
      var canRead := MayRead();
      overlooked := start && alive && !canRead && !record.Missing?;
      if !canRead || record.Missing? {
        return Ok(DefaultState());
      }
      canRead := MayRead();
      if !canRead || record.Unreadable? || !ValidState(record.state) {
        return Err(InvalidActivationState);
      }
      return Ok(record.state);
    }

    method ReadActivationState() returns (r: Result<ActivationState, UpdateError>)
      modifies `files, `history, `script, `alive, `overlooked
      ensures Later({})
      ensures overlooked == (old(alive) && !record.Missing? && Reads(old(script)) && Overlooks(Rest(old(script))))
      ensures overlooked ==> r == Ok(DefaultState()) && alive && script == Rest(Rest(old(script))) && !Readable(old(script))
      ensures r.Ok? && alive && !overlooked ==> ReadStateFile(record) == r
      ensures Untampered(old(script)) ==> files == old(files)
      ensures r.Ok? ==> ReadStateFile(record) == r || r.value == DefaultState()
      ensures r.Ok? ==> ValidState(r.value) && Slots(r.value) <= Listed(record)
      ensures r.Ok? && SoundFile(hash, files, record) ==> Sound(hash, files, r.value)
      ensures Undisturbed(old(script)) && old(alive) ==> files == old(files) && r == ReadStateFile(record)
    {
      hide Passes, Untampered, Readable, Undisturbed, ValidState, Sound, Slots;
      TimePasses(hash, {}, Now());
      overlooked := false;
      var _ :- OpenRoot();
      r := ReadState();
    }

    /** Writes a new state file under a temporary name; what was written of it is removed after a failure. */
    method PrepareState(s: ActivationState) returns (ok: bool)
      modifies `files, `history, `script, `alive, `draft
      ensures Later({})
      ensures Untampered(old(script)) ==> files == old(files)
      ensures ok <==> old(alive) && Writes(old(script)) && Writes(Rest(old(script)))
      ensures ok ==> alive && draft == Holds(s) && script == Rest(Rest(old(script)))
      ensures !ok && alive && old(draft).Missing? ==> draft.Missing?
      ensures Undisturbed(old(script)) && old(alive) ==> ok && files == old(files)
    {
      hide Passes, Calm, Drop, CalmlyTook, Reads, Overlooks, Untampered, Readable, Undisturbed, Crashes, Writes, Rest;
      TimePasses(hash, {}, Now());
      ok := MayWrite();
      if !ok {
        return;
      }
      draft := Unreadable;
      ok := MayWrite();
      draft := if ok then Holds(s) else if alive then Missing else draft;
    }

    /** Replaces the state file: writes a new one under a temporary name and renames it into place.
        The rename is the only step that changes what a later read sees. */
    method WriteState(s: ActivationState) returns (r: Result<(), UpdateError>)
      modifies `files, `history, `script, `alive, `record, `draft, `blindWrites
      ensures Later({})
      ensures Untampered(old(script)) ==> files == old(files)
      ensures if ValidState(s) && old(alive) && WritesThrice(old(script))
              then record == Holds(s) && blindWrites == old(blindWrites) + (if overlooked then 1 else 0)
              else record == old(record) && blindWrites == old(blindWrites)
      ensures r.Ok? ==> alive && record == Holds(s) && ValidState(s)
      ensures r.Err? ==> r.error == if ValidState(s) then Installation else InvalidActivationState
      ensures old(alive) ==>
                (r.Ok? <==> ValidState(s) && WritesThrice(old(script)) && Writes(Rest(Rest(Rest(old(script))))))
      ensures alive && old(draft).Missing? ==> draft.Missing?
      ensures Undisturbed(old(script)) && old(alive) ==>
                files == old(files) && r == (if ValidState(s) then Ok(()) else Err(InvalidActivationState))
    {
      hide Passes, Calm, Drop, CalmlyTook, Reads, Overlooks, ValidState, Untampered, Readable, Undisturbed, Crashes,
        Writes, Rest;
      TimePasses(hash, {}, Now());
      if !ValidState(s) {
        return Err(InvalidActivationState);
      }
      var canWrite := PrepareState(s);
      if !canWrite {
        return Err(Installation);
      }
      canWrite := MayWrite();
      if !canWrite {
        draft := if alive then Missing else draft;
        return Err(Installation);
      }
      record, draft := draft, Missing;
      if overlooked {
        blindWrites := blindWrites + 1;
      }
      canWrite := MayWrite();
      return if canWrite then Ok(()) else Err(Installation);
    }

    // -------------------------------------------------------------- transitions

    /** What the transitions keep, about the state that was read and a slot that verifies. */
    lemma {:induction false} SeenStateMoves(seen: ActivationState, slot: Slot, activate: bool)
      requires ValidState(seen) && ValidSlot(slot)
      ensures seen.pending.Some? ==>
                ValidState(Promoted(seen)) && Slots(Promoted(seen)) <= Slots(seen) && Promoted(seen).active.Some?
      ensures seen.previous.Some? ==>
                ValidState(Reverted(seen)) && Slots(Reverted(seen)) <= Slots(seen) && Reverted(seen).active.Some?
      ensures ValidState(seen.(pending := Some(slot))) && ValidState(WithRegistered(seen, slot, activate))
      ensures Slots(seen.(pending := Some(slot))) <= Slots(seen) + {slot}
      ensures Slots(WithRegistered(seen, slot, activate)) <= Slots(seen) + {slot}
      ensures WithRegistered(seen, slot, activate).active.Some?
      ensures Sound(hash, files, seen) && Verifies(hash, files, slot) ==>
                && (seen.pending.Some? ==> Sound(hash, files, Promoted(seen)))
                && (seen.previous.Some? ==> Sound(hash, files, Reverted(seen)))
                && Sound(hash, files, seen.(pending := Some(slot)))
                && Sound(hash, files, WithRegistered(seen, slot, activate))
    {
      hide ValidSlot, Verifies;
      if Sound(hash, files, seen) {
        TransitionsKeepSoundness(hash, files, seen, slot, activate);
      }
    }

    method ActivatePending() returns (r: Result<ActivationState, UpdateError>)
      modifies this
      ensures Lawful({})
      ensures record != old(record) ==>
                && ReadStateFile(old(record)).Ok?
                && (var s := ReadStateFile(old(record)).value;
                    s.pending.Some? && JustChecked(s.pending.value) && record == Holds(Promoted(s)))
      ensures blindWrites == old(blindWrites)
      ensures r.Ok? ==> alive && record == Holds(r.value)
      ensures Undisturbed(old(script)) && old(alive) ==>
                match ReadStateFile(old(record))
                case Err(e) => r == Err(e) && record == old(record)
                case Ok(s) => r == Activated(hash, files, s) && (r.Err? ==> record == old(record))
      ensures Untampered(old(script)) ==> files == old(files)
    {
      hide Passes, CheckedBetween, Sourced, Held, Calm, Drop, HashTurns, Crashes, Reads, Writes, Overlooks, Rest,
        WritesThrice, Untampered, Readable, Undisturbed, Activation.VerifySlot, ValidState, ValidSlot, Sound, Slots,
        Promoted, Reverted, Components, SafeComponent, Forgets, ReadStateFile, Attested;
      TimePasses(hash, {}, Now());
      var _ :- OpenRoot();
      var state :- ReadActivationState();
      if state.pending.None? {
        return Err(NoPendingUpdate);
      }
      var pending := state.pending.value;
      var _ :- VerifySlot(pending);
      SeenStateMoves(state, pending, true);
      state := Promote(state, pending);
      var _ :- WriteState(state);
      return Ok(state);
    }

    static method Promote(seen: ActivationState, pending: Slot) returns (state: ActivationState)
      requires seen.pending == Some(pending)
      ensures state == Promoted(seen)
    {
      state := seen;
      state := state.(previous := state.active);
      state := state.(active := Some(pending));
      state := state.(pending := None);
    }

    static method Revert(seen: ActivationState, previous: Slot) returns (state: ActivationState)
      requires seen.previous == Some(previous)
      ensures state == Reverted(seen)
    {
      state := seen;
      var active := state.active;
      state := state.(active := Some(previous));
      state := state.(previous := active);
      state := state.(pending := None);
    }

    method Rollback() returns (r: Result<ActivationState, UpdateError>)
      modifies this
      ensures Lawful({})
      ensures record != old(record) ==>
                && ReadStateFile(old(record)).Ok?
                && (var s := ReadStateFile(old(record)).value;
                    s.previous.Some? && JustChecked(s.previous.value) && record == Holds(Reverted(s)))
      ensures blindWrites == old(blindWrites)
      ensures r.Ok? ==> alive && record == Holds(r.value)
      ensures Undisturbed(old(script)) && old(alive) ==>
                match ReadStateFile(old(record))
                case Err(e) => r == Err(e) && record == old(record)
                case Ok(s) => r == RolledBack(hash, files, s) && (r.Err? ==> record == old(record))
      ensures Untampered(old(script)) ==> files == old(files)
    {
      hide Passes, CheckedBetween, Sourced, Held, Calm, Drop, HashTurns, Crashes, Reads, Writes, Overlooks, Rest,
        WritesThrice, Untampered, Readable, Undisturbed, Activation.VerifySlot, ValidState, ValidSlot, Sound, Slots,
        Promoted, Reverted, Components, SafeComponent, Forgets, ReadStateFile, Attested;
      TimePasses(hash, {}, Now());
      var _ :- OpenRoot();
      var state :- ReadActivationState();
      if state.previous.None? {
        return Err(NoRollback);
      }
      var previous := state.previous.value;
      var _ :- VerifySlot(previous);
      SeenStateMoves(state, previous, true);
      state := Revert(state, previous);
      var _ :- WriteState(state);
      return Ok(state);
    }

    method RegisterExistingVersion(version: string, name: string, activate: bool)
      returns (r: Result<ActivationState, UpdateError>)
      modifies this
      ensures Lawful({})
      ensures Untampered(old(script)) ==> files == old(files)
      ensures record != old(record) ==> exists s: ActivationState, slot: Slot ::
                && Recordable(old(record), s, slot, version, name) && JustChecked(slot)
                && record == Holds(WithRegistered(s, slot, activate))
      ensures old(HasActive(record)) ==>
                && HasActive(record)
                && (!activate && blindWrites == old(blindWrites) ==> record.state.active == old(record.state.active))
      ensures blindWrites > old(blindWrites) ==>
                && HasActive(record) && JustChecked(record.state.active.value)
                && record.state == DefaultState().(active := Some(NewSlot(version, name, record.state.active.value.sha256)))
      ensures
        var target := VersionDirectory(version) + [name];
        old(alive) && SafeComponent(version) && SafeComponent(name) && target in old(files) && !old(record).Missing? &&
        ForgetsAfter(old(script), 4 + 2 * HashTurns(|old(files)[target]|)) ==>
          record == Holds(DefaultState().(active := Some(NewSlot(version, name, hash(old(files)[target])))))
      ensures r.Ok? ==> alive && record == Holds(r.value) && SafeComponent(version) && SafeComponent(name)
      ensures Undisturbed(old(script)) && old(alive) ==>
                var target := VersionDirectory(version) + [name];
                if !SafeComponent(version) || !SafeComponent(name) then
                  r == Err(InvalidConfiguration) && record == old(record)
                else if target !in files then r == Err(Verification) && record == old(record)
                else
                  match ReadStateFile(old(record))
                  case Err(e) => r == Err(e) && record == old(record)
                  case Ok(s) => r == Ok(WithRegistered(s, NewSlot(version, name, hash(files[target])), activate))
    {
      hide Passes, CheckedBetween, Sourced, Held, Calm, Drop, HashTurns, ForgetsAfter, Crashes, Reads, Writes,
        Overlooks, Rest, WritesThrice, Untampered, Readable, Undisturbed, Verifies, ValidState, Sound, SafeComponent,
        ValidSlot, NewSlot, WithRegistered, Slots;
      UndisturbedIsUntampered(script);
      TimePasses(hash, {}, Now());
      ghost var target := VersionDirectory(version) + [name];
      if target in files && ForgetsAfter(script, 4 + 2 * HashTurns(|files[target]|)) {
        ForgettingLater(script, 1, 3 + 2 * HashTurns(|files[target]|));
        ForgettingLater(Drop(script, 1), 3 + 2 * HashTurns(|files[target]|), 0);
      }
      var _ :- OpenRoot();
      if !SafeComponent(version) || !SafeComponent(name) {
        return Err(InvalidConfiguration);
      }
      var slot :- HashedSlot(version, name);
      ForgettingNow(script);
      r := EnterRegistered(slot, activate);
    }

    /** Enters a slot in the state. */
    method EnterRegistered(slot: Slot, activate: bool) returns (r: Result<ActivationState, UpdateError>)
      requires ValidSlot(slot)
      modifies `files, `history, `script, `alive, `overlooked, `record, `draft, `blindWrites
      ensures Later({})
      ensures Untampered(old(script)) ==> files == old(files)
      ensures record != old(record) ==> exists s: ActivationState ::
                && (ReadStateFile(old(record)) == Ok(s) || s == DefaultState())
                && record == Holds(WithRegistered(s, slot, activate))
      ensures Listed(record) <= old(Listed(record)) + {slot}
      ensures Untampered(old(script)) && old(SoundFile(hash, files, record)) && Verifies(hash, old(files), slot) ==>
                SoundFile(hash, files, record)
      ensures old(HasActive(record)) ==>
                && HasActive(record)
                && (!activate && blindWrites == old(blindWrites) ==> record.state.active == old(record.state.active))
      ensures blindWrites >= old(blindWrites) && (Readable(old(script)) ==> blindWrites == old(blindWrites))
      ensures blindWrites > old(blindWrites) <==>
                old(alive) && !old(record).Missing? && Overlooks(old(script)) && WritesThrice(Rest(old(script)))
      ensures blindWrites > old(blindWrites) ==> record == Holds(DefaultState().(active := Some(slot)))
      ensures r.Ok? ==> alive && record == Holds(r.value)
      ensures Undisturbed(old(script)) && old(alive) ==>
                match ReadStateFile(old(record))
                case Err(e) => r == Err(e) && record == old(record)
                case Ok(s) => r == Ok(WithRegistered(s, slot, activate))
    {
      hide Passes, CheckedBetween, Sourced, Held, Calm, Drop, HashTurns, Crashes, Reads, Writes, Overlooks, Rest,
        WritesThrice, Untampered, Readable, Undisturbed, Verifies, ValidState, Sound, ValidSlot, WithRegistered,
        Slots;
      TimePasses(hash, {}, Now());
      var state :- ReadState();
      SeenStateMoves(state, slot, activate);
      RegisteringDefault(state, slot, activate);
      state := Register(state, slot, activate);
      var _ :- WriteState(state);
      return Ok(state);
    }

    lemma {:induction false} RegisteringDefault(seen: ActivationState, slot: Slot, activate: bool)
      ensures seen == DefaultState() ==> WithRegistered(seen, slot, activate) == seen.(active := Some(slot))
      ensures seen.active.Some? && !activate ==> WithRegistered(seen, slot, activate).active == seen.active
    {
    }

    /** The slot of a version that is there already, with the digest its file has now. */
    method HashedSlot(version: string, name: string) returns (r: Result<Slot, UpdateError>)
      requires SafeComponent(version) && SafeComponent(name)
      modifies `files, `history, `script, `alive, `checks
      ensures Later({})
      ensures Untampered(old(script)) ==> files == old(files)
      ensures r.Ok? ==>
                && r.value == NewSlot(version, name, r.value.sha256)
                && ValidSlot(r.value) && JustChecked(r.value)
                && (Untampered(old(script)) ==> Verifies(hash, files, r.value))
      ensures
        var target := VersionDirectory(version) + [name];
        old(alive) && target in old(files) && Calm(old(script), 3 + 2 * HashTurns(|old(files)[target]|)) ==>
          && CalmlyTook(3 + 2 * HashTurns(|old(files)[target]|))
          && r == Ok(NewSlot(version, name, hash(old(files)[target])))
      ensures Undisturbed(old(script)) && old(alive) ==>
                && files == old(files)
                && var target := VersionDirectory(version) + [name];
                   r == if target in files then Ok(NewSlot(version, name, hash(files[target]))) else Err(Verification)
    {
      hide Passes, CheckedBetween, Sourced, Held, Calm, Drop, HashTurns, Crashes, Reads, Writes, Overlooks, Rest,
        WritesThrice, Untampered, Readable, Undisturbed, Activation.VerifySlot, SafeComponent, ValidSlot, Components;
      UndisturbedIsUntampered(script);
      TimePasses(hash, {}, Now());
      var target := VersionDirectory(version) + [name];
      if target in files && Calm(script, 3 + 2 * HashTurns(|files[target]|)) {
        CalmSplit(script, 1 + HashTurns(|files[target]|), 2 + HashTurns(|files[target]|));
      }
      var digest, seen :- HashFile(target);
      var slot := NewSlot(version, name, digest);
      FreshSlotVerifies(version, name, digest);
      var _ :- VerifySlot(slot);
      return Ok(slot);
    }

    static method Register(seen: ActivationState, slot: Slot, activate: bool) returns (state: ActivationState)
      ensures state == WithRegistered(seen, slot, activate)
    {
      state := seen;
      if state.active.None? {
        state := state.(active := Some(slot));
      } else if state.active != Some(slot) {
        state := state.(pending := Some(slot));
        if activate {
          var pending := state.pending;
          state := state.(pending := None);
          state := state.(previous := state.active);
          state := state.(active := pending);
        }
      }
    }

    lemma {:induction false} FreshSlotVerifies(version: string, name: string, sha256: string)
      requires SafeComponent(version) && SafeComponent(name) && ValidDigest(sha256)
      ensures ValidSlot(NewSlot(version, name, sha256))
      ensures Components(NewSlot(version, name, sha256).relativePath) == VersionDirectory(version) + [name]
      ensures
        var target := VersionDirectory(version) + [name];
        Activation.VerifySlot(hash, files, NewSlot(version, name, sha256)) ==
          if target in files && hash(files[target]) == sha256 then Ok(()) else Err(Verification)
    {
      hide ValidSlot, SafeComponent;
      NewSlotIsValid(version, name, sha256);
    }

    /** The slot, unless it is there and cannot be verified. */
    method IfIntact(slot: Option<Slot>) returns (kept: Option<Slot>)
      modifies `files, `history, `script, `alive, `checks
      ensures Later({})
      ensures Untampered(old(script)) ==> files == old(files)
      ensures kept == None || kept == slot
      ensures kept.Some? ==> JustChecked(kept.value)
      ensures slot.None? ==> script == old(script) && alive == old(alive)
      ensures Undisturbed(old(script)) && old(alive) ==>
                files == old(files) && kept == IfVerified(hash, files, slot)
    {
      if slot.None? {
        return None;
      }
      var v := VerifySlot(slot.value);
      return if v.Ok? then slot else None;
    }

    lemma {:induction false} FewerSlots(seen: ActivationState, state: ActivationState)
      requires ValidState(seen) && state.formatVersion == seen.formatVersion
      requires Slots(state) <= Slots(seen)
      ensures ValidState(state)
      ensures Sound(hash, files, seen) && (state.previous.Some? ==> seen.previous.Some?) &&
              (seen.active.Some? ==> state.active.Some?) ==>
                Sound(hash, files, state)
    {
      hide Verifies, ValidSlot;
    }

    /** Finds out which slots of a state can stay. Those that do were just verified. */
    method Repair(seen: ActivationState) returns (r: Result<ActivationState, UpdateError>)
      modifies `files, `history, `script, `alive, `checks
      ensures Later({})
      ensures Untampered(old(script)) ==> files == old(files)
      ensures r.Ok? ==>
                && Slots(r.value) <= Slots(seen) && r.value.formatVersion == seen.formatVersion
                && (r.value.active.Some? <==> seen.active.Some?)
                && (r.value.previous.Some? ==> seen.previous.Some?)
                && (|| (r.value.active == seen.active && (r.value.previous.None? || r.value.previous == seen.previous))
                    || (r.value.active == seen.previous && r.value.previous.None?))
                && (r.value.pending.None? || r.value.pending == seen.pending)
                && forall slot <- Slots(r.value) :: JustChecked(slot)
      ensures seen == DefaultState() ==> r == Ok(seen) && script == old(script) && alive == old(alive)
      ensures Undisturbed(old(script)) && old(alive) ==> files == old(files) && r == Recovered(hash, files, seen)
    {
      hide Passes, CheckedBetween, Sourced, Held, Calm, Drop, HashTurns, Crashes, Reads, Writes, Overlooks, Rest,
        WritesThrice, Untampered, Readable, Undisturbed, Activation.VerifySlot, ValidSlot;
      TimePasses(hash, {}, Now());
      var state := seen;
      var kept := IfIntact(state.pending);
      state := state.(pending := kept);
      kept := IfIntact(state.active);
      if state.active.Some? && kept.None? {
        if state.previous.None? {
          return Err(InvalidActivationState);
        }
        var previous := state.previous.value;
        var _ :- VerifySlot(previous);
        state := state.(active := Some(previous));
        state := state.(previous := None);
      } else {
        kept := IfIntact(state.previous);
        state := state.(previous := kept);
      }
      return Ok(state);
    }

    /** Repairs the state. Every slot that it leaves in a changed state file was listed before and
        has just been verified. */
    method Recover() returns (r: Result<ActivationState, UpdateError>)
      modifies this
      ensures Lawful({})
      ensures Untampered(old(script)) ==> files == old(files)
      ensures record != old(record) ==> forall slot <- Listed(record) :: JustChecked(slot)
      ensures old(HasActive(record)) ==> (!HasActive(record) <==> blindWrites > old(blindWrites))
      ensures old(HasActive(record)) ==> (!HasActive(record) <==> old(alive) && Forgets(old(script)))
      ensures blindWrites > old(blindWrites) ==> record == Holds(DefaultState())
      ensures Chosen(record) <= old(Chosen(record))
      ensures record != old(record) ==> record.Holds?
      ensures record != old(record) && record.state.pending.Some? ==>
                old(record).Holds? && record.state.pending == old(record).state.pending
      ensures r.Ok? ==> alive && record == Holds(r.value)
      ensures r.Ok? ==> forall slot <- Slots(r.value) :: slot in old(Listed(record)) && JustChecked(slot)
      ensures Undisturbed(old(script)) && old(alive) ==>
                match ReadStateFile(old(record))
                case Err(e) => r == Err(e) && record == old(record)
                case Ok(s) => r == Recovered(hash, files, s) && (r.Err? ==> record == old(record))
    {
      hide Passes, CheckedBetween, Sourced, Held, Calm, Drop, HashTurns, Writes, Overlooks, Rest, WritesThrice,
        Untampered, Readable, Undisturbed, Verifies, ValidState, Sound, Slots, Recovered;
      TimePasses(hash, {}, Now());
      var _ :- OpenRoot();
      var seen :- ReadActivationState();
      var state :- Repair(seen);
      FewerSlots(seen, state);
      var _ :- WriteState(state);
      return Ok(state);
    }

    /** Finds the executable to start. It is the file of a slot that was listed before, whose octets
        had the recorded digest when they were last looked at. */
    method ActiveTarget() returns (r: Result<Path, UpdateError>)
      modifies this
      ensures Lawful({})
      ensures Untampered(old(script)) ==> files == old(files)
      ensures Chosen(record) <= old(Chosen(record))
      ensures r.Ok? ==>
                && |checks| > |old(checks)| && alive
                && (var last := checks[|checks| - 1];
                    && Attested(hash, last)
                    && HasActive(record) && record.state.active == Some(last.slot)
                    && last.slot in old(Listed(record)) && last.slot in old(Chosen(record))
                    && r.value == Components(last.slot.relativePath)
                    && JustChecked(last.slot) && Held(old(Now()), Now(), last.files)
                    && Given(old(Now()), Now(), last.files) && r.value in last.files
                    && hash(last.files[r.value]) == last.slot.sha256)
      ensures old(HasActive(record)) ==> (!HasActive(record) <==> blindWrites > old(blindWrites))
      ensures old(HasActive(record)) ==>
                (!HasActive(record) <==> old(alive) && Reads(old(script)) && Forgets(Rest(old(script))))
      ensures blindWrites > old(blindWrites) ==> r.Err? && record == Holds(DefaultState())
      ensures Undisturbed(old(script)) && old(alive) ==>
                r == Launched(hash, files, old(record)) && record == Repaired(hash, files, old(record))
    {
      hide Passes, CheckedBetween, Sourced, Held, Calm, Drop, HashTurns, Attested, Writes, Overlooks, Rest,
        WritesThrice, Untampered, Readable, Undisturbed, Activation.VerifySlot, ValidSlot, Components, Sound,
        Recovered;
      UndisturbedIsUntampered(script);
      TimePasses(hash, {}, Now());
      var _ :- OpenRoot();
      var state :- Recover();
      if state.active.None? {
        return Err(InvalidActivationState);
      }
      var active := state.active.value;
      if Undisturbed(old(script)) && old(alive) {
        RecoveryLeavesVerifiedSlots(hash, files, ReadStateFile(old(record)).value);
      }
      r := Resolve(active);
      if r.Ok? {
        LastCheck(hash, old(Now()), Now());
      }
    }

    /** The path of a slot's file, after one more verification. */
    method Resolve(slot: Slot) returns (r: Result<Path, UpdateError>)
      modifies `files, `history, `script, `alive, `checks
      ensures Later({})
      ensures Untampered(old(script)) ==> files == old(files)
      ensures r.Ok? ==>
                && alive && |checks| > |old(checks)| && checks[|checks| - 1].slot == slot
                && r.value == Components(slot.relativePath)
      ensures Undisturbed(old(script)) && old(alive) ==>
                r == if Verifies(hash, files, slot) then Ok(Components(slot.relativePath))
                     else Err(Activation.VerifySlot(hash, files, slot).error)
    {
      hide Passes, Crashes, Reads, Untampered, Readable, Undisturbed, ValidSlot, Components, Held, Rest;
      TimePasses(hash, {}, Now());
      UndisturbedIsUntampered(script);
      var _ :- VerifySlot(slot);
      var target := Components(slot.relativePath);
      QuietAndPresent(script, files, target);
      var present := Exists(target);
      return if present then Ok(target) else Err(InvalidActivationState);
    }

    // -------------------------------------------------------------- installation

    method CreateDirectory(path: Path) returns (r: Result<(), UpdateError>)
      modifies `files, `history, `script, `alive
      ensures Later({})
      ensures Untampered(old(script)) ==> files == old(files)
      ensures r.Ok? ==> !Present(files, path)
      ensures r.Err? ==> r.error == Installation
      ensures Undisturbed(old(script)) && old(alive) ==> files == old(files) && (r.Ok? <==> !Present(files, path))
    {
      var canWrite := MayWrite();
      return if canWrite && !Present(files, path) then Ok(()) else Err(Installation);
    }

    method RemoveTree(path: Path, ghost dirs: set<Path>)
      requires path in dirs
      modifies `files, `history, `script, `alive
      ensures Proceeds(old(Now()), Now()) && Traced(dirs, old(Now()), Now())
      ensures Untampered(old(script)) ==> files == old(files) || files == WithoutTree(old(files), path)
      ensures Undisturbed(old(script)) && old(alive) ==> files == WithoutTree(old(files), path)
    {
      TracesCompose(dirs, Now());
      hide Traced;
      var canWrite := MayWrite();
      if canWrite {
        ChangeFiles(WithoutTree(files, path), dirs);
      }
    }

    /** Renames a directory, which fails if there is something else at the destination. */
    method Rename(from: Path, to: Path, ghost dirs: set<Path>) returns (r: Result<(), UpdateError>)
      requires from in dirs && to in dirs
      modifies `files, `history, `script, `alive
      ensures Proceeds(old(Now()), Now()) && Traced(dirs, old(Now()), Now())
      ensures r.Err? ==> r.error == Installation && (Untampered(old(script)) ==> files == old(files))
      ensures r.Ok? && Untampered(old(script)) ==>
                if from == to then files == old(files)
                else !Present(old(files), to) && files == Moved(old(files), from, to)
      ensures Undisturbed(old(script)) && old(alive) ==> (r.Ok? <==> from == to || !Present(old(files), to))
    {
      TracesCompose(dirs, Now());
      hide Traced;
      var canWrite := MayWrite();
      if !canWrite || (from != to && Present(files, to)) {
        return Err(Installation);
      }
      if from != to {
        ChangeFiles(Moved(files, from, to), dirs);
      }
      return Ok(());
    }

    /** Copies the rest of a file through a buffer, collecting what is hashed on the way. */
    method CopyLoop(source: bytes, destination: Path, ghost dirs: set<Path>)
      returns (r: Result<bytes, UpdateError>, ghost copied: bytes)
      requires Below(dirs, destination)
      modifies `files, `history, `script, `alive
      ensures Proceeds(old(Now()), Now()) && Traced(dirs, old(Now()), Now())
      ensures copied <= source
      ensures Untampered(old(script)) && destination in old(files) && old(files)[destination] == [] ==>
                files == old(files)[destination := copied]
      ensures r.Ok? ==> r.value == source == copied
      ensures Undisturbed(old(script)) && old(alive) ==> r.Ok?
    {
      hide Untampered, Undisturbed, Readable, Traced, OwnStep, Present, Reads, Writes, Crashes, Rest;
      TracesCompose(dirs, Now());
      var hashed: bytes := [];
      while true
        invariant hashed <= source
        invariant Proceeds(old(Now()), Now()) && Traced(dirs, old(Now()), Now())
        invariant Untampered(old(script)) && destination in old(files) && old(files)[destination] == [] ==>
                    files == old(files)[destination := hashed]
        decreases |source| - |hashed|
      {
        copied := hashed;
        var ok := MayRead();
        if !ok {
          return Err(Installation), copied;
        }
        var count := Least(BUFFER, |source| - |hashed|);
        if count == 0 {
          return Ok(hashed), copied;
        }
        var buffer := source[|hashed|..|hashed| + count];
        hashed := hashed + buffer;
        ok := MayWrite();
        if !ok {
          return Err(Installation), copied;
        }
        if destination in files {
          ExtendingIsOwnStep(dirs, files, destination, buffer);
          ChangeFiles(files[destination := files[destination] + buffer], dirs);
        }
      }
    }

    /** Opens the source and makes a new empty file. */
    method CreateFile(destination: Path, ghost dirs: set<Path>) returns (ok: bool)
      requires Below(dirs, destination)
      modifies `files, `history, `script, `alive
      ensures Proceeds(old(Now()), Now()) && Traced(dirs, old(Now()), Now())
      ensures Untampered(old(script)) ==>
                files == (if ok then old(files)[destination := []] else old(files)) && (ok ==> destination !in old(files))
      ensures Undisturbed(old(script)) && old(alive) ==> (ok <==> !Present(old(files), destination))
      ensures ok ==> destination in files
    {
      hide Keeps, Traced, OwnStep, Crashes, Reads, Writes, Rest, Untampered, Undisturbed, Readable, Present;
      TracesCompose(dirs, Now());
      UndisturbedIsUntampered(script);
      ok := MayRead();
      if !ok {
        return;
      }
      ok := MayWrite();
      QuietAndPresent(script, files, destination);
      if !ok || Present(files, destination) {
        return false;
      }
      MakingIsOwnStep(dirs, files, destination);
      ChangeFiles(files[destination := []], dirs);
    }

    /** Copies a file to a new one, and compares the digest of what was read. */
    method CopyAndVerify(source: bytes, destination: Path, expected: string, ghost dirs: set<Path>)
      returns (r: Result<(), UpdateError>)
      requires Below(dirs, destination)
      modifies `files, `history, `script, `alive
      ensures Later(dirs)
      ensures Untampered(old(script)) ==> files == old(files) || PartlyCopied(old(files), files, destination, source)
      ensures r.Ok? ==> hash(source) == expected
      ensures r.Ok? && Untampered(old(script)) ==> destination !in old(files) && files == old(files)[destination := source]
      ensures Undisturbed(old(script)) && old(alive) && !Present(old(files), destination) ==>
                && files == old(files)[destination := source]
                && r == if hash(source) == expected then Ok(()) else Err(Verification)
    {
      hide Keeps, Traced, Crashes, Reads, Writes, Rest, Untampered, Undisturbed, Readable, PartlyCopied, Present;
      ghost var start := Now();
      TracesCompose(dirs, start);
      UndisturbedIsUntampered(script);
      var ok := CreateFile(destination, dirs);
      if !ok {
        KeepsFiles(hash, start, Now());
        return Err(Installation);
      }
      var read, copied := CopyLoop(source, destination, dirs);
      CopiedSoFar(hash, start, Now(), destination, source, copied);
      var hashed :- read;
      if hash(hashed) != expected {
        return Err(Verification);
      }
      ok := MayWrite();
      CopiedSoFar(hash, start, Now(), destination, source, copied);
      return if ok then Ok(()) else Err(Installation);
    }

    /** Prepares the version under the temporary name and renames it into place. */
    method CopyIntoPlace(p: Placement) returns (r: Result<(), UpdateError>)
      modifies `files, `history, `script, `alive
      ensures Proceeds(old(Now()), Now()) && Traced(Workplace(p), old(Now()), Now())
      ensures Untampered(old(script)) && !Present(old(files), Temporary(p)) ==>
                || files == old(files)
                || PartlyCopied(old(files), files, Temporary(p) + [p.name], p.contents)
                || PutInPlace(hash, old(files), files, p)
      ensures Undisturbed(old(script)) && old(alive) && !Present(old(files), Temporary(p)) ==>
                if hash(p.contents) == p.expected && !Present(old(files), Directory(p))
                then r == Ok(()) && files == old(files)[Target(p) := p.contents]
                else r == Err(if hash(p.contents) != p.expected then Verification else Installation) &&
                     files == old(files)[Temporary(p) + [p.name] := p.contents]
    {
      hide Keeps, Traced, Moved, Untampered, Undisturbed, Readable, Present, WithoutTree, PartlyCopied;
      ghost var start := files;
      TracesCompose(Workplace(p), Now());
      QuietAndPresent(script, files, Target(p));
      if !Present(start, Temporary(p)) {
        PlacementByMove(start, p);
      }
      assert Below(Workplace(p), Temporary(p) + [p.name]);
      var _ :- CopyAndVerify(p.contents, Temporary(p) + [p.name], p.expected, Workplace(p));
      var ok := MayWrite();
      if !ok {
        return Err(Installation);
      }
      var _ :- Rename(Temporary(p), Directory(p), Workplace(p));
      ok := MayWrite();
      return if ok then Ok(()) else Err(Installation);
    }

    /** Makes sure of the directory for versions, and puts a version in place unless it is there already;
        cleans up after a failure. */
    method PlaceVersion(p: Placement) returns (r: Result<(), UpdateError>)
      modifies `files, `history, `script, `alive
      ensures Later(Workplace(p))
      ensures Untampered(old(script)) ==> AddsOnlyComplete(hash, old(files), files, p)
      ensures Untampered(old(script)) && SoundFile(hash, old(files), record) ==> SoundFile(hash, files, record)
      ensures old(alive) && Target(p) in old(files) && hash(old(files)[Target(p)]) == p.expected &&
              Calm(old(script), 3 + HashTurns(|old(files)[Target(p)]|)) ==>
                CalmlyTook(3 + HashTurns(|old(files)[Target(p)]|)) && r.Ok?
      ensures Undisturbed(old(script)) && old(alive) ==>
                match Placed(hash, old(files), p)
                case Err(e) => r == Err(e) && files == old(files)
                case Ok(placed) => r.Ok? && files == placed
    {
      hide Keeps, Traced, Workplace, Calm, Drop, HashTurns, Crashes, Reads, Writes, Rest, Untampered, Undisturbed,
        Readable, Present, WithoutTree, PartlyCopied, PutInPlace, Preserved, AddsOnlyComplete;
      ghost var start := Now();
      TracesCompose(Workplace(p), start);
      TimePasses(hash, Workplace(p), start);
      QuietAndPresent(script, files, Target(p));
      UnchangedAddsNothing(hash, files, p);
      if Target(p) in files && Calm(script, 3 + HashTurns(|files[Target(p)]|)) {
        CalmSplit(script, 1, 2 + HashTurns(|files[Target(p)]|));
        CalmSplit(Drop(script, 1), 1, 1 + HashTurns(|files[Target(p)]|));
        CalmSplit(script, 2, 1 + HashTurns(|files[Target(p)]|));
      }
      var ok := MayWrite();
      if !ok {
        return Err(Installation);
      }
      var there := Exists(Target(p));
      if there {
        var digest, seen :- HashFile(Target(p));
        return if digest == p.expected then Ok(()) else Err(Installation);
      }
      var _ :- CreateDirectory(Temporary(p));
      r := CopyIntoPlace(p);
      if Untampered(start.script) {
        CleanedUp(hash, start.files, files, p);
        CleanedUpExactly(start.files, p);
      }
      if r.Err? {
        RemoveTree(Temporary(p), Workplace(p));
      }
      KeepsFiles(hash, start, Now());
      SoundFileStays(hash, start.files, files, record);
    }

    /** Installs a staged file as a version and records it as pending. */
    method InstallVerifiedTarget(staged: Option<bytes>, version: string, name: string, expected: string, staging: string)
      returns (r: Result<Path, UpdateError>)
      modifies this
      ensures Lawful(Workplaces(Install(staged, version, name, expected, staging)))
      ensures staged.None? || !ValidInstall(version, name, expected) ==>
                record == old(record) && (Untampered(old(script)) ==> files == old(files))
                && r == Err(if ValidInstall(version, name, expected) then Installation else InvalidConfiguration)
      ensures old(HasActive(record)) ==> (!HasActive(record) <==> blindWrites > old(blindWrites))
      ensures staged.Some? && ValidInstall(version, name, expected) ==>
                var p := Placement(version, name, staging, staged.value, LowerAscii(expected));
                && (Untampered(old(script)) ==> AddsOnlyComplete(hash, old(files), files, p))
                && (record != old(record) ==> JustChecked(SlotOf(p)) && exists s: ActivationState ::
                      Recordable(old(record), s, SlotOf(p), version, name) &&
                      record == Holds(s.(pending := Some(SlotOf(p)))))
                && (blindWrites > old(blindWrites) ==> record == Holds(DefaultState().(pending := Some(SlotOf(p)))))
                && (old(alive) && Target(p) in old(files) && hash(old(files)[Target(p)]) == p.expected &&
                    !old(record).Missing? &&
                    ForgetsAfter(old(script), 6 + 2 * HashTurns(|old(files)[Target(p)]|)) ==>
                      record == Holds(DefaultState().(pending := Some(SlotOf(p)))))
                && (r.Ok? ==> alive && r.value == Target(p) && record.Holds? && record.state.pending == Some(SlotOf(p)))
                && (Undisturbed(old(script)) && old(alive) ==>
                      match Placed(hash, old(files), p)
                      case Err(e) => r == Err(e) && files == old(files) && record == old(record)
                      case Ok(placed) =>
                        && files == placed
                        && (if ReadStateFile(old(record)).Err?
                            then r == Err(ReadStateFile(old(record)).error) && record == old(record)
                            else r == Ok(Target(p)) &&
                                 record == Holds(ReadStateFile(old(record)).value.(pending := Some(SlotOf(p))))))
    {
      hide Passes, CheckedBetween, Sourced, ForgetsAfter, HashTurns, AddsOnlyComplete, Placed, Untampered, Readable,
        Undisturbed;
      TimePasses(hash, {}, Now());
      if !ValidInstall(version, name, expected) {
        return Err(InvalidConfiguration);
      }
      if staged.None? {
        return Err(Installation);
      }
      LowercaseDigestIsValid(expected);
      r := PlaceAndRecord(Placement(version, name, staging, staged.value, LowerAscii(expected)));
    }

    method PlaceAndRecord(p: Placement) returns (r: Result<Path, UpdateError>)
      requires ValidInstall(p.version, p.name, p.expected)
      modifies this
      ensures Lawful(Workplace(p))
      ensures old(HasActive(record)) ==> (!HasActive(record) <==> blindWrites > old(blindWrites))
      ensures Untampered(old(script)) ==> AddsOnlyComplete(hash, old(files), files, p)
      ensures record != old(record) ==> JustChecked(SlotOf(p)) && exists s: ActivationState ::
                Recordable(old(record), s, SlotOf(p), p.version, p.name) && record == Holds(s.(pending := Some(SlotOf(p))))
      ensures blindWrites > old(blindWrites) ==> record == Holds(DefaultState().(pending := Some(SlotOf(p))))
      ensures old(alive) && Target(p) in old(files) && hash(old(files)[Target(p)]) == p.expected && !old(record).Missing? &&
              ForgetsAfter(old(script), 6 + 2 * HashTurns(|old(files)[Target(p)]|)) ==>
                record == Holds(DefaultState().(pending := Some(SlotOf(p))))
      ensures r.Ok? ==> alive && r.value == Target(p) && record.Holds? && record.state.pending == Some(SlotOf(p))
      ensures Undisturbed(old(script)) && old(alive) ==>
                match Placed(hash, old(files), p)
                case Err(e) => r == Err(e) && files == old(files) && record == old(record)
                case Ok(placed) =>
                  && files == placed
                  && (if ReadStateFile(old(record)).Err?
                      then r == Err(ReadStateFile(old(record)).error) && record == old(record)
                      else r == Ok(Target(p)) &&
                           record == Holds(ReadStateFile(old(record)).value.(pending := Some(SlotOf(p)))))
    {
      hide Passes, CheckedBetween, Sourced, Workplace, Calm, Drop, HashTurns, ForgetsAfter, Components, Crashes,
        Reads, Writes, Rest, Untampered, Readable, Undisturbed, Activation.VerifySlot, ValidState, ValidSlot, Sound,
        Slots, AddsOnlyComplete, Placed, SafeComponent, ValidDigest;
      ghost var before := files;
      TimePasses(hash, Workplace(p), Now());
      UndisturbedIsUntampered(script);
      UnchangedAddsNothing(hash, files, p);
      if Target(p) in files && ForgetsAfter(script, 6 + 2 * HashTurns(|files[Target(p)]|)) {
        ForgettingLater(script, 3 + HashTurns(|files[Target(p)]|), 3 + HashTurns(|files[Target(p)]|));
      }
      var _ :- PlaceVersion(p);
      FreshSlotVerifies(p.version, p.name, p.expected);
      if Placed(hash, before, p).Ok? {
        PlacedVerifies(hash, before, p);
      }
      var _ :- RecordPending(SlotOf(p));
      return Ok(Target(p));
    }

    method RecordPending(slot: Slot) returns (r: Result<(), UpdateError>)
      requires ValidSlot(slot)
      modifies this
      ensures Lawful({})
      ensures Untampered(old(script)) ==> files == old(files)
      ensures record != old(record) ==> JustChecked(slot) && exists s: ActivationState ::
                && (ReadStateFile(old(record)) == Ok(s) || s == DefaultState())
                && record == Holds(s.(pending := Some(slot)))
      ensures old(HasActive(record)) ==> (!HasActive(record) <==> blindWrites > old(blindWrites))
      ensures blindWrites > old(blindWrites) ==> record == Holds(DefaultState().(pending := Some(slot)))
      ensures old(alive) && Verifies(hash, old(files), slot) && Components(slot.relativePath) in old(files) &&
              !old(record).Missing? &&
              ForgetsAfter(old(script), 3 + HashTurns(|old(files)[Components(slot.relativePath)]|)) ==>
                record == Holds(DefaultState().(pending := Some(slot)))
      ensures r.Ok? ==> alive && record.Holds? && record.state.pending == Some(slot)
      ensures Undisturbed(old(script)) && old(alive) ==>
                if !Verifies(hash, files, slot) then
                  r == Activation.VerifySlot(hash, files, slot) && record == old(record)
                else
                  match ReadStateFile(old(record))
                  case Err(e) => r == Err(e) && record == old(record)
                  case Ok(s) => r == Ok(()) && record == Holds(s.(pending := Some(slot)))
    {
      hide Passes, CheckedBetween, Sourced, Held, Calm, Drop, HashTurns, ForgetsAfter, Components, Forgets, Rest, Reads,
        Overlooks, WritesThrice, Untampered, Readable, Undisturbed, Activation.VerifySlot, ValidState, ValidSlot, Sound,
        Slots;
      UndisturbedIsUntampered(script);
      TimePasses(hash, {}, Now());
      ghost var target := Components(slot.relativePath);
      if target in files && ForgetsAfter(script, 3 + HashTurns(|files[target]|)) {
        ForgettingLater(script, 2 + HashTurns(|files[target]|), 1);
        ForgettingNow(Drop(script, 2 + HashTurns(|files[target]|)));
      }
      var _ :- VerifySlot(slot);
      r := EnterPending(slot);
    }

    /** Enters a slot as the pending one. */
    method EnterPending(slot: Slot) returns (r: Result<(), UpdateError>)
      requires ValidSlot(slot)
      modifies `files, `history, `script, `alive, `overlooked, `record, `draft, `blindWrites
      ensures Later({})
      ensures Untampered(old(script)) ==> files == old(files)
      ensures record != old(record) ==> exists s: ActivationState ::
                && (ReadStateFile(old(record)) == Ok(s) || s == DefaultState())
                && record == Holds(s.(pending := Some(slot)))
      ensures Listed(record) <= old(Listed(record)) + {slot}
      ensures Untampered(old(script)) && old(SoundFile(hash, files, record)) && Verifies(hash, old(files), slot) ==>
                SoundFile(hash, files, record)
      ensures blindWrites >= old(blindWrites) && (Readable(old(script)) ==> blindWrites == old(blindWrites))
      ensures blindWrites > old(blindWrites) <==>
                && old(alive) && !old(record).Missing? && Reads(old(script))
                && Overlooks(Rest(old(script))) && WritesThrice(Rest(Rest(old(script))))
      ensures old(HasActive(record)) ==> (!HasActive(record) <==> blindWrites > old(blindWrites))
      ensures blindWrites > old(blindWrites) ==> record == Holds(DefaultState().(pending := Some(slot)))
      ensures r.Ok? ==> alive && record.Holds? && record.state.pending == Some(slot)
      ensures Undisturbed(old(script)) && old(alive) ==>
                match ReadStateFile(old(record))
                case Err(e) => r == Err(e) && record == old(record)
                case Ok(s) => r == Ok(()) && record == Holds(s.(pending := Some(slot)))
    {
      hide Passes, Calm, Drop, Crashes, Reads, Writes, Overlooks, Rest, WritesThrice, Untampered, Readable, Undisturbed,
        Verifies, ValidState, ValidSlot, Sound, Slots;
      TimePasses(hash, {}, Now());
      var state :- ReadActivationState();
      SeenStateMoves(state, slot, false);
      assert ReadStateFile(old(record)) == Ok(state) || state == DefaultState();
      state := state.(pending := Some(slot));
      var _ :- WriteState(state);
      return Ok(());
    }

    // -------------------------------------------------------------- whole runs

    /** A command takes away the active version exactly if it is one that installs, recovers or launches,
        overlooks the state file, and replaces it all the same. */
    method Execute(c: Command) returns (found: Option<Path>)
      modifies this
      ensures Lawful(Workplaces(c))
      ensures found.Some? ==>
                && HasActive(record)
                && JustChecked(record.state.active.value)
                && record.state.active.value in old(Chosen(record))
                && found.value == Components(record.state.active.value.relativePath)
      ensures found.Some? ==> c.Launch?
      ensures Undisturbed(old(script)) && old(alive) ==>
                (files, record, found) == Effect(hash, old(files), old(record), c)
      ensures forall slot <- Chosen(record) ::
                slot in old(Chosen(record)) || (c.Activate? && old(record).Holds? && old(record).state.pending == Some(slot))
                || (c.Register? && slot == NewSlot(c.version, c.name, slot.sha256))
      ensures old(HasActive(record)) ==>
                (!HasActive(record) <==> blindWrites > old(blindWrites) && (c.Install? || c.Recover? || c.Launch?))
    {
      hide Passes, Sourced, Untampered, Readable, Undisturbed, Attested, Components;
      UndisturbedIsUntampered(script);
      found := None;
      match c {
        case Install(staged, version, name, expected, staging) =>
          var r := InstallVerifiedTarget(staged, version, name, expected, staging);
          InstalledIsNotChosen(old(record), record);
        case Register(version, name, activate) =>
          var r := RegisterExistingVersion(version, name, activate);
          RegisteredIsChosen(old(record), record, version, name, activate);
        case Activate =>
          var r := ActivatePending();
          if record != old(record) {
            var s := ReadStateFile(old(record)).value;
            ChosenMoves(old(record), s, s.pending.value, true);
          }
        case Rollback =>
          var r := Rollback();
          if record != old(record) {
            var s := ReadStateFile(old(record)).value;
            ChosenMoves(old(record), s, s.previous.value, true);
          }
        case Recover =>
          var r := Recover();
        case Launch =>
          var r := ActiveTarget();
          if r.Ok? {
            found := Some(r.value);
            assert checks[|checks| - 1].slot == record.state.active.value;
          }
      }
    }

    /** Any sequence of commands, each run by a process of its own. Whatever crashes, fails or is
        rewritten in between, every slot that the state file lists in the end was listed at the start
        or had been verified while its file was there with its digest, and so had every version that
        was found for starting. Without tampering no version file changes and the state stays sound; and
        unless the state file is replaced after it was overlooked, an install root with an active
        version keeps having one. */
    method Run(commands: seq<Command>) returns (found: seq<Path>)
      modifies this
      ensures Keeps(hash, old(Now()), Now()) && Traced(AllWorkplaces(commands), old(Now()), Now())
      ensures forall slot :: JustChecked(slot) ==>
                Sourced(hash, AllWorkplaces(commands), old(Now()), Now(), slot)
      ensures forall slot <- Listed(record) :: slot in old(Listed(record)) || JustChecked(slot)
      ensures forall path <- found :: Found(hash, old(Now()), Now(), path)
      ensures forall slot <- Chosen(record) :: slot in old(Chosen(record)) || AskedFor(commands, slot)
      ensures forall path <- found :: Legitimate(old(Chosen(record)), commands, path)
      ensures Untampered(old(script)) && old(SoundFile(hash, files, record)) ==> SoundFile(hash, files, record)
      ensures blindWrites >= old(blindWrites) && (Readable(old(script)) ==> blindWrites == old(blindWrites))
      ensures blindWrites == old(blindWrites) && old(HasActive(record)) ==> HasActive(record)
      ensures Untampered(old(script)) ==> Untampered(script)
      ensures Undisturbed(old(script)) ==> (files, record, found) == Effects(hash, old(files), old(record), commands)
    {
      hide Effect, Chosen, AskedFor, Legitimate, Keeps, Traced, CheckedBetween, Sourced, AllWorkplaces, Workplaces,
        Untampered, Readable, Undisturbed, Sound, Slots, Components;
      ghost var start, dirs := Now(), AllWorkplaces(commands);
      TimePasses(hash, dirs, start);
      found := [];
      for i := 0 to |commands|
        invariant Keeps(hash, start, Now()) && Traced(dirs, start, Now())
        invariant Untampered(start.script) ==> Untampered(script)
        invariant Undisturbed(start.script) ==>
                    Undisturbed(script) && (files, record, found) == Effects(hash, old(files), old(record), commands[..i])
        invariant Readable(start.script) ==> Readable(script)
        invariant forall slot <- Listed(record) :: slot in old(Listed(record)) || JustChecked(slot)
        invariant forall path <- found :: Found(hash, start, Now(), path)
        invariant forall slot <- Chosen(record) :: slot in old(Chosen(record)) || AskedFor(commands, slot)
        invariant forall path <- found :: Legitimate(old(Chosen(record)), commands, path)
        invariant Untampered(start.script) && old(SoundFile(hash, files, record)) ==> SoundFile(hash, files, record)
        invariant blindWrites >= old(blindWrites) && (Readable(start.script) ==> blindWrites == old(blindWrites))
        invariant blindWrites == old(blindWrites) && old(HasActive(record)) ==> HasActive(record)
      {
        ghost var before := Now();
        RestartKeeps(hash, dirs, start, before);
        alive := true;
        ghost var mid, chosen := Now(), Chosen(record);
        FoundLater(hash, start, before, mid, found);
        var path := Execute(commands[i]);
        assert commands[..i + 1][..i] == commands[..i];
        StillAskedFor(old(Chosen(record)), chosen, Chosen(record), commands, i);
        TracedTransitive(dirs, Workplaces(commands[i]), start, mid, Now());
        KeepsTransitive(hash, dirs, Workplaces(commands[i]), start, mid, Now());
        FoundLater(hash, start, mid, Now(), found);
        if path.Some? {
          LegitimatePath(old(Chosen(record)), commands, record.state.active.value);
          found := found + [path.value];
        }
      }
      FoundIsSourced(hash, dirs, start, Now());
      assert commands[..|commands|] == commands;
    }

    /** Once a version is active, launching never fails again: after any commands with any crashes,
        failed reads and failed writes, an undisturbed launch finds an executable with the digest that
        was recorded for it, unless others rewrote the version files or the state file was replaced
        after it had been overlooked. */
    method RunThenLaunch(commands: seq<Command>) returns (r: Result<Path, UpdateError>)
      requires Untampered(script)
      requires SoundFile(hash, files, record) && HasActive(record)
      modifies this
      ensures blindWrites == old(blindWrites) ==>
                && r.Ok? && HasActive(record) && r.value == Components(record.state.active.value.relativePath)
                && r.value in files && hash(files[r.value]) == record.state.active.value.sha256
      ensures Preserved(old(files), files)
    {
      hide Untampered, Readable, Components, Sound;
      var found := Run(commands);
      script := [];
      alive := true;
      assert Undisturbed(script) && Untampered(script) && Readable(script) by {
        NothingLeft();
      }
      assert Preserved(old(files), files);
      if HasActive(record) {
        ActiveIsLaunched(hash, files, record);
      }
      r := ActiveTarget();
    }
  }

  /** Whatever state an install root has, one failed look for its state file makes a launch wipe it. */
  method LaunchForgets(hash: bytes -> hexdigest, files: Files, s: ActivationState) returns (u: Updater)
    requires s.active.Some?
    ensures fresh(u) && u.files == files && u.record == Holds(DefaultState())
  {
    var turns := [QUIET, QUIET, QUIET, Turn(None, false, false, true)];
    u := new Updater(hash, files, Holds(s), turns);
    assert Forgets(Rest(turns)) && Untampered(turns);
    var r := u.ActiveTarget();
  }

  /** Registering a version, without activating it, replaces the active version, whatever it was, when the
      look for the state file fails. */
  method RegistrationForgets(hash: bytes -> hexdigest, files: Files, s: ActivationState, version: string, name: string)
    returns (u: Updater)
    requires s.active.Some? && SafeComponent(version) && SafeComponent(name)
    requires VersionDirectory(version) + [name] in files
    ensures
      var target := VersionDirectory(version) + [name];
      fresh(u) && u.record == Holds(DefaultState().(active := Some(NewSlot(version, name, hash(files[target])))))
  {
    hide SafeComponent, ForgetsAfter, Passes, Sourced, CheckedBetween, Untampered, Readable, Undisturbed, SoundFile,
      Recordable, WithRegistered, HashTurns;
    var target := VersionDirectory(version) + [name];
    u := new Updater(hash, files, Holds(s), CalmThenMiss(4 + 2 * HashTurns(|files[target]|)));
    var r := u.RegisterExistingVersion(version, name, false);
  }

  /** Installing a version that is there already takes away the active version, whatever it was, when the
      look for the state file fails. */
  method InstallationForgets(
      hash: bytes -> hexdigest, files: Files, s: ActivationState, version: string, name: string, staged: bytes)
    returns (u: Updater)
    requires s.active.Some? && SafeComponent(version) && SafeComponent(name)
    requires VersionDirectory(version) + [name] in files
    ensures fresh(u) && !HasActive(u.record)
  {
    hide SafeComponent, ForgetsAfter, Passes, Sourced, CheckedBetween, Placed, AddsOnlyComplete, Untampered, Readable,
      Undisturbed, SoundFile, ValidDigest, HashTurns;
    var target := VersionDirectory(version) + [name];
    var expected := hash(files[target]);
    LowercaseStays(expected);
    u := new Updater(hash, files, Holds(s), CalmThenMiss(6 + 2 * HashTurns(|files[target]|)));
    var r := u.InstallVerifiedTarget(Some(staged), version, name, expected, "staging");
  }

  lemma {:induction false} LowercaseStays(digest: hexdigest)
    ensures ValidDigest(digest) && LowerAscii(digest) == digest
  {
    assert forall i :: 0 <= i < |digest| ==> LowerHex(digest[i]);
  }

  lemma {:induction false} NothingLeft()
    ensures Undisturbed([]) && Untampered([]) && Readable([])
  {
  }

  /** A sound state with an active version launches that version. */
  lemma {:induction false} ActiveIsLaunched(hash: bytes -> hexdigest, files: Files, record: StateFile)
    requires SoundFile(hash, files, record) && HasActive(record)
    ensures
      var slot := record.state.active.value;
      var target := Components(slot.relativePath);
      && Launched(hash, files, record) == Ok(target)
      && target in files && hash(files[target]) == slot.sha256
  {
    hide ValidSlot, Components, Recovered;
    SoundStateNeedsNoRecovery(hash, files, record.state);
    assert Verifies(hash, files, record.state.active.value);
    assert ValidState(record.state) by {
      SoundIsValid(hash, files, record.state);
    }
  }

  lemma {:induction false} SoundIsValid(hash: bytes -> hexdigest, files: Files, s: ActivationState)
    requires Sound(hash, files, s)
    ensures ValidState(s)
  {
    forall slot <- Slots(s) ensures ValidSlot(slot) {
      assert Verifies(hash, files, slot);
    }
  }
}
