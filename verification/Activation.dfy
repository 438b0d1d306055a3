/** The updater's activation state: which slots it accepts, how a slot is verified against the version
    files, and what each transition makes of a state. SHA-256 is the parameter `hash`; its values are
    written as lowercase hexadecimal. */
module Activation {
  import opened Bytes

  /** A path below the install root, as its components. */
  type Path = seq<string>

  type Files = map<Path, bytes>

  predicate LowerHex(c: char) {
    '0' <= c <= '9' || 'a' <= c <= 'f'
  }

  type hexdigest = s: string | |s| == 64 && forall c <- s :: LowerHex(c) witness seq(64, _ => '0')

  datatype UpdateError =
    | InvalidConfiguration | Verification | Installation | InvalidActivationState | NoPendingUpdate | NoRollback

  datatype Slot = Slot(version: string, relativePath: string, sha256: string)

  datatype ActivationState = ActivationState(
    formatVersion: uint32,
    active: Option<Slot>,
    previous: Option<Slot>,
    pending: Option<Slot>)

  function DefaultState(): ActivationState {
    ActivationState(1, None, None, None)
  }

  function Slots(s: ActivationState): set<Slot> {
    (if s.active.Some? then {s.active.value} else {})
    + (if s.previous.Some? then {s.previous.value} else {})
    + (if s.pending.Some? then {s.pending.value} else {})
  }

  // ---------------------------------------------------------------- names and paths

  predicate SafeCharacter(c: char) {
    '0' <= c <= '9' || 'A' <= c <= 'Z' || 'a' <= c <= 'z' || c == '.' || c == '_' || c == '-'
  }

  function UpperAscii(s: string): string {
    seq(|s|, i requires 0 <= i < |s| => if 'a' <= s[i] <= 'z' then (s[i] as int - 32) as char else s[i])
  }

  function LowerAscii(s: string): string {
    seq(|s|, i requires 0 <= i < |s| => if 'A' <= s[i] <= 'Z' then (s[i] as int + 32) as char else s[i])
  }

  function UntilDot(s: string): string {
    if s == "" || s[0] == '.' then "" else [s[0]] + UntilDot(s[1..])
  }

  /** The device names that Windows reserves, with any extension. */
  predicate WindowsReserved(value: string) {
    var stem := UpperAscii(UntilDot(value));
    || stem in ["CON", "PRN", "AUX", "NUL"]
    || (|stem| == 4 && ("COM" <= stem || "LPT" <= stem) && '1' <= stem[3] <= '9')
  }

  predicate SafeComponent(value: string) {
    && 0 < |value| <= 128
    && value != "."
    && value != ".."
    && !WindowsReserved(value)
    && forall c <- value :: SafeCharacter(c)
  }

  predicate ValidDigest(value: string) {
    |value| == 64 && forall c <- value :: LowerHex(c) || 'A' <= c <= 'F'
  }

  /** The pieces of a path between its slashes, the first of them preceded by `part`. */
  function Pieces(path: string, part: string := ""): (r: seq<string>)
    ensures r != []
    decreases |path|
  {
    if path == "" then [part]
    else if path[0] == '/' then [part] + Pieces(path[1..], "")
    else Pieces(path[1..], part + [path[0]])
  }

  function Meaningful(pieces: seq<string>): seq<string> {
    if pieces == [] then []
    else (if pieces[0] in ["", "."] then [] else [pieces[0]]) + Meaningful(pieces[1..])
  }

  /** The components of a relative path: empty pieces and inner dots mean nothing. */
  function Components(path: string): Path {
    Meaningful(Pieces(path))
  }

  /** A relative path without a parent component and without a leading dot. */
  predicate OnlyNormalComponents(path: string) {
    && !("/" <= path)
    && Pieces(path)[0] != "."
    && ".." !in Pieces(path)
  }

  predicate ValidSlot(s: Slot) {
    && SafeComponent(s.version)
    && ValidDigest(s.sha256)
    && OnlyNormalComponents(s.relativePath)
    && "versions/" + s.version + "/" <= s.relativePath
  }

  predicate ValidState(s: ActivationState) {
    s.formatVersion == 1 && forall slot <- Slots(s) :: ValidSlot(slot)
  }

  function NewSlot(version: string, name: string, sha256: string): Slot {
    Slot(version, "versions/" + version + "/" + name, sha256)
  }

  function VersionDirectory(version: string): Path {
    ["versions", version]
  }

  lemma {:induction false} PiecesOfPlain(a: string, rest: string, part: string)
    requires '/' !in a
    ensures Pieces(a + rest, part) == Pieces(rest, part + a)
    decreases |a|
  {
    if a == "" {
      assert a + rest == rest && part + a == part;
    } else {
      assert a[0] in a;
      assert (a + rest)[1..] == a[1..] + rest;
      PiecesOfPlain(a[1..], rest, part + [a[0]]);
      assert part + [a[0]] + a[1..] == part + a;
    }
  }

  lemma {:induction false} PiecesAtSlash(a: string, rest: string)
    requires '/' !in a
    ensures Pieces(a + "/" + rest) == [a] + Pieces(rest)
  {
    PiecesOfPlain(a, "/" + rest, "");
    assert a + "/" + rest == a + ("/" + rest);
    assert ("/" + rest)[1..] == rest;
    assert "" + a == a;
  }

  lemma {:induction false} SafeHasNoSlash(value: string)
    requires SafeComponent(value)
    ensures '/' !in value
  {
  }

  /** A slot made from two safe names and a digest is valid, and names the file of that name in that
      version's directory and no other. */
  lemma {:induction false} NewSlotIsValid(version: string, name: string, sha256: string)
    requires SafeComponent(version) && SafeComponent(name) && ValidDigest(sha256)
    ensures ValidSlot(NewSlot(version, name, sha256))
    ensures Components(NewSlot(version, name, sha256).relativePath) == VersionDirectory(version) + [name]
  {
    var path := "versions/" + version + "/" + name;
    var tail := version + "/" + name;
    SafeHasNoSlash(version);
    SafeHasNoSlash(name);
    assert path == "versions" + "/" + tail;
    PiecesAtSlash("versions", tail);
    PiecesAtSlash(version, name);
    PiecesOfPlain(name, "", "");
    assert name + "" == name && "" + name == name;
    assert Pieces(name) == Pieces("", name) == [name];
    assert Pieces(path) == ["versions", version, name];
    MeaningfulThree("versions", version, name);
    assert path[0] == 'v';
  }

  lemma {:induction false} MeaningfulThree(a: string, b: string, c: string)
    requires a !in ["", "."] && b !in ["", "."] && c !in ["", "."]
    ensures Meaningful([a, b, c]) == [a, b, c]
  {
    assert [a, b, c][1..] == [b, c] && [b, c][1..] == [c] && [c][1..] == [];
    assert Meaningful([c]) == [c];
    assert Meaningful([b, c]) == [b, c];
  }

  /** A valid slot never names anything outside the directory of its own version. */
  lemma {:induction false} ValidSlotStaysInVersion(s: Slot)
    requires ValidSlot(s)
    ensures VersionDirectory(s.version) <= Components(s.relativePath)
    ensures ".." !in Components(s.relativePath)
  {
    var tail := s.relativePath[|"versions/" + s.version + "/"|..];
    SafeHasNoSlash(s.version);
    assert s.relativePath == "versions" + "/" + (s.version + "/" + tail);
    PiecesAtSlash("versions", s.version + "/" + tail);
    PiecesAtSlash(s.version, tail);
    var pieces := Pieces(tail);
    assert Pieces(s.relativePath) == ["versions"] + ([s.version] + pieces);
    MeaningfulConcat(["versions"], [s.version] + pieces);
    MeaningfulConcat([s.version], pieces);
    assert ["versions"][1..] == [] && [s.version][1..] == [];
    assert Meaningful(["versions"]) == ["versions"] && Meaningful([s.version]) == [s.version];
    MeaningfulKeeps(Pieces(s.relativePath));
  }

  lemma {:induction false} MeaningfulConcat(a: seq<string>, b: seq<string>)
    ensures Meaningful(a + b) == Meaningful(a) + Meaningful(b)
    decreases |a|
  {
    if a == [] {
      assert a + b == b;
    } else {
      assert (a + b)[1..] == a[1..] + b;
      MeaningfulConcat(a[1..], b);
    }
  }

  lemma {:induction false} MeaningfulKeeps(pieces: seq<string>)
    ensures forall p <- Meaningful(pieces) :: p in pieces
    decreases |pieces|
  {
    if pieces != [] {
      MeaningfulKeeps(pieces[1..]);
    }
  }

  lemma {:induction false} LowercaseDigestIsValid(value: string)
    requires ValidDigest(value)
    ensures ValidDigest(LowerAscii(value))
  {
    forall c <- LowerAscii(value) ensures LowerHex(c) {
      var i :| 0 <= i < |value| && c == LowerAscii(value)[i];
      assert value[i] in value;
    }
  }

  // ---------------------------------------------------------------- verification

  function VerifySlot(hash: bytes -> hexdigest, files: Files, slot: Slot): Result<(), UpdateError> {
    if !ValidSlot(slot) then Err(InvalidActivationState)
    else
      var target := Components(slot.relativePath);
      if target !in files || hash(files[target]) != slot.sha256 then Err(Verification) else Ok(())
  }

  predicate Verifies(hash: bytes -> hexdigest, files: Files, slot: Slot) {
    VerifySlot(hash, files, slot).Ok?
  }

  /** Every slot is valid and its file has the recorded digest, and a previous version implies an
      active one. */
  predicate Sound(hash: bytes -> hexdigest, files: Files, s: ActivationState) {
    && s.formatVersion == 1
    && (forall slot <- Slots(s) :: Verifies(hash, files, slot))
    && (s.previous.Some? ==> s.active.Some?)
  }

  /** Whatever was there is still there, octet for octet. */
  ghost predicate Preserved(before: Files, after: Files) {
    forall p :: p in before ==> p in after && after[p] == before[p]
  }

  lemma {:induction false} SoundnessIsPreserved(hash: bytes -> hexdigest, before: Files, after: Files, s: ActivationState)
    requires Sound(hash, before, s) && Preserved(before, after)
    ensures Sound(hash, after, s)
  {
    forall slot <- Slots(s) ensures Verifies(hash, after, slot) {
      assert Verifies(hash, before, slot);
    }
  }

  // ---------------------------------------------------------------- transitions

  function Promoted(s: ActivationState): ActivationState {
    s.(active := s.pending, previous := s.active, pending := None)
  }

  function Activated(hash: bytes -> hexdigest, files: Files, s: ActivationState): Result<ActivationState, UpdateError> {
    match s.pending
    case None => Err(NoPendingUpdate)
    case Some(pending) =>
      var _ :- VerifySlot(hash, files, pending);
      Ok(Promoted(s))
  }

  function Reverted(s: ActivationState): ActivationState {
    s.(active := s.previous, previous := s.active, pending := None)
  }

  function RolledBack(hash: bytes -> hexdigest, files: Files, s: ActivationState): Result<ActivationState, UpdateError> {
    match s.previous
    case None => Err(NoRollback)
    case Some(previous) =>
      var _ :- VerifySlot(hash, files, previous);
      Ok(Reverted(s))
  }

  /** The slot, unless it is there and does not verify. */
  function IfVerified(hash: bytes -> hexdigest, files: Files, slot: Option<Slot>): Option<Slot> {
    if slot.Some? && !Verifies(hash, files, slot.value) then None else slot
  }

  function Recovered(hash: bytes -> hexdigest, files: Files, s: ActivationState): Result<ActivationState, UpdateError> {
    var t := s.(pending := IfVerified(hash, files, s.pending));
    if t.active.Some? && !Verifies(hash, files, t.active.value) then
      match t.previous
      case None => Err(InvalidActivationState)
      case Some(previous) =>
        var _ :- VerifySlot(hash, files, previous);
        Ok(t.(active := Some(previous), previous := None))
    else Ok(t.(previous := IfVerified(hash, files, t.previous)))
  }

  /** The state after a slot was registered, which keeps what is active unless told to switch. */
  function WithRegistered(s: ActivationState, slot: Slot, activate: bool): ActivationState {
    if s.active.None? then s.(active := Some(slot))
    else if s.active == Some(slot) then s
    else if activate then s.(active := Some(slot), previous := s.active, pending := None)
    else s.(pending := Some(slot))
  }

  /** Recovery fails in one situation only: the active version does not verify, and there is no
      previous one that does. */
  lemma {:induction false} RecoverySucceedsIff(hash: bytes -> hexdigest, files: Files, s: ActivationState)
    ensures Recovered(hash, files, s).Ok? <==>
            || s.active.None?
            || Verifies(hash, files, s.active.value)
            || (s.previous.Some? && Verifies(hash, files, s.previous.value))
  {
    hide VerifySlot;
  }

  /** Recovery adds no slot, leaves only slots that verify, and keeps the active version if that
      verifies. */
  lemma {:induction false} RecoveryLeavesVerifiedSlots(hash: bytes -> hexdigest, files: Files, s: ActivationState)
    requires Recovered(hash, files, s).Ok?
    ensures
      var r := Recovered(hash, files, s).value;
      && Slots(r) <= Slots(s)
      && (forall slot <- Slots(r) :: Verifies(hash, files, slot))
      && (s.active.Some? <==> r.active.Some?)
      && (s.active.Some? && Verifies(hash, files, s.active.value) ==> r.active == s.active)
      && (s.pending.Some? && Verifies(hash, files, s.pending.value) ==> r.pending == s.pending)
      && ((s.previous.Some? ==> s.active.Some?) ==> (r.previous.Some? ==> r.active.Some?))
  {
    hide VerifySlot;
  }

  /** What recovery makes of each slot. An active version that verifies, or none, stays, and then a previous
      one stays exactly if it verifies. Otherwise the previous version takes its place, and is no longer
      the previous one; never the pending one, which stays exactly if it verifies. */
  lemma {:induction false} RecoverySlotBySlot(hash: bytes -> hexdigest, files: Files, s: ActivationState)
    requires Recovered(hash, files, s).Ok?
    ensures
      var r := Recovered(hash, files, s).value;
      && r.formatVersion == s.formatVersion
      && (if s.active.None? || Verifies(hash, files, s.active.value) then
            && r.active == s.active
            && r.previous == if s.previous.Some? && Verifies(hash, files, s.previous.value) then s.previous else None
          else
            r.active == s.previous && s.previous.Some? && Verifies(hash, files, s.previous.value) && r.previous == None)
      && r.pending == if s.pending.Some? && Verifies(hash, files, s.pending.value) then s.pending else None
  {
    hide VerifySlot;
  }

  /** What activating, rolling back and registering make of each slot, and when they are refused. */
  lemma {:induction false} TransitionsSlotBySlot(
      hash: bytes -> hexdigest, files: Files, s: ActivationState, slot: Slot, activate: bool)
    ensures s.pending.None? ==> Activated(hash, files, s) == Err(NoPendingUpdate)
    ensures s.pending.Some? && !Verifies(hash, files, s.pending.value) ==> Activated(hash, files, s).Err?
    ensures s.pending.Some? && Verifies(hash, files, s.pending.value) ==>
              Activated(hash, files, s) == Ok(ActivationState(s.formatVersion, s.pending, s.active, None))
    ensures s.previous.None? ==> RolledBack(hash, files, s) == Err(NoRollback)
    ensures s.previous.Some? && !Verifies(hash, files, s.previous.value) ==> RolledBack(hash, files, s).Err?
    ensures s.previous.Some? && Verifies(hash, files, s.previous.value) ==>
              RolledBack(hash, files, s) == Ok(ActivationState(s.formatVersion, s.previous, s.active, None))
    ensures WithRegistered(s, slot, activate) ==
              if s.active.None? then ActivationState(s.formatVersion, Some(slot), s.previous, s.pending)
              else if s.active == Some(slot) then s
              else if activate then ActivationState(s.formatVersion, Some(slot), s.active, None)
              else ActivationState(s.formatVersion, s.active, s.previous, Some(slot))
  {
    hide VerifySlot;
  }

  /** A slot verifies exactly if it is valid and its file is there with its digest. */
  lemma {:induction false} WhatVerifies(hash: bytes -> hexdigest, files: Files, slot: Slot)
    ensures Verifies(hash, files, slot) <==>
              && ValidSlot(slot)
              && Components(slot.relativePath) in files
              && hash(files[Components(slot.relativePath)]) == slot.sha256
  {
    hide ValidSlot, Components;
  }

  /** Recovering a recovered state changes nothing. */
  lemma {:induction false} RecoveryIsIdempotent(hash: bytes -> hexdigest, files: Files, s: ActivationState)
    ensures Recovered(hash, files, s).Ok? ==>
              Recovered(hash, files, Recovered(hash, files, s).value) == Recovered(hash, files, s)
  {
    hide VerifySlot;
  }

  lemma {:induction false} SoundStateNeedsNoRecovery(hash: bytes -> hexdigest, files: Files, s: ActivationState)
    requires Sound(hash, files, s)
    ensures Recovered(hash, files, s) == Ok(s)
  {
    hide VerifySlot;
  }

  /** Rolling back twice restores both versions. */
  lemma {:induction false} RollbackTwice(hash: bytes -> hexdigest, files: Files, s: ActivationState)
    requires s.active.Some? && Verifies(hash, files, s.active.value)
    requires s.previous.Some? && Verifies(hash, files, s.previous.value)
    ensures
      var once := RolledBack(hash, files, s);
      && once.Ok? && once.value.active == s.previous && once.value.previous == s.active
      && RolledBack(hash, files, once.value) == Ok(s.(pending := None))
  {
    hide VerifySlot;
  }

  /** A rollback undoes an activation, and remembers the version it left. */
  lemma {:induction false} RollbackUndoesActivation(hash: bytes -> hexdigest, files: Files, s: ActivationState)
    requires Activated(hash, files, s).Ok?
    ensures
      var t := Activated(hash, files, s).value;
      if s.active.Some? && Verifies(hash, files, s.active.value)
      then RolledBack(hash, files, t) == Ok(s.(previous := s.pending, pending := None))
      else RolledBack(hash, files, t).Err?
  {
    hide VerifySlot;
  }

  /** Registering a version activates it if nothing is active, and otherwise leaves the active version
      alone unless told to switch. Switching at once is the same as registering and then activating,
      and a rollback brings the version back that was active. */
  lemma {:induction false} RegisterThenActivate(hash: bytes -> hexdigest, files: Files, s: ActivationState, slot: Slot)
    requires Verifies(hash, files, slot)
    ensures s.active.None? ==> forall now :: WithRegistered(s, slot, now) == s.(active := Some(slot))
    ensures s.active == Some(slot) ==> forall now :: WithRegistered(s, slot, now) == s
    ensures s.active.Some? && s.active != Some(slot) ==>
              && WithRegistered(s, slot, false) == s.(pending := Some(slot))
              && Activated(hash, files, WithRegistered(s, slot, false)) == Ok(WithRegistered(s, slot, true))
              && (Verifies(hash, files, s.active.value) ==>
                    RolledBack(hash, files, WithRegistered(s, slot, true)) ==
                      Ok(s.(previous := Some(slot), pending := None)))
  {
    hide VerifySlot;
  }

  /** What is known of a state's slots one by one holds of every state made from some of them. */
  lemma {:induction false} FewerSlotsStayValid(s: ActivationState, r: ActivationState)
    requires ValidState(s) && Slots(r) <= Slots(s) && r.formatVersion == s.formatVersion
    ensures ValidState(r)
  {
  }

  /** Every transition keeps a valid state valid. */
  lemma {:induction false} TransitionsKeepValidity(
      hash: bytes -> hexdigest, files: Files, s: ActivationState, slot: Slot, activate: bool)
    requires ValidState(s)
    ensures Activated(hash, files, s).Ok? ==> ValidState(Activated(hash, files, s).value)
    ensures RolledBack(hash, files, s).Ok? ==> ValidState(RolledBack(hash, files, s).value)
    ensures Recovered(hash, files, s).Ok? ==> ValidState(Recovered(hash, files, s).value)
    ensures ValidSlot(slot) ==> ValidState(s.(pending := Some(slot))) && ValidState(WithRegistered(s, slot, activate))
  {
    hide VerifySlot, ValidSlot;
    if Recovered(hash, files, s).Ok? {
      RecoveryLeavesVerifiedSlots(hash, files, s);
      FewerSlotsStayValid(s, Recovered(hash, files, s).value);
    }
  }

  /** Every transition keeps a sound state sound, and none deactivates. */
  lemma {:induction false} TransitionsKeepSoundness(
      hash: bytes -> hexdigest, files: Files, s: ActivationState, slot: Slot, activate: bool)
    requires Sound(hash, files, s)
    ensures s.pending.Some? ==> Sound(hash, files, Promoted(s)) && Activated(hash, files, s) == Ok(Promoted(s))
    ensures s.previous.Some? ==> Sound(hash, files, Reverted(s)) && RolledBack(hash, files, s) == Ok(Reverted(s))
    ensures Verifies(hash, files, slot) ==>
              Sound(hash, files, s.(pending := Some(slot))) && Sound(hash, files, WithRegistered(s, slot, activate))
  {
    hide VerifySlot;
    assert s.pending.Some? ==> Verifies(hash, files, s.pending.value);
    assert s.previous.Some? ==> Verifies(hash, files, s.previous.value);
  }

  // ---------------------------------------------------------------- names, once more

  predicate LetterOrDigit(c: char) {
    'A' <= c <= 'Z' || 'a' <= c <= 'z' || '0' <= c <= '9'
  }

  /** Changing case changes the letters of the other case, by 32, and nothing else. */
  lemma {:induction false} WhatCaseChanges(s: string, i: nat)
    requires i < |s|
    ensures |UpperAscii(s)| == |LowerAscii(s)| == |s|
    ensures UpperAscii(s)[i] as int == s[i] as int - (if 'a' <= s[i] <= 'z' then 32 else 0)
    ensures LowerAscii(s)[i] as int == s[i] as int + (if 'A' <= s[i] <= 'Z' then 32 else 0)
  {
  }

  /** A digest is written with 64 hexadecimal digits in either case. */
  lemma {:induction false} WhatDigestsAre(value: string)
    ensures ValidDigest(value) <==> |value| == 64 && forall c <- value :: c in "0123456789abcdefABCDEF"
  {
    forall c: char ensures LowerHex(c) || 'A' <= c <= 'F' <==> c in "0123456789abcdefABCDEF" {
      HexadecimalDigits(c);
    }
    hide LowerHex;
  }

  lemma {:induction false} HexadecimalDigits(c: char)
    ensures LowerHex(c) || 'A' <= c <= 'F' <==> c in "0123456789abcdefABCDEF"
  {
    var digits := "0123456789abcdefABCDEF";
    assert digits[0] == '0' && digits[1] == '1' && digits[2] == '2' && digits[3] == '3' && digits[4] == '4';
    assert digits[5] == '5' && digits[6] == '6' && digits[7] == '7' && digits[8] == '8' && digits[9] == '9';
    assert digits[10] == 'a' && digits[11] == 'b' && digits[12] == 'c' && digits[13] == 'd' && digits[14] == 'e';
    assert digits[15] == 'f' && digits[16] == 'A' && digits[17] == 'B' && digits[18] == 'C' && digits[19] == 'D';
    assert digits[20] == 'E' && digits[21] == 'F';
  }

  lemma {:induction false} PiecesSplit(a: string, b: string, part: string)
    ensures Pieces(a + "/" + b, part) == Pieces(a, part) + Pieces(b)
    decreases |a|
  {
    var path := a + "/" + b;
    if a == "" {
      assert path[1..] == b;
    } else {
      assert path[1..] == a[1..] + "/" + b;
      if a[0] == '/' {
        PiecesSplit(a[1..], b, "");
      } else {
        PiecesSplit(a[1..], b, part + [a[0]]);
      }
    }
  }

  /** The components of a path are those before any of its slashes and those after it; and a piece without
      slashes is one component, unless it is empty or one dot. */
  lemma {:induction false} WhatPathsMean(a: string, b: string, piece: string)
    ensures Components(a + "/" + b) == Components(a) + Components(b)
    ensures '/' !in piece ==> Components(piece) == if piece == "" || piece == "." then [] else [piece]
  {
    PiecesSplit(a, b, "");
    MeaningfulConcat(Pieces(a), Pieces(b));
    if '/' !in piece {
      PiecesOfPlain(piece, "", "");
      assert piece + "" == piece && "" + piece == piece;
      assert Pieces(piece) == Pieces("", piece) == [piece] && [piece][1..] == [];
      assert Meaningful([piece]) == (if piece in ["", "."] then [] else [piece]) + Meaningful([]);
    }
  }

  /** A name may have letters, digits, dots, underscores and hyphens, but must not be one or two dots or a
      device name. */
  lemma {:induction false} WhatNamesAreSafe(value: string)
    ensures SafeComponent(value) <==>
              && 1 <= |value| <= 128
              && value !in [".", ".."]
              && (forall c <- value :: LetterOrDigit(c) || c in "._-")
              && !WindowsReserved(value)
  {
    hide WindowsReserved;
  }

  lemma {:induction false} StemEndsAtDot(value: string)
    ensures '.' !in UntilDot(value) && UntilDot(value) <= value
    ensures UntilDot(value) == value || value[|UntilDot(value)|] == '.'
  {
    if value != "" && value[0] != '.' {
      StemEndsAtDot(value[1..]);
    }
  }

  lemma {:induction false} FourCharacters(s: string, prefix: string)
    requires |prefix| == 3 && |s| == 4
    ensures prefix <= s && '1' <= s[3] <= '9' <==> exists d: char :: '1' <= d <= '9' && s == prefix + [d]
  {
    if prefix <= s {
      assert s == prefix + [s[3]];
    }
  }

  /** A name is reserved exactly if what stands before its first dot is a device name in any case. */
  lemma {:induction false} WhatNamesAreReserved(value: string)
    ensures WindowsReserved(value) <==>
              var stem := UpperAscii(UntilDot(value));
              stem in ["CON", "PRN", "AUX", "NUL"]
              || exists d: char :: '1' <= d <= '9' && (stem == "COM" + [d] || stem == "LPT" + [d])
  {
    var stem := UpperAscii(UntilDot(value));
    hide UpperAscii, UntilDot;
    if |stem| == 4 {
      FourCharacters(stem, "COM");
      FourCharacters(stem, "LPT");
    }
  }
}
