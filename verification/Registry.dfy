/** Replacing the registration of one game by backup and rename. A registration is a directory. Between
    any two file operations the process may crash; an operation may fail; and removing a directory may
    stop half way. These are fixed beforehand as a script of turns, and results hold for every script. */
module Registry {
  import opened Bytes

  /** The files of a directory, by name. */
  type Directory = map<string, bytes>

  datatype Branding = Branding(icon: bytes, hero: Option<bytes>)

  /** What a registration consists of, once everything about it has been verified. */
  datatype Material = Material(trustStore: bytes, updateRoot: bytes, registration: bytes, branding: Option<Branding>)

  datatype RegistryError =
    | CannotRecover | CannotFinish | AlreadyExists | NotInstalled | CannotStage | CannotStageExisting
    | CannotActivate | CannotRetire

  /** What happens before or during one file operation; `removed` are the files that a removal takes
      away before it stops. */
  datatype Turn = Turn(crashes: bool, canRead: bool, canWrite: bool, removed: set<string>)

  const QUIET := Turn(false, true, true, {})

  const DEAD := Turn(true, false, false, {})

  predicate Crashes(turns: seq<Turn>) {
    turns != [] && turns[0].crashes
  }

  /** The next operation can read. */
  predicate Reads(turns: seq<Turn>) {
    turns == [] || (!turns[0].crashes && turns[0].canRead)
  }

  /** The next operation can write. */
  predicate Writes(turns: seq<Turn>) {
    turns == [] || (!turns[0].crashes && turns[0].canWrite)
  }

  function Rest(turns: seq<Turn>): seq<Turn> {
    if turns == [] then [] else turns[1..]
  }

  predicate Undisturbed(turns: seq<Turn>) {
    forall t <- turns :: t == QUIET
  }

  /** The complete directory of a registration. */
  function FilesOf(m: Material): (d: Directory)
    ensures d != map[]
  {
    var base := map["trust-store.json" := m.trustStore, "update-root.json" := m.updateRoot,
                    "registration.json" := m.registration];
    var d :=
      match m.branding
      case None => base
      case Some(Branding(icon, None)) => base["branding/icon.png" := icon]
      case Some(Branding(icon, Some(hero))) => base["branding/icon.png" := icon]["branding/hero.png" := hero];
    assert "trust-store.json" in d;
    d
  }

  /** A directory can be renamed to where nothing is, or to an empty directory. */
  predicate Vacant(d: Option<Directory>) {
    d == None || d == Some(map[])
  }

  class Registry {
    var destination: Option<Directory>
    var backup: Option<Directory>
    var staged: Option<Directory>  // the directory being prepared under a temporary name
    var script: seq<Turn>
    var alive: bool
    ghost var committed: Option<Directory>  // the registration that was last renamed into place
    ghost var commits: nat

    constructor (script: seq<Turn>)
      ensures Consistent() && this.script == script && alive
      ensures destination == None && backup == None && committed == None && commits == 0
    {
      destination, backup, staged := None, None, None;
      this.script := script;
      alive := true;
      committed := None;
      commits := 0;
    }

    /** What is at the destination is the last committed registration. If nothing is there although
        something was committed, the backup is that registration, complete. */
    ghost predicate Consistent()
      reads this
    {
      && (destination.Some? ==> destination == committed)
      && (destination.None? && committed.Some? ==> backup == committed)
      && (committed.None? ==> destination == None && backup == None)
      && committed != Some(map[])
    }

    twostate predicate Proceeds()
      reads this
    {
      && (alive ==> old(alive))
      && (Undisturbed(old(script)) && old(alive) ==> Undisturbed(script) && alive)
    }

    // -------------------------------------------------------------- file operations

    /** The next turn. A crashed process can do nothing. */
    method Next() returns (t: Turn)
      modifies `script, `alive
      ensures Proceeds()
      ensures t.canRead || t.canWrite ==> alive
      ensures !old(alive) ==> t == DEAD
      ensures old(alive) ==> alive == !Crashes(old(script)) && script == Rest(old(script))
      ensures old(alive) ==> t.canRead == Reads(old(script)) && t.canWrite == Writes(old(script))
      ensures Undisturbed(old(script)) && old(alive) ==> t == QUIET
    {
      if !alive {
        return DEAD;
      }
      if script == [] {
        return QUIET;
      }
      t := script[0];
      assert t in script;
      script := script[1..];
      assert forall u <- script :: u in old(script);
      if t.crashes {
        alive := false;
        t := t.(canRead := false, canWrite := false);
      }
    }

    /** Whether a directory is there; an error counts as nothing. */
    method Exists(d: Option<Directory>) returns (there: bool)
      modifies `script, `alive
      ensures Proceeds()
      ensures there ==> d.Some? && alive
      ensures old(alive) ==>
                alive == !Crashes(old(script)) && script == Rest(old(script)) && there == (d.Some? && Reads(old(script)))
      ensures Undisturbed(old(script)) && old(alive) ==> there == d.Some?
    {
      var t := Next();
      return t.canRead && d.Some?;
    }

    method MayWrite() returns (ok: bool)
      modifies `script, `alive
      ensures Proceeds()
      ensures ok <==> old(alive) && Writes(old(script))
      ensures ok ==> alive
      ensures old(alive) ==> script == Rest(old(script)) && alive == !Crashes(old(script))
      ensures Undisturbed(old(script)) && old(alive) ==> ok
    {
      var t := Next();
      return t.canWrite;
    }

    /** Removes the backup, or only some of its files. */
    method RemoveBackup() returns (ok: bool)
      modifies `script, `alive, `backup
      ensures Proceeds()
      ensures ok <==> old(alive) && Writes(old(script))
      ensures ok ==> alive && backup == None
      ensures !ok && old(backup).Some? ==> backup.Some? && backup.value.Items <= old(backup).value.Items
      ensures old(alive) ==> script == Rest(old(script)) && alive == !Crashes(old(script))
      ensures Undisturbed(old(script)) && old(alive) ==> ok
      ensures old(backup) == None ==> backup == None
    {
      var t := Next();
      if t.canWrite {
        backup := None;
        return true;
      }
      if backup.Some? {
        backup := Some(backup.value - t.removed);
      }
      return false;
    }

    method RestoreBackup() returns (ok: bool)
      modifies `script, `alive, `backup, `destination
      ensures Proceeds()
      ensures ok <==> old(alive) && Writes(old(script)) && old(backup).Some? && Vacant(old(destination))
      ensures old(alive) ==> script == Rest(old(script)) && alive == !Crashes(old(script))
      ensures ok ==> alive && old(backup).Some? && Vacant(old(destination)) && destination == old(backup) && backup == None
      ensures !ok ==> destination == old(destination) && backup == old(backup)
      ensures Undisturbed(old(script)) && old(alive) && old(backup).Some? && Vacant(old(destination)) ==> ok
    {
      var t := Next();
      if !t.canWrite || backup.None? || !Vacant(destination) {
        return false;
      }
      destination, backup := backup, None;
      return true;
    }

    /** Moves the installed registration out of the way. */
    method SetAside() returns (ok: bool)
      modifies `script, `alive, `backup, `destination
      ensures Proceeds()
      ensures ok <==> old(alive) && Writes(old(script)) && old(destination).Some? && Vacant(old(backup))
      ensures old(alive) ==> script == Rest(old(script)) && alive == !Crashes(old(script))
      ensures ok ==> alive && old(destination).Some? && Vacant(old(backup)) && backup == old(destination) && destination == None
      ensures !ok ==> destination == old(destination) && backup == old(backup)
      ensures Undisturbed(old(script)) && old(alive) && old(destination).Some? && Vacant(old(backup)) ==> ok
    {
      var t := Next();
      if !t.canWrite || destination.None? || !Vacant(backup) {
        return false;
      }
      destination, backup := None, destination;
      return true;
    }

    /** Renames the prepared directory into place. This is the commit. */
    method Commit() returns (ok: bool)
      modifies `script, `alive, `destination, `staged, `committed, `commits
      ensures Proceeds()
      ensures ok <==> old(alive) && Writes(old(script)) && old(staged).Some? && Vacant(old(destination))
      ensures old(alive) ==> script == Rest(old(script)) && alive == !Crashes(old(script))
      ensures staged == if ok then None else old(staged)
      ensures ok ==>
                && alive && old(staged).Some? && Vacant(old(destination))
                && destination == committed == old(staged) && commits == old(commits) + 1
      ensures !ok ==> destination == old(destination) && committed == old(committed) && commits == old(commits)
      ensures Undisturbed(old(script)) && old(alive) && old(staged).Some? && Vacant(old(destination)) ==> ok
    {
      var t := Next();
      if !t.canWrite || staged.None? || !Vacant(destination) {
        return false;
      }
      destination, staged := staged, None;
      committed, commits := destination, commits + 1;
      return true;
    }

    method WriteNew(name: string, contents: bytes) returns (ok: bool)
      modifies `script, `alive, `staged
      ensures Proceeds()
      ensures ok ==> old(staged).Some? && staged == Some(old(staged).value[name := contents])
      ensures Undisturbed(old(script)) && old(alive) && old(staged).Some? && name !in old(staged).value ==> ok
    {
      var t := Next();
      if !t.canWrite || staged.None? || name in staged.value {
        return false;
      }
      staged := Some(staged.value[name := contents]);
      return true;
    }

    // -------------------------------------------------------------- recovery

    /** Repairs what an interrupted update left. When it succeeds, the last committed registration is in
        place and nothing else, except if there was a backup that it could not see: then it leaves
        everything as it was, and still reports success. */
    method Recover() returns (r: Result<(), RegistryError>)
      requires Consistent()
      modifies `script, `alive, `backup, `destination
      ensures Consistent() && Proceeds()
      ensures r.Ok? && alive ==>
                (destination == committed && backup == None <==> old(backup) == None || Reads(Rest(old(script))))
      ensures old(alive) && !Crashes(old(script)) && !Crashes(Rest(old(script))) && !Reads(Rest(old(script))) ==>
                r == Ok(()) && destination == old(destination) && backup == old(backup)
      ensures r.Err? && old(alive) ==>
                r.error == if old(destination).Some? && Reads(old(script)) then CannotFinish else CannotRecover
      ensures r.Err? ==> old(alive)
      ensures Undisturbed(old(script)) && old(alive) ==> r.Ok? && destination == committed && backup == None
    {
      hide Undisturbed;
      var there := Exists(destination);
      var kept := Exists(backup);
      if !there && kept {
        var ok := RestoreBackup();
        return if ok then Ok(()) else Err(CannotRecover);
      }
      if there && kept {
        var ok := RemoveBackup();
        return if ok then Ok(()) else Err(CannotFinish);
      }
      return Ok(());
    }

    // -------------------------------------------------------------- installation

    /** Prepares the complete directory, file by file. */
    method Stage(m: Material) returns (ok: bool)
      requires staged == Some(map[])
      modifies `script, `alive, `staged
      ensures Proceeds()
      ensures ok ==> staged == Some(FilesOf(m))
      ensures Undisturbed(old(script)) && old(alive) ==> ok
    {
      hide Undisturbed;
      ok := WriteNew("trust-store.json", m.trustStore);
      if !ok {
        return false;
      }
      ok := WriteNew("update-root.json", m.updateRoot);
      if !ok {
        return false;
      }
      ok := WriteNew("registration.json", m.registration);
      if !ok {
        return false;
      }
      if m.branding.Some? {
        ok := MayWrite();
        if !ok {
          return false;
        }
        ok := WriteNew("branding/icon.png", m.branding.value.icon);
        if !ok {
          return false;
        }
        if m.branding.value.hero.Some? {
          ok := WriteNew("branding/hero.png", m.branding.value.hero.value);
          if !ok {
            return false;
          }
        }
      }
      return true;
    }

    /** Puts the prepared directory in the place of the installed one. */
    method Replace() returns (r: Result<(), RegistryError>)
      requires Consistent() && staged.Some? && staged.value != map[]
      modifies `script, `alive, `backup, `destination, `staged, `committed, `commits
      ensures Consistent() && Proceeds()
      ensures r.Ok? || r == Err(CannotRetire) ==>
                destination == committed == old(staged) && commits == old(commits) + 1
      ensures r.Ok? ==> backup == None && old(destination).Some?
      ensures r.Ok? || r == Err(CannotRetire) ==> staged == None
      ensures r.Err? && r != Err(CannotRetire) ==> committed == old(committed) && commits == old(commits)
      ensures old(alive) ==>
                var first, second, third := old(script), Rest(old(script)), Rest(Rest(old(script)));
                && r == (if !Writes(first) || old(destination).None? || !Vacant(old(backup)) then Err(CannotStageExisting)
                         else if !Writes(second) then Err(CannotActivate)
                         else if Writes(third) then Ok(()) else Err(CannotRetire))
                && (r == Err(CannotStageExisting) ==> destination == old(destination) && backup == old(backup))
                && (r == Err(CannotActivate) ==>
                      if !Crashes(second) && Writes(third) then destination == old(destination) && backup == None
                      else destination == None && backup == old(destination))
      ensures Undisturbed(old(script)) && old(alive) && old(destination).Some? && Vacant(old(backup)) ==> r == Ok(())
    {
      hide Undisturbed;
      var ok := SetAside();
      if !ok {
        return Err(CannotStageExisting);
      }
      ok := Commit();
      if !ok {
        var restored := RestoreBackup();
        return Err(CannotActivate);
      }
      ok := RemoveBackup();
      return if ok then Ok(()) else Err(CannotRetire);
    }

    /** Prepares the registration and puts it in place; a failed attempt is cleaned up. */
    method StageAndCommit(m: Material, replace: bool) returns (r: Result<(), RegistryError>)
      requires Consistent() && staged == Some(map[])
      modifies `script, `alive, `backup, `destination, `staged, `committed, `commits
      ensures Consistent() && Proceeds()
      ensures r.Ok? || r == Err(CannotRetire) ==>
                destination == committed == Some(FilesOf(m)) && commits == old(commits) + 1
      ensures r.Err? && r != Err(CannotRetire) ==> committed == old(committed) && commits == old(commits)
      ensures r.Ok? ==> replace == old(destination).Some? && backup == if replace then None else old(backup)
      ensures Undisturbed(old(script)) && old(alive) && old(backup) == None && (replace <==> old(destination).Some?) ==>
                r == Ok(())
      ensures Undisturbed(old(script)) && old(alive) ==> staged == None
    {
      hide Undisturbed, FilesOf;
      var ok := Stage(m);
      if !ok {
        r := Err(CannotStage);
      } else if replace {
        r := Replace();
      } else {
        ok := Commit();
        r := if ok then Ok(()) else Err(CannotActivate);
      }
      if r.Err? {
        ok := MayWrite();
        staged := if ok then None else staged;
      }
    }

    /** Registers a game, or replaces its registration. It is committed exactly when this succeeds or
        fails in nothing but retiring the previous registration. When it succeeds, no backup is left, and
        something had been registered before exactly if that was to be replaced, unless a new game was
        registered while a backup could not be seen. */
    method InstallRegistration(m: Material, replace: bool) returns (r: Result<(), RegistryError>)
      requires Consistent()
      modifies this
      ensures Consistent() && Proceeds()
      ensures r.Ok? || r == Err(CannotRetire) ==>
                destination == committed == Some(FilesOf(m)) && commits == old(commits) + 1
      ensures r.Err? && r != Err(CannotRetire) ==> committed == old(committed) && commits == old(commits)
      ensures r.Ok? ==>
                (backup == None && (replace <==> old(committed).Some?) <==>
                 replace || old(backup) == None || Reads(Rest(Rest(old(script)))))
      ensures Undisturbed(old(script)) && old(alive) ==>
                && destination == committed && backup == None
                && r == if replace && old(committed).None? then Err(NotInstalled)
                        else if !replace && old(committed).Some? then Err(AlreadyExists)
                        else Ok(())
    {
      hide Undisturbed, FilesOf;
      var ok := MayWrite();
      if !ok {
        return Err(CannotStage);
      }
      var _ :- Recover();
      var there := Exists(destination);
      if there && !replace {
        return Err(AlreadyExists);
      }
      there := Exists(destination);
      if !there && replace {
        return Err(NotInstalled);
      }
      ok := MayWrite();
      if !ok {
        return Err(CannotStage);
      }
      staged := Some(map[]);
      r := StageAndCommit(m, replace);
    }

    // -------------------------------------------------------------- whole runs

    /** Any sequence of attempts, each by a process of its own. Whatever crashes or fails in between,
        the state stays consistent, and what is committed is told by the results alone. */
    method Run(attempts: seq<Attempt>) returns (results: seq<Result<(), RegistryError>>)
      requires Consistent()
      modifies this
      ensures Consistent()
      ensures |results| == |attempts| && committed == LastCommitted(old(committed), attempts, results)
      ensures Undisturbed(old(script)) ==> results == Results(old(committed).Some?, attempts)
    {
      hide Undisturbed, FilesOf, Installed, Results;
      NothingTried(old(committed).Some?);
      results := [];
      for i := 0 to |attempts|
        invariant Consistent() && |results| == i
        invariant committed == LastCommitted(old(committed), attempts[..i], results)
        invariant Undisturbed(old(script)) ==>
                    && Undisturbed(script) && results == Results(old(committed).Some?, attempts[..i])
                    && committed.Some? == Installed(old(committed).Some?, attempts[..i])
      {
        alive := true;
        OneMoreAttempt(old(committed).Some?, attempts, i);
        var r := InstallRegistration(attempts[i].material, attempts[i].replace);
        ghost var before := results;
        results := results + [r];
        assert attempts[..i + 1][..i] == attempts[..i] && results[..i] == before;
      }
      assert attempts[..|attempts|] == attempts;
    }

    /** After any such run, the next recovery that is not disturbed puts the registration in place
        that was committed last, and leaves no backup. */
    method RunThenRecover(
        attempts: seq<Attempt>) returns (results: seq<Result<(), RegistryError>>, r: Result<(), RegistryError>)
      requires Consistent()
      modifies this
      ensures |results| == |attempts| && r.Ok?
      ensures destination == LastCommitted(old(committed), attempts, results) && backup == None
    {
      results := Run(attempts);
      script := [];
      alive := true;
      r := Recover();
    }
  }

  datatype Attempt = Attempt(material: Material, replace: bool)

  /** The registration committed last, as the results of the attempts tell. */
  function LastCommitted(
      before: Option<Directory>, attempts: seq<Attempt>, results: seq<Result<(), RegistryError>>): Option<Directory>
    requires |attempts| == |results|
  {
    if attempts == [] then before
    else
      var last := |attempts| - 1;
      if results[last].Ok? || results[last] == Err(CannotRetire) then Some(FilesOf(attempts[last].material))
      else LastCommitted(before, attempts[..last], results[..last])
  }

  /** Whether anything is registered after undisturbed attempts: from the first one on that registers a new
      game. */
  predicate Installed(before: bool, attempts: seq<Attempt>) {
    before || exists a <- attempts :: !a.replace
  }

  /** The results of undisturbed attempts: only what is there can be replaced, and only what is not there
      can be new. */
  function Results(before: bool, attempts: seq<Attempt>): (r: seq<Result<(), RegistryError>>)
    ensures |r| == |attempts|
    ensures forall i :: 0 <= i < |r| ==>
              r[i] == if Installed(before, attempts[..i]) == attempts[i].replace then Ok(())
                      else Err(if attempts[i].replace then NotInstalled else AlreadyExists)
  {
    seq(|attempts|, i requires 0 <= i < |attempts| =>
      if Installed(before, attempts[..i]) == attempts[i].replace then Ok(())
      else Err(if attempts[i].replace then NotInstalled else AlreadyExists))
  }

  lemma {:induction false} NothingTried(before: bool)
    ensures Installed(before, []) == before && Results(before, []) == []
  {
  }

  lemma {:induction false} OneMoreAttempt(before: bool, attempts: seq<Attempt>, i: nat)
    requires i < |attempts|
    ensures
      var installed, replace := Installed(before, attempts[..i]), attempts[i].replace;
      && Installed(before, attempts[..i + 1]) == (installed || !replace)
      && Results(before, attempts[..i + 1]) ==
           Results(before, attempts[..i]) +
           [if installed == replace then Ok(()) else Err(if replace then NotInstalled else AlreadyExists)]
  {
    assert attempts[..i + 1] == attempts[..i] + [attempts[i]];
    assert forall k :: 0 <= k <= i ==> attempts[..i + 1][..k] == attempts[..i][..k] == attempts[..k];
    hide Installed;
  }

  /** The files of a complete registration, by name, and no others. */
  lemma {:induction false} WhatIsRegistered(m: Material)
    ensures
      var d := FilesOf(m);
      && "trust-store.json" in d && d["trust-store.json"] == m.trustStore
      && "update-root.json" in d && d["update-root.json"] == m.updateRoot
      && "registration.json" in d && d["registration.json"] == m.registration
      && ("branding/icon.png" in d <==> m.branding.Some?)
      && (m.branding.Some? ==> d["branding/icon.png"] == m.branding.value.icon)
      && ("branding/hero.png" in d <==> m.branding.Some? && m.branding.value.hero.Some?)
      && (m.branding.Some? && m.branding.value.hero.Some? ==> d["branding/hero.png"] == m.branding.value.hero.value)
      && d.Keys <= {"trust-store.json", "update-root.json", "registration.json", "branding/icon.png", "branding/hero.png"}
  {
    var names := ["trust-store.json", "update-root.json", "registration.json", "branding/icon.png", "branding/hero.png"];
    assert |names[0]| == 16 && |names[1]| == 16 && |names[2]| == 17 && |names[3]| == 17 && |names[4]| == 17;
    assert names[0][0] == 't' && names[1][0] == 'u' && names[2][0] == 'r';
    assert names[3][9] == 'i' && names[4][9] == 'h' && names[3][0] == names[4][0] == 'b';
  }

  predicate Committed(result: Result<(), RegistryError>) {
    result.Ok? || result == Err(CannotRetire)
  }

  /** The registration committed last is that of the latest attempt that was committed. */
  lemma {:induction false} LatestCommitCounts(
      before: Option<Directory>, attempts: seq<Attempt>, results: seq<Result<(), RegistryError>>, k: nat)
    requires |attempts| == |results| && k < |attempts| && Committed(results[k])
    requires forall i :: k < i < |results| ==> !Committed(results[i])
    ensures LastCommitted(before, attempts, results) == Some(FilesOf(attempts[k].material))
    decreases |attempts|
  {
    hide FilesOf;
    var last := |attempts| - 1;
    if k < last {
      LatestCommitCounts(before, attempts[..last], results[..last], k);
    }
  }

  lemma {:induction false} NoCommitChangesNothing(
      before: Option<Directory>, attempts: seq<Attempt>, results: seq<Result<(), RegistryError>>)
    requires |attempts| == |results| && forall i :: 0 <= i < |results| ==> !Committed(results[i])
    ensures LastCommitted(before, attempts, results) == before
    decreases |attempts|
  {
    hide FilesOf;
    if attempts != [] {
      var last := |attempts| - 1;
      NoCommitChangesNothing(before, attempts[..last], results[..last]);
    }
  }
}
