/**
 Durable replacement of a SQLite file: the primitives of scripts/admin/systemd_ownership.py and the
 transactions of scripts/admin/rollback_transaction.py around them.
 */
module Replacement {
  import opened Wrappers
  import opened FileSystem
  import opened Disks
  import opened Publication
  import Decimal

  /** Owner, group and mode of a file and of its directory. */
  datatype OwnershipSnapshot = OwnershipSnapshot(file: Ownership, parent: Ownership)

  /** What SQLite's integrity check and the JSON reader and printer say of a file's bytes. */
  datatype Tools = Tools(
    integrityOk: Bytes -> bool,
    parse: Bytes -> Option<OwnershipSnapshot>,
    render: OwnershipSnapshot -> Bytes)

  ghost predicate Sound(tools: Tools) {
    forall m :: tools.parse(tools.render(m)) == Some(m)
  }

  datatype Outcome =
    | Done
    | Unchanged             // an exception before the rename
    | ReplacedButNotSynced  // the directory could not be synchronised after the rename

  function TemporaryName(target: Name, pid: nat): Name {
    "." + target + ".rollback-" + Decimal.Print(pid)
  }

  /** The file that a replacement puts in place: the data of a valid source, with the recorded owner. */
  function NewImage(s: State, tools: Tools, source: Name, metadataPath: Name): (r: Option<Image>)
    ensures r.Some? ==> tools.integrityOk(r.value.data)
  {
    var from := Current(s, source);
    var record := Current(s, metadataPath);
    if from.None? || !tools.integrityOk(from.value.data) then None
    else if record.None? || tools.parse(record.value.data).None? then None
    else Some(Image(from.value.data, tools.parse(record.value.data).value.file))
  }

  ghost predicate Prepared(s: State, n: Name, image: Image) {
    Exclusive(s, n) && IsDurable(Current(s, n), image)
  }

  /** `apply_metadata`: change the owner if it differs, set the mode, and read both back. */
  method ApplyMetadata(disk: Disk, n: Name, owner: Ownership) returns (ok: bool)
    requires disk.Valid() && Exclusive(disk.state, n)
    modifies disk
    ensures disk.Valid() && OnlyTouched(old(disk.history), disk.history, old(disk.state), {n})
    ensures Step(old(disk.state), disk.state, {n}) && Exclusive(disk.state, n)
    ensures Current(disk.state, n).Some? && Current(disk.state, n).value.data == Current(old(disk.state), n).value.data
    ensures ok ==> Current(disk.state, n).value.owner == owner
    ensures disk.faults >= old(disk.faults) && (disk.faults == old(disk.faults) ==> ok)
  {
    var current := Current(disk.state, n).value.owner;
    if (current.uid, current.gid) != (owner.uid, owner.gid) {
      ok := disk.SetOwner(n, Ownership(owner.uid, owner.gid, current.mode));
      if !ok { return; }
    }
    current := Current(disk.state, n).value.owner;
    ok := disk.SetOwner(n, Ownership(current.uid, current.gid, owner.mode));
    if ok {
      ok := Current(disk.state, n).value.owner == owner;
    }
  }

  /** `prepare_sqlite_replacement` with `restore_parent=True`: owners, the access probe, and a last `fsync`. */
  method PrepareSqliteReplacement(disk: Disk, n: Name, metadata: OwnershipSnapshot) returns (ok: bool)
    requires disk.Valid() && Exclusive(disk.state, n)
    modifies disk
    ensures disk.Valid() && OnlyTouched(old(disk.history), disk.history, old(disk.state), {n})
    ensures WellFormed(disk.state) && SameBut(old(disk.state), disk.state, {n}) && Exclusive(disk.state, n)
    ensures Current(disk.state, n).Some?
    ensures ok ==> Prepared(disk.state, n, Image(Current(old(disk.state), n).value.data, metadata.file))
    ensures ok ==> disk.state.dirOwner == metadata.parent
    ensures disk.faults >= old(disk.faults) && (disk.faults == old(disk.faults) ==> ok)
  {
    ok := disk.SetDirectoryOwner(metadata.parent);
    if !ok { return; }
    ok := ApplyMetadata(disk, n, metadata.file);
    if !ok { return; }
    ok := disk.WriteAndRollBack(n);
    if !ok { return; }
    ok := disk.FsyncFile(n);
  }

  /** Rename a synchronised file, then synchronise the directory. */
  method RenameAndSync(disk: Disk, from: Name, to: Name) returns (r: Outcome)
    requires disk.Valid() && from != to && Exclusive(disk.state, from)
    requires Current(disk.state, from).Some? && Current(disk.state, from).value.stable
    modifies disk
    ensures disk.Valid() && Undisturbed(old(disk.state), disk.state, {from, to})
    ensures disk.state.dirOwner == old(disk.state).dirOwner
    ensures disk.faults >= old(disk.faults) && (disk.faults == old(disk.faults) ==> r == Done)
    ensures r == Unchanged ==> disk.state == old(disk.state)
    ensures r != Unchanged ==> from !in disk.state.dir
    ensures var image := ImageOf(Current(old(disk.state), from).value);
      && Kept(old(disk.history), disk.history, old(disk.state), {from, to}, to, image)
      && (r != Unchanged ==> IsDurable(Current(disk.state, to), image))
      && (r == Done ==> OnDisk(disk.state, to, image))
  {
    ghost var h0, s0 := disk.history, disk.state;
    ghost var image := ImageOf(Current(s0, from).value);
    var ok := Publish(disk, from, to);
    if !ok {
      return Unchanged;
    }
    ghost var h1, s1 := disk.history, disk.state;
    ok := disk.FsyncDirectory();
    r := ReplacedButNotSynced;
    if ok {
      SyncSettles(s1, disk.state);
      UndisturbedTransitive(s0, s1, disk.state, {from, to}, {});
      UndisturbedKeepsOldOrNew(s0, s1, disk.state, {}, to, image);
      r := Done;
    }
    KeptOneMore(h0, h1, disk.state, s0, {from, to}, to, image);
  }

  /** `systemd_ownership.atomic_replace`: synchronise the candidate, rename it, synchronise the directory. */
  method AtomicReplace(disk: Disk, candidate: Name, target: Name) returns (r: Outcome)
    requires disk.Valid() && candidate != target && (candidate in disk.state.dir ==> Exclusive(disk.state, candidate))
    modifies disk
    ensures disk.Valid() && Undisturbed(old(disk.state), disk.state, {candidate, target})
    ensures disk.state.dirOwner == old(disk.state).dirOwner
    ensures r == Unchanged ==> SameBut(old(disk.state), disk.state, {candidate})
    ensures r != Unchanged ==> candidate in old(disk.state).dir && candidate !in disk.state.dir
    ensures candidate !in old(disk.state).dir ==> disk.history == old(disk.history)
    ensures disk.faults >= old(disk.faults)
    ensures disk.faults == old(disk.faults) && candidate in old(disk.state).dir ==> r == Done
    ensures candidate in old(disk.state).dir ==>
      var image := ImageOf(Current(old(disk.state), candidate).value);
      && Kept(old(disk.history), disk.history, old(disk.state), {candidate, target}, target, image)
      && (r != Unchanged ==> IsDurable(Current(disk.state, target), image))
      && (r == Done ==> OnDisk(disk.state, target, image))
  {
    ghost var h0, s0 := disk.history, disk.state;
    StepSelf(s0, {candidate});
    SameIsUndisturbed(s0, s0, {candidate, target});
    if candidate !in disk.state.dir {
      return Unchanged;
    }
    ghost var image := ImageOf(Current(s0, candidate).value);
    var ok := disk.FsyncFile(candidate);
    ghost var h1, s1 := disk.history, disk.state;
    SameIsUndisturbed(s0, s1, {candidate});
    UntouchedIsKept(h0, h1, s0, {candidate}, {candidate, target}, target, image);
    if !ok {
      return Unchanged;
    }
    r := RenameAndSync(disk, candidate, target);
    KeptThen(h0, h1, disk.history, s0, s1, {candidate}, {candidate, target}, target, image);
    UndisturbedTransitive(s0, s1, disk.state, {candidate}, {candidate, target});
    assert {candidate} + {candidate, target} == {candidate, target};
  }

  /** What is known while a file is being copied: `temporary` holds `written`. */
  ghost predicate Copying(disk: Disk, h0: seq<State>, s0: State, temporary: Name, written: Bytes)
    reads disk
  {
    && disk.Valid() && OnlyTouched(h0, disk.history, s0, {temporary})
    && SameBut(s0, disk.state, {temporary}) && disk.state.dirOwner == s0.dirOwner
    && Exclusive(disk.state, temporary) && Current(disk.state, temporary).Some?
    && Current(disk.state, temporary).value.data == written
  }

  /** One more chunk. */
  method CopyChunk(disk: Disk, from: Bytes, done: nat, next: nat, temporary: Name, ghost h0: seq<State>,
                   ghost s0: State)
    returns (ok: bool)
    requires done <= next <= |from| && Copying(disk, h0, s0, temporary, from[..done])
    modifies disk
    ensures disk.faults == old(disk.faults) + if ok then 0 else 1
    ensures disk.Valid() && OnlyTouched(h0, disk.history, s0, {temporary})
    ensures SameBut(s0, disk.state, {temporary}) && disk.state.dirOwner == s0.dirOwner
    ensures ok ==> Copying(disk, h0, s0, temporary, from[..next])
  {
    ghost var h, s := disk.history, disk.state;
    ok := disk.Append(temporary, from[done..next]);
    assert from[..done] + from[done..next] == from[..next];
    OnlyTouchedThen(h0, h, disk.history, s0, s, {temporary});
    SameButTransitive(s0, s, disk.state, {temporary});
  }

  /** The copy of `rollback_transaction.atomic_replace`: exclusive creation, chunks, `fsync`. */
  method CopyToTemporary(disk: Disk, source: Name, temporary: Name) returns (ok: bool)
    requires disk.Valid() && source in disk.state.dir
    modifies disk
    ensures disk.Valid() && OnlyTouched(old(disk.history), disk.history, old(disk.state), {temporary})
    ensures SameBut(old(disk.state), disk.state, {temporary}) && disk.state.dirOwner == old(disk.state).dirOwner
    ensures ok ==> Exclusive(disk.state, temporary) && Current(disk.state, temporary).Some?
    ensures ok ==> Current(disk.state, temporary).value.data == Current(old(disk.state), source).value.data
    ensures disk.faults >= old(disk.faults)
    ensures disk.faults == old(disk.faults) ==> (ok <==> temporary !in old(disk.state).dir)
  {
    ghost var h0, s0 := disk.history, disk.state;
    ok := disk.Create(temporary);
    if !ok { return; }
    assert source != temporary;
    var from := Current(disk.state, source).value.data;
    var done := 0;
    assert from[..0] == [];
    while done < |from|
      invariant 0 <= done <= |from| && Copying(disk, h0, s0, temporary, from[..done])
      invariant disk.faults >= old(disk.faults)
    {
      var size: nat := *;
      ok := disk.Look();
      if !ok { return; }
      var next := if 0 < size <= |from| - done then done + size else |from|;
      ok := CopyChunk(disk, from, done, next, temporary, h0, s0);
      if !ok { return; }
      done := next;
    }
    assert from[..done] == from;
    ghost var h, s := disk.history, disk.state;
    ok := disk.FsyncFile(temporary);
    OnlyTouchedThen(h0, h, disk.history, s0, s, {temporary});
    SameButTransitive(s0, s, disk.state, {temporary});
  }

  /** The body of the `try` of `rollback_transaction.atomic_replace`. */
  method ReplaceThrough(disk: Disk, tools: Tools, source: Name, target: Name, metadata: OwnershipSnapshot,
                        temporary: Name)
    returns (r: Outcome)
    requires disk.Valid() && source in disk.state.dir && temporary != target
    modifies disk
    ensures disk.Valid() && (r != Unchanged ==> temporary !in disk.state.dir)
    ensures Undisturbed(old(disk.state), disk.state, {temporary, target})
    ensures r == Unchanged ==> SameBut(old(disk.state), disk.state, {temporary})
    ensures var image := Image(Current(old(disk.state), source).value.data, metadata.file);
      && Kept(old(disk.history), disk.history, old(disk.state), {temporary, target}, target, image)
      && (r != Unchanged ==> IsDurable(Current(disk.state, target), image) && tools.integrityOk(image.data))
      && (r == Done ==> OnDisk(disk.state, target, image))
    ensures r != Unchanged ==> disk.state.dirOwner == metadata.parent
    ensures disk.faults >= old(disk.faults)
    ensures disk.faults == old(disk.faults) ==>
      (r == Done <==>
        temporary !in old(disk.state).dir && tools.integrityOk(Current(old(disk.state), source).value.data))
  {
    ghost var h0, s0 := disk.history, disk.state;
    ghost var image := Image(Current(s0, source).value.data, metadata.file);
    var ok := CopyToTemporary(disk, source, temporary);
    UntouchedIsKept(h0, disk.history, s0, {temporary}, {temporary, target}, target, image);
    SameIsUndisturbed(s0, disk.state, {temporary});
    if !ok || !tools.integrityOk(Current(disk.state, temporary).value.data) {
      return Unchanged;
    }
    ghost var h1, s1 := disk.history, disk.state;
    ok := PrepareSqliteReplacement(disk, temporary, metadata);
    ghost var h2, s2 := disk.history, disk.state;
    OnlyTouchedThen(h0, h1, h2, s0, s1, {temporary});
    SameButTransitive(s0, s1, s2, {temporary});
    UntouchedIsKept(h0, h2, s0, {temporary}, {temporary, target}, target, image);
    SameIsUndisturbed(s0, s2, {temporary});
    if !ok {
      return Unchanged;
    }
    r := AtomicReplace(disk, temporary, target);
    KeptThen(h0, h2, disk.history, s0, s2, {temporary}, {temporary, target}, target, image);
    UndisturbedTransitive(s0, s2, disk.state, {temporary}, {temporary, target});
    assert {temporary} + {temporary, target} == {temporary, target};
    if r == Unchanged {
      SameButTransitive(s0, s2, disk.state, {temporary});
    }
  }

  /** The `unlink` in the `finally` clause takes nothing from the promise. */
  lemma UnlinkKeeps(h0: seq<State>, h1: seq<State>, s0: State, s1: State, s2: State, temporary: Name, target: Name,
                    image: Image, r: Outcome)
    requires temporary != target && h1 != [] && h1[|h1| - 1] == s1
    requires Kept(h0, h1, s0, {temporary, target}, target, image) && Undisturbed(s0, s1, {temporary, target})
    requires OldOrNew(s0, s1, target, image)
    requires SameBut(s1, s2, {temporary})
    requires r == Unchanged ==> SameBut(s0, s1, {temporary})
    requires r == Done ==> OnDisk(s1, target, image)
    ensures Kept(h0, h1 + [s2], s0, {temporary, target}, target, image)
    ensures r == Unchanged ==> SameBut(s0, s2, {temporary})
    ensures r == Done ==> OnDisk(s2, target, image)
  {
    SameIsUndisturbed(s1, s2, {temporary});
    UndisturbedTransitive(s0, s1, s2, {temporary, target}, {temporary});
    assert {temporary, target} + {temporary} == {temporary, target};
    KeptOneMore(h0, h1, s2, s0, {temporary, target}, target, image);
    if r == Unchanged {
      SameButTransitive(s0, s1, s2, {temporary});
    }
  }

  /** The `try` of `rollback_transaction.atomic_replace` with its `finally`. */
  method ReplaceAndCleanUp(disk: Disk, tools: Tools, source: Name, target: Name, metadata: OwnershipSnapshot,
                           temporary: Name)
    returns (r: Outcome)
    requires disk.Valid() && source in disk.state.dir && temporary != target
    modifies disk
    ensures disk.Valid()
    ensures var image := Image(Current(old(disk.state), source).value.data, metadata.file);
      && Kept(old(disk.history), disk.history, old(disk.state), {temporary, target}, target, image)
      && (r != Unchanged ==> IsDurable(Current(disk.state, target), image) && tools.integrityOk(image.data))
      && (r == Done ==> OnDisk(disk.state, target, image))
    ensures r == Unchanged ==> SameBut(old(disk.state), disk.state, {temporary})
    ensures r != Unchanged ==> disk.state.dirOwner == metadata.parent && temporary !in disk.state.dir
    ensures disk.faults >= old(disk.faults)
    ensures disk.faults == old(disk.faults) ==>
      && (r == Done <==>
           temporary !in old(disk.state).dir && tools.integrityOk(Current(old(disk.state), source).value.data))
      && temporary !in disk.state.dir
  {
    ghost var h0, s0 := disk.history, disk.state;
    ghost var image := Image(Current(s0, source).value.data, metadata.file);
    r := ReplaceThrough(disk, tools, source, target, metadata, temporary);
    ghost var h1, s1 := disk.history, disk.state;
    var _ := disk.Unlink(temporary);
    UnlinkKeeps(h0, h1, s0, s1, disk.state, temporary, target, image, r);
  }

  /** `rollback_transaction.atomic_replace`. */
  method Rollback(disk: Disk, tools: Tools, source: Name, target: Name, metadataPath: Name, pid: nat)
    returns (r: Outcome)
    requires disk.Valid()
    modifies disk
    ensures disk.Valid()
    ensures var image := NewImage(old(disk.state), tools, source, metadataPath);
      && (image.None? ==> r == Unchanged && disk.history == old(disk.history) && disk.state == old(disk.state))
      && (image.Some? ==> Kept(old(disk.history), disk.history, old(disk.state),
                               {TemporaryName(target, pid), target}, target, image.value))
      && (r != Unchanged ==> IsDurable(Current(disk.state, target), image.value))
      && (r == Done ==> OnDisk(disk.state, target, image.value))
    ensures r == Unchanged ==> SameBut(old(disk.state), disk.state, {TemporaryName(target, pid)})
    ensures r == Done ==> TemporaryName(target, pid) !in disk.state.dir
    ensures r == Done ==>
      disk.state.dirOwner == tools.parse(Current(old(disk.state), metadataPath).value.data).value.parent
    ensures disk.faults >= old(disk.faults)
    ensures disk.faults == old(disk.faults) ==>
      var image, temporary := NewImage(old(disk.state), tools, source, metadataPath), TemporaryName(target, pid);
      && (r == Done <==> image.Some? && temporary !in old(disk.state).dir)
      && (image.Some? ==> temporary !in disk.state.dir)
  {
    ghost var s0 := disk.state;
    StepSelf(s0, {});
    var readable := disk.Look();
    if source !in disk.state.dir || !readable || !tools.integrityOk(Current(disk.state, source).value.data) {
      return Unchanged;
    }
    readable := disk.Look();
    if metadataPath !in disk.state.dir || !readable {
      return Unchanged;
    }
    var metadata := tools.parse(Current(disk.state, metadataPath).value.data);
    if metadata.None? {
      return Unchanged;
    }
    var temporary := TemporaryName(target, pid);
    assert |temporary| > |target|;
    r := ReplaceAndCleanUp(disk, tools, source, target, metadata.value, temporary);
  }

  /**
   A crash in a run that keeps the target: it is the whole old file or the whole new one, and other files are as
   they could have been.
   */
  lemma KeptSurvivesCrash(h0: seq<State>, h: seq<State>, k: nat, s0: State, temporary: Name, target: Name,
                          image: Image, before: Image, disk: map<Name, Image>)
    requires Kept(h0, h, s0, {temporary, target}, target, image) && |h0| <= k < |h|
    requires OnDisk(s0, target, before)
    requires MayCrashTo(h[k], disk)
    ensures target in disk && (disk[target] == before || disk[target] == image)
    ensures forall n | n != temporary && n != target :: MaySurvive(s0, n, if n in disk then Some(disk[n]) else None)
  {
    var left := if target in disk then Some(disk[target]) else None;
    OldOrNewAfterCrash(s0, h[k], target, image, left);
    OnDiskAfterCrash(s0, target, before, left);
    forall n | n != temporary && n != target ensures MaySurvive(s0, n, if n in disk then Some(disk[n]) else None) {
      UndisturbedAfterCrash(s0, h[k], {temporary, target}, n, if n in disk then Some(disk[n]) else None);
    }
  }

  /**
   A crash after any call of `rollback_transaction.atomic_replace`: if the old file was on disk, the target
   is the whole old file or the whole new one, which is valid, and every other file but the temporary one is
   as it could have been before. What is required of the history is what `Rollback` ensures.
   */
  lemma ReplacementSurvivesCrash(h0: seq<State>, h: seq<State>, k: nat, s0: State, temporary: Name, target: Name,
                                 tools: Tools, source: Name, metadataPath: Name, before: Image, disk: map<Name, Image>)
    requires var image := NewImage(s0, tools, source, metadataPath);
      if image.None? then h == h0 else Kept(h0, h, s0, {temporary, target}, target, image.value)
    requires |h0| <= k < |h|
    requires OnDisk(s0, target, before)
    requires MayCrashTo(h[k], disk)
    ensures target in disk
    ensures disk[target] == before ||
      (tools.integrityOk(disk[target].data) && NewImage(s0, tools, source, metadataPath) == Some(disk[target]))
    ensures forall n | n != temporary && n != target :: MaySurvive(s0, n, if n in disk then Some(disk[n]) else None)
  {
    KeptSurvivesCrash(h0, h, k, s0, temporary, target, NewImage(s0, tools, source, metadataPath).value, before, disk);
  }

  /** What was captured is what a replacement restores: the owner and mode that the database had. */
  lemma CapturedIsRestored(tools: Tools, captured: State, database: Name, s: State, source: Name, metadataPath: Name)
    requires Sound(tools) && database in captured.dir && Current(captured, database).Some?
    requires Current(s, source).Some? && tools.integrityOk(Current(s, source).value.data)
    requires Current(s, metadataPath).Some?
    requires Current(s, metadataPath).value.data ==
      tools.render(OwnershipSnapshot(Current(captured, database).value.owner, captured.dirOwner))
    ensures NewImage(s, tools, source, metadataPath) ==
      Some(Image(Current(s, source).value.data, Current(captured, database).value.owner))
    ensures tools.parse(Current(s, metadataPath).value.data).value.parent == captured.dirOwner
  {
  }

  /** Write a new or emptied file. */
  method WriteAfresh(disk: Disk, n: Name, text: Bytes) returns (ok: bool)
    requires disk.Valid() && (n in disk.state.dir ==> Exclusive(disk.state, n))
    modifies disk
    ensures disk.Valid() && SameBut(old(disk.state), disk.state, {n})
    ensures OnlyTouched(old(disk.history), disk.history, old(disk.state), {n})
    ensures ok ==> Exclusive(disk.state, n) && Current(disk.state, n).Some?
    ensures ok ==> Current(disk.state, n).value.data == text
    ensures disk.faults >= old(disk.faults) && (disk.faults == old(disk.faults) ==> ok)
  {
    ghost var h0, s0 := disk.history, disk.state;
    StepSelf(s0, {n});
    if n in disk.state.dir {
      ok := disk.Fill(n, []);
    } else {
      ok := disk.Create(n);
    }
    if !ok { return; }
    ghost var h1, s1 := disk.history, disk.state;
    ok := disk.Append(n, text);
    OnlyTouchedThen(h0, h1, disk.history, s0, s1, {n});
    SameButTransitive(s0, s1, disk.state, {n});
    assert [] + text == text;
  }

  /** Write a new or emptied file, restrict it to its owner, and synchronise it. */
  method WriteRestricted(disk: Disk, n: Name, text: Bytes) returns (ok: bool)
    requires disk.Valid() && (n in disk.state.dir ==> Exclusive(disk.state, n))
    modifies disk
    ensures disk.Valid() && SameBut(old(disk.state), disk.state, {n})
    ensures OnlyTouched(old(disk.history), disk.history, old(disk.state), {n})
    ensures ok ==> Exclusive(disk.state, n) && Current(disk.state, n).Some? && Current(disk.state, n).value.stable
    ensures ok ==> Current(disk.state, n).value.data == text && Current(disk.state, n).value.owner.mode == 0x180
    ensures disk.faults >= old(disk.faults) && (disk.faults == old(disk.faults) ==> ok)
  {
    ghost var h0, s0 := disk.history, disk.state;
    ok := WriteAfresh(disk, n, text);
    if !ok { return; }
    ghost var h1, s1 := disk.history, disk.state;
    ok := disk.SetOwner(n, Current(disk.state, n).value.owner.(mode := 0x180));
    ghost var h2, s2 := disk.history, disk.state;
    OnlyTouchedThen(h0, h1, h2, s0, s1, {n});
    SameButTransitive(s0, s1, s2, {n});
    if !ok { return; }
    ok := disk.FsyncFile(n);
    OnlyTouchedThen(h0, h2, disk.history, s0, s2, {n});
    SameButTransitive(s0, s2, disk.state, {n});
  }

  /** Write a temporary file, restrict its mode, synchronise, rename, synchronise. */
  method WriteAndRename(disk: Disk, text: Bytes, output: Name, temporary: Name)
    returns (r: Outcome, ghost image: Image)
    requires disk.Valid() && temporary != output && (temporary in disk.state.dir ==> Exclusive(disk.state, temporary))
    modifies disk
    ensures disk.Valid() && Undisturbed(old(disk.state), disk.state, {temporary, output})
    ensures Kept(old(disk.history), disk.history, old(disk.state), {temporary, output}, output, image)
    ensures r != Unchanged ==> image.data == text && image.owner.mode == 0x180
    ensures r != Unchanged ==> temporary !in disk.state.dir && IsDurable(Current(disk.state, output), image)
    ensures r == Done ==> OnDisk(disk.state, output, image)
    ensures r == Unchanged ==> SameBut(old(disk.state), disk.state, {temporary})
    ensures disk.faults >= old(disk.faults) && (disk.faults == old(disk.faults) ==> r == Done)
  {
    ghost var h0, s0 := disk.history, disk.state;
    image := Image([], s0.dirOwner);
    r := Unchanged;
    var ok := WriteRestricted(disk, temporary, text);
    ghost var h1, s1 := disk.history, disk.state;
    SameIsUndisturbed(s0, s1, {temporary});
    if ok {
      image := ImageOf(Current(s1, temporary).value);
    }
    UntouchedIsKept(h0, h1, s0, {temporary}, {temporary, output}, output, image);
    if ok {
      r := RenameAndSync(disk, temporary, output);
      KeptThen(h0, h1, disk.history, s0, s1, {temporary}, {temporary, output}, output, image);
      UndisturbedTransitive(s0, s1, disk.state, {temporary}, {temporary, output});
      assert {temporary} + {temporary, output} == {temporary, output};
      if r == Unchanged {
        SameButTransitive(s0, s1, disk.state, {temporary});
      }
    }
  }

  /** `capture_metadata` */
  method CaptureMetadata(disk: Disk, tools: Tools, database: Name, output: Name, temporary: Name)
    returns (r: Outcome, ghost image: Image)
    requires disk.Valid() && temporary != output && (temporary in disk.state.dir ==> Exclusive(disk.state, temporary))
    modifies disk
    ensures disk.Valid() && (r != Unchanged ==> database in old(disk.state).dir)
    ensures Kept(old(disk.history), disk.history, old(disk.state), {temporary, output}, output, image)
    ensures r != Unchanged ==>
      var record := OwnershipSnapshot(Current(old(disk.state), database).value.owner, old(disk.state).dirOwner);
      image.data == tools.render(record) && image.owner.mode == 0x180
    ensures r == Done ==> OnDisk(disk.state, output, image)
    ensures r != Unchanged ==> IsDurable(Current(disk.state, output), image)
    ensures Undisturbed(old(disk.state), disk.state, {temporary, output})
    ensures r == Unchanged ==> SameBut(old(disk.state), disk.state, {temporary})
    ensures disk.faults >= old(disk.faults)
    ensures disk.faults == old(disk.faults) ==>
      if database in old(disk.state).dir then r == Done && temporary !in disk.state.dir else r == Unchanged
  {
    ghost var h0, s0 := disk.history, disk.state;
    image := Image([], s0.dirOwner);
    StepSelf(s0, {});
    r := Unchanged;
    SameIsUndisturbed(s0, disk.state, {temporary});
    var ok := disk.Look();
    if !ok || database !in disk.state.dir { return; }
    var text := tools.render(OwnershipSnapshot(Current(disk.state, database).value.owner, disk.state.dirOwner));
    r, image := WriteAndRename(disk, text, output, temporary);
    ghost var h2, s2 := disk.history, disk.state;
    var _ := disk.Unlink(temporary);
    UnlinkKeeps(h0, h2, s0, s2, disk.state, temporary, output, image, r);
    SameIsUndisturbed(s2, disk.state, {temporary});
    UndisturbedTransitive(s0, s2, disk.state, {temporary, output}, {temporary});
    assert {temporary, output} + {temporary} == {temporary, output};
  }
}
