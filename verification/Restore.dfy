/** Reading a backup back: decompression, `validate_backup`, `record_validation` and `prepare_restore_candidate`. */
module Restore {
  import opened Wrappers
  import opened FileSystem
  import opened Disks
  import opened Publication
  import opened BackupFormat
  import opened BackupFiles
  import Retention

  /** `Corrupted`: an error of zlib. */
  datatype Decompression = Decompressed | Rejected | Corrupted | IoError

  /** The verdict on the backup `path` as it is on the disk. */
  function VerdictOn(w: World, s: State, path: Name): Option<Validation> {
    Verdict(w, path, FileData(s, path), FileData(s, SidecarName(path)))
  }

  /** The verdict when its sidecar cannot be read. */
  function UnreadVerdictOn(w: World, s: State, path: Name): Option<Validation> {
    UnreadVerdict(w, path, FileData(s, path))
  }

  /**
   What validation gives when nothing fails. A stream that is too long and corrupt may be given up for the one
   reason or for the other.
   */
  predicate IsVerdict(w: World, s: State, path: Name, v: Option<Validation>) {
    v == VerdictOn(w, s, path) || (v == Some(INTERNAL) && VerdictOn(w, s, path) == None && IsTooLong(w, s, path))
  }

  predicate IsTooLong(w: World, s: State, path: Name) {
    FileData(s, path).Some? && |w.gunzip(FileData(s, path).value).data| > MAX_UNCOMPRESSED_BACKUP_BYTES
  }

  ghost predicate AcceptsOn(w: World, s: State, path: Name) {
    Accepts(w, path, FileData(s, path), FileData(s, SidecarName(path)))
  }

  /** `target` is as it was, or holds at most the size limit. */
  predicate Bounded(s0: State, s: State, target: Name) {
    var now := FileData(s, target);
    now == FileData(s0, target) || now.None? || |now.value| <= MAX_UNCOMPRESSED_BACKUP_BYTES
  }

  ghost predicate AllBounded(h0: seq<State>, h: seq<State>, s0: State, target: Name) {
    Continues(h0, h) && forall k | |h0| <= k < |h| :: Bounded(s0, h[k], target)
  }

  lemma AllBoundedThen(h0: seq<State>, h: seq<State>, s0: State, s: State, target: Name)
    requires AllBounded(h0, h, s0, target) && Bounded(s0, s, target)
    ensures AllBounded(h0, h + [s], s0, target)
  {
  }

  /** What is known while a backup is being decompressed: `target` holds `written`. */
  ghost predicate Decompressing(disk: Disk, h0: seq<State>, s0: State, target: Name, written: Bytes)
    reads disk
  {
    && disk.Valid() && OnlyTouched(h0, disk.history, s0, {target}) && AllBounded(h0, disk.history, s0, target)
    && SameBut(s0, disk.state, {target}) && KeepsExclusive(s0, disk.state, {target})
    && Exclusive(disk.state, target) && FileData(disk.state, target) == Some(written)
  }

  method DecompressChunk(disk: Disk, data: Bytes, total: nat, next: nat, target: Name, ghost h0: seq<State>,
                         ghost s0: State)
    returns (ok: bool)
    requires total <= next <= |data| && next <= MAX_UNCOMPRESSED_BACKUP_BYTES
    requires Decompressing(disk, h0, s0, target, data[..total])
    modifies disk
    ensures disk.Valid() && OnlyTouched(h0, disk.history, s0, {target}) && AllBounded(h0, disk.history, s0, target)
    ensures SameBut(s0, disk.state, {target}) && KeepsExclusive(s0, disk.state, {target})
    ensures ok ==> Decompressing(disk, h0, s0, target, data[..next])
    ensures disk.faults == old(disk.faults) + if ok then 0 else 1
  {
    ghost var h, s := disk.history, disk.state;
    ok := disk.Append(target, data[total..next]);
    assert data[..total] + data[total..next] == data[..next];
    OnlyTouchedThen(h0, h, disk.history, s0, s, {target});
    SameButTransitive(s0, s, disk.state, {target});
    AllBoundedThen(h0, h, s0, disk.state, target);
  }

  /** `_decompress_backup`: chunk by chunk, stopping as soon as the total passes the limit. */
  method DecompressBackup(disk: Disk, w: World, path: Name, target: Name) returns (r: Decompression)
    requires disk.Valid() && path != target && (target in disk.state.dir ==> Exclusive(disk.state, target))
    modifies disk
    ensures disk.Valid() && OnlyTouched(old(disk.history), disk.history, old(disk.state), {target})
    ensures SameBut(old(disk.state), disk.state, {target}) && KeepsExclusive(old(disk.state), disk.state, {target})
    ensures AllBounded(old(disk.history), disk.history, old(disk.state), target)
    ensures r != IoError ==> path in old(disk.state).dir
    ensures r != IoError ==>
      var stream := w.gunzip(Current(old(disk.state), path).value.data);
      && (r == Decompressed <==> stream.ending.Clean? && |stream.data| <= MAX_UNCOMPRESSED_BACKUP_BYTES)
      && (r == Corrupted ==> stream.ending.Corrupt?)
      && (r == Rejected ==> stream.ending.Broken? || |stream.data| > MAX_UNCOMPRESSED_BACKUP_BYTES)
      && (r == Decompressed ==>
           FileData(disk.state, target) == Some(stream.data) && Current(disk.state, target).value.stable)
    ensures r == Decompressed ==> Exclusive(disk.state, target)
    ensures disk.faults >= old(disk.faults)
    ensures disk.faults == old(disk.faults) && path in old(disk.state).dir ==> r != IoError
  {
    ghost var h0, s0 := disk.history, disk.state;
    StepSelf(s0, {target});
    if path !in disk.state.dir {
      return IoError;
    }
    var stream := w.gunzip(Current(disk.state, path).value.data);
    var ok := OpenForWriting(disk, target);
    if !ok {
      return IoError;
    }
    var total := 0;
    assert stream.data[..0] == [];
    while total < |stream.data|
      invariant 0 <= total <= |stream.data| && total <= MAX_UNCOMPRESSED_BACKUP_BYTES
      invariant Decompressing(disk, h0, s0, target, stream.data[..total])
      invariant disk.faults >= old(disk.faults)
    {
      var intact: bool, size: nat := *, *;
      ok := disk.Look();
      if !ok {
        return IoError;
      } else if !intact && stream.ending.Corrupt? {
        return Corrupted;
      }
      var next := if 0 < size <= CHUNK_BYTES && total + size <= |stream.data| then total + size else total + 1;
      if next > MAX_UNCOMPRESSED_BACKUP_BYTES {
        return Rejected;
      }
      ok := DecompressChunk(disk, stream.data, total, next, target, h0, s0);
      if !ok {
        return IoError;
      }
      total := next;
    }
    assert stream.data[..total] == stream.data;
    if !stream.ending.Clean? {
      return if stream.ending.Corrupt? then Corrupted else Rejected;
    }
    ghost var h, s := disk.history, disk.state;
    ok := disk.FsyncFile(target);
    OnlyTouchedThen(h0, h, disk.history, s0, s, {target});
    SameButTransitive(s0, s, disk.state, {target});
    AllBoundedThen(h0, h, s0, disk.state, target);
    r := if ok then Decompressed else IoError;
  }

  /** The verdict on a backup that decompresses. */
  lemma VerdictOnContent(w: World, path: Name, file: Bytes, found: bool, read: Option<Sidecar>)
    requires GZIP_MAGIC <= file && w.gunzip(file).ending.Clean?
    requires |w.gunzip(file).data| <= MAX_UNCOMPRESSED_BACKUP_BYTES
    ensures var content := w.gunzip(file).data;
      VerdictFrom(w, path, Some(file), found, read) == Some(
        if SQLITE_HEADER <= content then Examined(w, path, file, found, read, content)
        else FAILED.(readable := true, gzipValid := Some(true), reason := NotSqlite))
  {
  }

  /** The verdict on a backup that does not decompress. */
  lemma VerdictOnFailure(w: World, path: Name, file: Bytes, found: bool, read: Option<Sidecar>, r: Decompression)
    requires GZIP_MAGIC <= file
    requires r == Corrupted ==> w.gunzip(file).ending.Corrupt?
    requires r == Rejected ==>
      w.gunzip(file).ending.Broken? || |w.gunzip(file).data| > MAX_UNCOMPRESSED_BACKUP_BYTES
    ensures r == Corrupted ==> VerdictFrom(w, path, Some(file), found, read) == None
    ensures r == Rejected ==>
      || VerdictFrom(w, path, Some(file), found, read) == Some(INTERNAL)
      || (VerdictFrom(w, path, Some(file), found, read) == None
          && |w.gunzip(file).data| > MAX_UNCOMPRESSED_BACKUP_BYTES)
  {
  }

  /** A new temporary file with the content of the backup. */
  method DecompressToTemporary(disk: Disk, w: World, path: Name, temporary: Name)
    returns (r: Decompression, created: bool)
    requires disk.Valid() && temporary != path && temporary != SidecarName(path) && path in disk.state.dir
    modifies disk
    ensures disk.Valid() && SameBut(old(disk.state), disk.state, {temporary})
    ensures KeepsExclusive(old(disk.state), disk.state, {temporary})
    ensures OnlyTouched(old(disk.history), disk.history, old(disk.state), {temporary})
    ensures AllBounded(old(disk.history), disk.history, old(disk.state), temporary)
    ensures |old(disk.history)| < |disk.history| && (!created ==> r == IoError)
    ensures var stream := w.gunzip(FileData(old(disk.state), path).value);
      && (r == Decompressed ==> stream.ending.Clean? && |stream.data| <= MAX_UNCOMPRESSED_BACKUP_BYTES)
      && (r == Decompressed ==> FileData(disk.state, temporary) == Some(stream.data))
      && (r == Corrupted ==> stream.ending.Corrupt?)
      && (r == Rejected ==> stream.ending.Broken? || |stream.data| > MAX_UNCOMPRESSED_BACKUP_BYTES)
    ensures disk.faults >= old(disk.faults)
    ensures disk.faults == old(disk.faults) && temporary !in old(disk.state).dir ==> r != IoError
  {
    ghost var h0, s0 := disk.history, disk.state;
    created := disk.Create(temporary);
    StepSelf(s0, {temporary});
    if !created {
      return IoError, false;
    }
    ghost var h1, s1 := disk.history, disk.state;
    assert Current(s1, path) == Current(s0, path);
    r := DecompressBackup(disk, w, path, temporary);
    OnlyTouchedThen(h0, h1, disk.history, s0, s1, {temporary});
    SameButTransitive(s0, s1, disk.state, {temporary});
  }

  /** The verdict on the content of a backup, with the sidecar as it can be read. */
  method JudgeContent(disk: Disk, w: World, path: Name, content: Bytes)
    returns (v: Option<Validation>, ghost unread: bool)
    requires disk.Valid() && FileData(disk.state, path).Some? && GZIP_MAGIC <= FileData(disk.state, path).value
    requires w.gunzip(FileData(disk.state, path).value) == Stream(content, Clean)
    requires |content| <= MAX_UNCOMPRESSED_BACKUP_BYTES
    modifies disk`faults
    ensures disk.Valid() && disk.faults >= old(disk.faults)
    ensures v != Some(INTERNAL) ==>
      v == if unread then UnreadVerdictOn(w, disk.state, path) else VerdictOn(w, disk.state, path)
    ensures unread ==> SidecarName(path) in disk.state.dir
    ensures disk.faults == old(disk.faults) ==> !unread && v == VerdictOn(w, disk.state, path)
  {
    var file, found := FileData(disk.state, path).value, FileData(disk.state, SidecarName(path)).Some?;
    VerdictOnContent(w, path, file, found, ReadMetadata(w, FileData(disk.state, SidecarName(path))));
    if !(SQLITE_HEADER <= content) {
      return Some(FAILED.(readable := true, gzipValid := Some(true), reason := NotSqlite)), false;
    }
    var reading := ReadSidecar(disk, w, path);
    if reading.Raises? {
      return Some(INTERNAL), false;
    }
    unread := reading.Unread?;
    VerdictOnContent(w, path, file, found, reading.Result());
    v := Some(Examined(w, path, file, found, reading.Result(), content));
  }

  lemma SameVerdict(w: World, s: State, t: State, path: Name)
    requires FileData(s, path) == FileData(t, path) && FileData(s, SidecarName(path)) == FileData(t, SidecarName(path))
    ensures VerdictOn(w, s, path) == VerdictOn(w, t, path) && UnreadVerdictOn(w, s, path) == UnreadVerdictOn(w, t, path)
  {
  }

  /**
   The part of `validate_backup` that uses a temporary file, for a file with the right first bytes; `None` when that
   raises what is not caught.
   */
  method ExamineBackup(disk: Disk, w: World, path: Name, temporary: Name)
    returns (v: Option<Validation>, created: bool, ghost unread: bool)
    requires disk.Valid() && temporary != path && temporary != SidecarName(path)
    requires path in disk.state.dir && GZIP_MAGIC <= FileData(disk.state, path).value
    modifies disk
    ensures disk.Valid() && SameBut(old(disk.state), disk.state, {temporary})
    ensures KeepsExclusive(old(disk.state), disk.state, {temporary})
    ensures OnlyTouched(old(disk.history), disk.history, old(disk.state), {temporary})
    ensures AllBounded(old(disk.history), disk.history, old(disk.state), temporary)
    ensures v != Some(INTERNAL) ==>
      v == if unread then UnreadVerdictOn(w, old(disk.state), path) else VerdictOn(w, old(disk.state), path)
    ensures !created ==> v == Some(INTERNAL)
    ensures |old(disk.history)| < |disk.history|
    ensures unread ==> SidecarName(path) in old(disk.state).dir
    ensures disk.faults >= old(disk.faults)
    ensures disk.faults == old(disk.faults) && temporary !in old(disk.state).dir ==>
      !unread && created && IsVerdict(w, old(disk.state), path, v)
  {
    ghost var s0 := disk.state;
    var r;
    r, created := DecompressToTemporary(disk, w, path, temporary);
    VerdictOnFailure(w, path, FileData(s0, path).value, FileData(s0, SidecarName(path)).Some?,
                     ReadMetadata(w, FileData(s0, SidecarName(path))), r);
    if r != Decompressed {
      return if r == Corrupted then None else Some(INTERNAL), created, false;
    }
    assert FileData(disk.state, path) == FileData(s0, path);
    assert FileData(disk.state, SidecarName(path)) == FileData(s0, SidecarName(path));
    SameVerdict(w, s0, disk.state, path);
    v, unread := JudgeContent(disk, w, path, FileData(disk.state, temporary).value);
  }

  /** The verdicts before anything is decompressed. */
  lemma EarlyVerdicts(w: World, path: Name, file: Option<Bytes>, found: bool, read: Option<Sidecar>)
    ensures file.None? ==> VerdictFrom(w, path, file, found, read) == Some(FAILED)
    ensures file == Some([]) ==>
      VerdictFrom(w, path, file, found, read) == Some(FAILED.(readable := true, reason := EmptyFile))
    ensures file.Some? && file.value != [] && !(GZIP_MAGIC <= file.value) ==>
      VerdictFrom(w, path, file, found, read) == Some(FAILED.(readable := true, reason := NotGzip))
    ensures !Passed(INTERNAL)
  {
  }

  /** The clean-up of a run that began in `s0` and touched nothing but the temporary file. */
  method RemoveTemporary(disk: Disk, temporary: Name, ghost h0: seq<State>, ghost s0: State) returns (ok: bool)
    requires disk.Valid() && SameBut(s0, disk.state, {temporary}) && KeepsExclusive(s0, disk.state, {temporary})
    requires OnlyTouched(h0, disk.history, s0, {temporary}) && AllBounded(h0, disk.history, s0, temporary)
    requires |h0| < |disk.history|
    modifies disk
    ensures disk.faults == old(disk.faults) + if ok then 0 else 1
    ensures ok ==> temporary !in disk.state.dir
    ensures disk.Valid() && SameBut(s0, disk.state, {temporary}) && KeepsExclusive(s0, disk.state, {temporary})
    ensures OnlyTouched(h0, disk.history, s0, {temporary}) && AllBounded(h0, disk.history, s0, temporary)
  {
    ghost var h1, s1 := disk.history, disk.state;
    StepSelf(s1, {temporary});
    ok := disk.Unlink(temporary);
    OnlyTouchedThen(h0, h1, disk.history, s0, s1, {temporary});
    SameButTransitive(s0, s1, disk.state, {temporary});
  }

  /** `validate_backup`; `None` when it raises: for a corrupt stream, or if the temporary file cannot be removed. */
  method ValidateBackup(disk: Disk, w: World, path: Name, temporary: Name)
    returns (v: Option<Validation>, ghost unread: bool)
    requires disk.Valid() && temporary != path && temporary != SidecarName(path)
    modifies disk
    ensures disk.Valid() && SameBut(old(disk.state), disk.state, {temporary})
    ensures KeepsExclusive(old(disk.state), disk.state, {temporary})
    ensures OnlyTouched(old(disk.history), disk.history, old(disk.state), {temporary})
    ensures AllBounded(old(disk.history), disk.history, old(disk.state), temporary)
    ensures v.Some? && v.value != INTERNAL ==>
      v == if unread then UnreadVerdictOn(w, old(disk.state), path) else VerdictOn(w, old(disk.state), path)
    ensures v.Some? && Passed(v.value) ==> AcceptsOn(w, old(disk.state), path) && !unread
    ensures unread ==> SidecarName(path) in old(disk.state).dir
    ensures disk.faults >= old(disk.faults)
    ensures disk.faults == old(disk.faults) && temporary !in old(disk.state).dir ==>
      !unread && IsVerdict(w, old(disk.state), path, v) && temporary !in disk.state.dir
  {
    ghost var h0, s0 := disk.history, disk.state;
    StepSelf(s0, {temporary});
    VerdictIsAcceptance(w, path, FileData(s0, path), FileData(s0, SidecarName(path)));
    UnreadDoesNotPass(w, path, FileData(s0, path));
    EarlyVerdicts(w, path, FileData(s0, path), FileData(s0, SidecarName(path)).Some?,
                  ReadMetadata(w, FileData(s0, SidecarName(path))));
    hide VerdictFrom, Accepts, Passed;
    var file := FileData(disk.state, path);
    if path !in disk.state.dir {
      return Some(FAILED), false;
    }
    if file.value == [] {
      return Some(FAILED.(readable := true, reason := EmptyFile)), false;
    }
    if !(GZIP_MAGIC <= file.value) {
      return Some(FAILED.(readable := true, reason := NotGzip)), false;
    }
    var verdict, created;
    verdict, created, unread := ExamineBackup(disk, w, path, temporary);
    if !created {
      return verdict, unread;
    }
    var removed := RemoveTemporary(disk, temporary, h0, s0);
    v := if removed then verdict else None;
  }

  /** The sidecar that `record_validation` starts from. */
  function SidecarBefore(w: World, s: State, path: Name, read: bool): Sidecar {
    var m := ReadMetadata(w, FileData(s, SidecarName(path)));
    if read && m.Some? then m.value else EMPTY_SIDECAR
  }

  /**
   What a recording from `s` to `t` does: the new sidecar says all that the old one said, with the validation. What
   pruning may take, and what is acceptable, stays the same if and only if the old sidecar was read and the new one is
   not too long to be.
   */
  ghost predicate IsRecorded(w: World, s: State, t: State, path: Name, read: bool, v: Validation, modifiedAt: string,
                             redacted: string)
    requires FileData(s, path).Some? && FileData(t, SidecarName(path)).Some?
  {
    var recorded := FileData(t, SidecarName(path)).value;
    var kept := read && |recorded| <= MAX_METADATA_BYTES;
    && w.parse(recorded).Object? && recorded == w.render(w.parse(recorded).sidecar)
    && Records(w, path, FileData(s, path).value, SidecarBefore(w, s, path, read), w.parse(recorded).sidecar, v,
               modifiedAt, redacted)
    && (Retention.IsAutomatic(w, t, path) <==> Retention.IsAutomatic(w, s, path) && kept)
    && (path != "" && AcceptsOn(w, s, path) ==> (AcceptsOn(w, t, path) <==> kept))
    && (!read ==> !AcceptsOn(w, t, path))
  }

  lemma RecordingTells(w: World, s: State, t: State, path: Name, read: bool, v: Validation, modifiedAt: string,
                       redacted: string)
    requires Sound(w) && FileData(s, path).Some? && FileData(t, path) == FileData(s, path)
    requires read ==> ReadMetadata(w, FileData(s, SidecarName(path))).Some?
    requires FileData(t, SidecarName(path)) == Some(w.render(
      RecordedMetadata(w, path, FileData(s, path).value, SidecarBefore(w, s, path, read), v, modifiedAt, redacted)))
    ensures IsRecorded(w, s, t, path, read, v, modifiedAt, redacted)
  {
    var file, m := FileData(s, path).value, SidecarBefore(w, s, path, read);
    var r := RecordedMetadata(w, path, file, m, v, modifiedAt, redacted);
    assert w.parse(w.render(r)) == Object(r) && "unknown" != "automatic";
    RecordedRecords(w, path, file, m, v, modifiedAt, redacted);
    if !read {
      UnreadRecordingLoses(w, path, file, v, modifiedAt, redacted);
    } else if path != "" && AcceptsOn(w, s, path) {
      RecordingKeepsAcceptance(w, path, file, FileData(s, SidecarName(path)).value, v, modifiedAt, redacted);
    }
  }

  /** `record_validation`; `read` is false when the sidecar was there and could not be read. */
  method RecordValidation(disk: Disk, w: World, path: Name, v: Validation, modifiedAt: string, redacted: string,
                          temporary: Name)
    returns (ok: bool, ghost read: bool)
    requires disk.Valid() && Sound(w) && temporary != path && temporary != SidecarName(path)
    modifies disk
    ensures disk.Valid() && Undisturbed(old(disk.state), disk.state, {temporary, SidecarName(path)})
    ensures !ok ==> (AcceptsOn(w, disk.state, path) <==> AcceptsOn(w, old(disk.state), path))
    ensures ok ==> path in old(disk.state).dir && FileData(disk.state, SidecarName(path)).Some?
    ensures ok && read ==> ReadMetadata(w, FileData(old(disk.state), SidecarName(path))).Some?
    ensures !read ==> SidecarName(path) in old(disk.state).dir
    ensures ok ==> IsRecorded(w, old(disk.state), disk.state, path, read, v, modifiedAt, redacted)
    ensures disk.faults >= old(disk.faults)
    ensures disk.faults == old(disk.faults) && temporary !in old(disk.state).dir ==>
      && (ok <==> path in old(disk.state).dir &&
                  ReadMetadata(w, FileData(old(disk.state), SidecarName(path))).Some?)
      && read && temporary !in disk.state.dir
  {
    ghost var s0 := disk.state;
    assert |SidecarName(path)| > |path|;
    StepSelf(s0, {temporary});
    SameIsUndisturbed(s0, s0, {});
    var before := ReadSidecar(disk, w, path);
    read := !before.Unread?;
    var hashes := disk.Look();
    if path !in disk.state.dir || before.Raises? || !hashes {
      return false, read;
    }
    var file := FileData(disk.state, path).value;
    var recorded := w.render(RecordedMetadata(w, path, file, before.Result().value, v, modifiedAt, redacted));
    ok := WriteMetadata(disk, path, recorded, temporary);
    if ok {
      RecordingTells(w, s0, disk.state, path, read, v, modifiedAt, redacted);
    }
  }

  /** `Refused`: the backup was not found acceptable. */
  datatype Restoration = Restored | Refused | Failed

  /** A database with the schema, for which the sidecar of this backup vouches. */
  predicate IsRightContent(w: World, s: State, path: Name, content: Bytes) {
    && FileData(s, path).Some? && SQLITE_HEADER <= content
    && w.inspect(content).Inspected? && w.inspect(content).integrityOk && HasMinimumSchema(w.inspect(content).tables)
    && Vouches(w, path, FileData(s, path).value, FileData(s, SidecarName(path)), content)
  }

  /** The checks of `prepare_restore_candidate` on what it has written. */
  method CheckCandidate(disk: Disk, w: World, path: Name, content: Bytes) returns (r: Restoration, ghost unread: bool)
    requires disk.Valid() && FileData(disk.state, path).Some?
    modifies disk`faults
    ensures disk.Valid() && disk.faults >= old(disk.faults)
    ensures disk.faults == old(disk.faults) ==>
      !unread && (r == Restored <==> IsRightContent(w, disk.state, path, content))
    ensures r == Restored ==> IsRightContent(w, disk.state, path, content)
    ensures r == Refused && !unread ==> !IsRightContent(w, disk.state, path, content)
    ensures unread ==> r != Restored && SidecarName(path) in disk.state.dir
  {
    unread := false;
    var database := w.inspect(content);
    if !(SQLITE_HEADER <= content) || database.NotADatabase? || !database.integrityOk
      || !HasMinimumSchema(database.tables) {
      return Refused, false;
    }
    var found := FileData(disk.state, SidecarName(path)).Some?;
    var reading := ReadSidecar(disk, w, path);
    if reading.Raises? {
      return Failed, false;
    }
    unread := reading.Unread?;
    var checked := ValidateMetadata(w, path, FileData(disk.state, path).value, found, reading.Result(), content).value;
    r := if checked.0 && checked.1 then Restored else Refused;
  }

  lemma AcceptedIsRight(w: World, s: State, path: Name)
    requires AcceptsOn(w, s, path)
    ensures IsRightContent(w, s, path, w.gunzip(FileData(s, path).value).data)
  {
  }

  lemma SameIsAccepted(w: World, s: State, t: State, path: Name)
    requires FileData(s, path) == FileData(t, path) && FileData(s, SidecarName(path)) == FileData(t, SidecarName(path))
    ensures AcceptsOn(w, s, path) == AcceptsOn(w, t, path)
  {
  }

  lemma SameIsRight(w: World, s: State, t: State, path: Name, content: Bytes)
    requires FileData(s, path) == FileData(t, path) && FileData(s, SidecarName(path)) == FileData(t, SidecarName(path))
    ensures IsRightContent(w, s, path, content) == IsRightContent(w, t, path, content)
  {
  }

  lemma BoundedElsewhere(h0: seq<State>, h: seq<State>, s0: State, target: Name, temporary: Name)
    requires OnlyTouched(h0, h, s0, {temporary}) && target != temporary
    ensures AllBounded(h0, h, s0, target)
  {
  }

  lemma SameInTurn(s: State, t: State, u: State, a: Name, b: Name)
    requires SameBut(s, t, {a}) && SameBut(t, u, {b}) && a != b && WellFormed(t) && WellFormed(u)
    ensures SameBut(s, u, {b, a}) && (a in t.dir <==> a in u.dir)
  {
    assert Current(t, a) == Current(u, a);
  }

  lemma BoundedTwice(h0: seq<State>, h1: seq<State>, h2: seq<State>, s0: State, s1: State, target: Name)
    requires AllBounded(h0, h1, s0, target) && Bounded(s0, s1, target) && AllBounded(h1, h2, s1, target)
    ensures AllBounded(h0, h2, s0, target)
  {
  }

  /** The validation at the start of `prepare_restore_candidate`: why it goes no further, or nothing. */
  method Screen(disk: Disk, w: World, path: Name, temporary: Name)
    returns (refusal: Option<Restoration>, ghost unread: bool)
    requires disk.Valid() && temporary != path && temporary != SidecarName(path)
    modifies disk
    ensures disk.Valid() && SameBut(old(disk.state), disk.state, {temporary})
    ensures KeepsExclusive(old(disk.state), disk.state, {temporary})
    ensures OnlyTouched(old(disk.history), disk.history, old(disk.state), {temporary})
    ensures refusal.None? ==> AcceptsOn(w, old(disk.state), path) && AcceptsOn(w, disk.state, path) && !unread
    ensures refusal == Some(Refused) && !unread ==> !AcceptsOn(w, old(disk.state), path)
    ensures refusal != Some(Restored) && (unread ==> SidecarName(path) in old(disk.state).dir)
    ensures disk.faults >= old(disk.faults)
    ensures disk.faults == old(disk.faults) && temporary !in old(disk.state).dir ==>
      (refusal.None? <==> AcceptsOn(w, old(disk.state), path)) && temporary !in disk.state.dir && !unread
  {
    ghost var s0 := disk.state;
    VerdictIsAcceptance(w, path, FileData(s0, path), FileData(s0, SidecarName(path)));
    var v;
    v, unread := ValidateBackup(disk, w, path, temporary);
    SameIsAccepted(w, s0, disk.state, path);
    if v.None? || v.value == INTERNAL {
      refusal := Some(Failed);
    } else {
      refusal := if Passed(v.value) then None else Some(Refused);
    }
  }

  /** Decompressing an acceptable backup into `target`, and checking what was written. */
  method FillCandidate(disk: Disk, w: World, path: Name, target: Name) returns (r: Restoration, ghost unread: bool)
    requires disk.Valid() && AcceptsOn(w, disk.state, path) && target != path && target != SidecarName(path)
    requires target in disk.state.dir ==> Exclusive(disk.state, target)
    modifies disk
    ensures disk.Valid() && SameBut(old(disk.state), disk.state, {target})
    ensures AllBounded(old(disk.history), disk.history, old(disk.state), target)
    ensures r == Restored ==>
      FileData(disk.state, target) == Some(w.gunzip(FileData(old(disk.state), path).value).data) &&
      Current(disk.state, target).value.stable
    ensures r == Refused ==> unread
    ensures unread ==> r != Restored && SidecarName(path) in old(disk.state).dir
    ensures disk.faults >= old(disk.faults) && (disk.faults == old(disk.faults) ==> r == Restored)
  {
    ghost var s0 := disk.state;
    AcceptedIsRight(w, s0, path);
    var d := DecompressBackup(disk, w, path, target);
    if d != Decompressed {
      return Failed, false;
    }
    assert FileData(disk.state, path) == FileData(s0, path);
    assert FileData(disk.state, SidecarName(path)) == FileData(s0, SidecarName(path));
    SameIsRight(w, s0, disk.state, path, FileData(disk.state, target).value);
    r, unread := CheckCandidate(disk, w, path, FileData(disk.state, target).value);
  }

  /**
   `prepare_restore_candidate`: validate, decompress into `target`, and check what was written again. A
   backup is refused although it is acceptable only if its sidecar could not be read.
   */
  method PrepareRestoreCandidate(disk: Disk, w: World, path: Name, target: Name, temporary: Name)
    returns (r: Restoration, ghost unread: bool)
    requires disk.Valid() && temporary != path && temporary != SidecarName(path)
    requires target != path && target != SidecarName(path) && target != temporary
    requires target in disk.state.dir ==> Exclusive(disk.state, target)
    modifies disk
    ensures disk.Valid() && SameBut(old(disk.state), disk.state, {target, temporary})
    ensures AllBounded(old(disk.history), disk.history, old(disk.state), target)
    ensures r == Restored ==> AcceptsOn(w, old(disk.state), path)
    ensures r == Restored ==>
      FileData(disk.state, target) == Some(w.gunzip(FileData(old(disk.state), path).value).data) &&
      Current(disk.state, target).value.stable
    ensures r == Refused && !unread ==> !AcceptsOn(w, old(disk.state), path)
    ensures unread ==> r != Restored && SidecarName(path) in old(disk.state).dir
    ensures disk.faults >= old(disk.faults)
    ensures disk.faults == old(disk.faults) && temporary !in old(disk.state).dir ==>
      && (r == Restored <==> AcceptsOn(w, old(disk.state), path))
      && (r != Restored ==> SameFile(old(disk.state), disk.state, target))
      && temporary !in disk.state.dir && !unread
  {
    ghost var h0, s0 := disk.history, disk.state;
    var refusal;
    refusal, unread := Screen(disk, w, path, temporary);
    ghost var h1, s1 := disk.history, disk.state;
    BoundedElsewhere(h0, h1, s0, target, temporary);
    if refusal.Some? {
      return refusal.value, unread;
    }
    r, unread := FillCandidate(disk, w, path, target);
    BoundedTwice(h0, h1, disk.history, s0, s1, target);
    SameInTurn(s0, s1, disk.state, temporary, target);
  }
}
