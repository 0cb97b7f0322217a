/** The file operations that backend/app/services/backups.py is made of. */
module BackupFiles {
  import opened Wrappers
  import opened FileSystem
  import opened Disks
  import opened Publication
  import opened BackupFormat

  function DataOf(x: Option<Node>): Option<Bytes> {
    if x.Some? then Some(x.value.data) else None
  }

  /** The bytes of the backup, and of its sidecar. */
  function FileData(s: State, n: Name): Option<Bytes> {
    DataOf(Current(s, n))
  }

  /** How `_read_metadata` ends: with an exception, with a system error that it takes for an empty sidecar, or well. */
  datatype Reading = Raises | Unread | Read(sidecar: Sidecar) {
    /** What the caller gets. */
    function Result(): Option<Sidecar> {
      match this
      case Raises => None
      case Unread => Some(EMPTY_SIDECAR)
      case Read(m) => Some(m)
    }
  }

  /** `_read_metadata` */
  method ReadSidecar(disk: Disk, w: World, path: Name) returns (r: Reading)
    requires disk.Valid()
    modifies disk`faults
    ensures disk.Valid() && disk.faults >= old(disk.faults)
    ensures r.Read? ==> ReadMetadata(w, FileData(disk.state, SidecarName(path))) == Some(r.sidecar)
    ensures r.Unread? ==> SidecarName(path) in disk.state.dir
    ensures disk.faults == old(disk.faults) ==>
      !r.Unread? && r.Result() == ReadMetadata(w, FileData(disk.state, SidecarName(path)))
  {
    var ok := disk.Look();
    if !ok {
      return Raises;
    }
    if SidecarName(path) !in disk.state.dir {
      return Read(EMPTY_SIDECAR);
    }
    ok := disk.Look();
    if !ok {
      return Unread;
    }
    var m := ReadMetadata(w, FileData(disk.state, SidecarName(path)));
    r := if m.None? then Raises else Read(m.value);
  }

  /** Opens a file for writing: `open(path, "wb")`. */
  method OpenForWriting(disk: Disk, target: Name) returns (ok: bool)
    requires disk.Valid() && (target in disk.state.dir ==> Exclusive(disk.state, target))
    modifies disk
    ensures disk.Valid() && disk.history == old(disk.history) + [disk.state]
    ensures SameBut(old(disk.state), disk.state, {target}) && KeepsExclusive(old(disk.state), disk.state, {target})
    ensures ok ==> Exclusive(disk.state, target) && FileData(disk.state, target) == Some([])
    ensures !ok ==> FileData(disk.state, target) == FileData(old(disk.state), target)
    ensures disk.clock >= old(disk.clock) && disk.faults == old(disk.faults) + if ok then 0 else 1
  {
    ghost var s0 := disk.state;
    StepSelf(s0, {target});
    if target in disk.state.dir {
      ok := disk.Fill(target, []);
    } else {
      ok := disk.Create(target);
    }
  }

  /** A temporary file with all of `text`, synchronised. */
  method WriteTemporary(disk: Disk, temporary: Name, text: Bytes) returns (ok: bool)
    requires disk.Valid()
    modifies disk
    ensures disk.Valid() && OnlyTouched(old(disk.history), disk.history, old(disk.state), {temporary})
    ensures SameBut(old(disk.state), disk.state, {temporary})
      && KeepsExclusive(old(disk.state), disk.state, {temporary})
    ensures disk.clock >= old(disk.clock)
    ensures ok ==>
      Exclusive(disk.state, temporary) && IsDurable(Current(disk.state, temporary), Image(text, disk.identity))
    ensures disk.faults >= old(disk.faults)
    ensures disk.faults == old(disk.faults) ==> (ok <==> temporary !in old(disk.state).dir)
  {
    ghost var h0, s0 := disk.history, disk.state;
    StepSelf(s0, {temporary});
    ok := disk.Create(temporary);
    if !ok { return; }
    ghost var h1, s1 := disk.history, disk.state;
    ok := disk.Append(temporary, text);
    assert [] + text == text;
    OnlyTouchedThen(h0, h1, disk.history, s0, s1, {temporary});
    SameButTransitive(s0, s1, disk.state, {temporary});
    if !ok { return; }
    ghost var h2, s2 := disk.history, disk.state;
    ok := disk.FsyncFile(temporary);
    OnlyTouchedThen(h0, h2, disk.history, s0, s2, {temporary});
    SameButTransitive(s0, s2, disk.state, {temporary});
  }

  /** `_write_metadata`: the sidecar is replaced as a whole, or not at all. */
  method WriteMetadata(disk: Disk, path: Name, text: Bytes, temporary: Name) returns (ok: bool)
    requires disk.Valid() && temporary != SidecarName(path)
    modifies disk
    ensures disk.Valid() && Undisturbed(old(disk.state), disk.state, {temporary, SidecarName(path)})
    ensures KeepsExclusive(old(disk.state), disk.state, {temporary, SidecarName(path)}) && disk.clock >= old(disk.clock)
    ensures Kept(old(disk.history), disk.history, old(disk.state), {temporary, SidecarName(path)}, SidecarName(path),
                 Image(text, disk.identity))
    ensures OldOrNew(old(disk.state), disk.state, SidecarName(path), Image(text, disk.identity))
    ensures ok ==> IsDurable(Current(disk.state, SidecarName(path)), Image(text, disk.identity))
    ensures !ok ==> SameBut(old(disk.state), disk.state, {temporary})
    ensures disk.faults >= old(disk.faults)
    ensures disk.faults == old(disk.faults) ==>
      (ok <==> temporary !in old(disk.state).dir) && temporary !in disk.state.dir
  {
    var sidecar := SidecarName(path);
    ghost var h0, s0 := disk.history, disk.state;
    ghost var image := Image(text, disk.identity);
    ok := WriteTemporary(disk, temporary, text);
    ghost var h1, s1 := disk.history, disk.state;
    UntouchedIsKept(h0, h1, s0, {temporary}, {temporary, sidecar}, sidecar, image);
    SameIsUndisturbed(s0, s1, {temporary});
    if ok {
      ok := Publish(disk, temporary, sidecar);
      KeptThen(h0, h1, disk.history, s0, s1, {temporary}, {temporary, sidecar}, sidecar, image);
      UndisturbedTransitive(s0, s1, disk.state, {temporary}, {temporary, sidecar});
      assert {temporary} + {temporary, sidecar} == {temporary, sidecar};
    }
    ghost var h2, s2 := disk.history, disk.state;
    var _ := disk.Unlink(temporary);
    SameIsUndisturbed(s2, disk.state, {temporary});
    UndisturbedTransitive(s0, s2, disk.state, {temporary, sidecar}, {temporary});
    assert {temporary, sidecar} + {temporary} == {temporary, sidecar};
    KeptOneMore(h0, h2, disk.state, s0, {temporary, sidecar}, sidecar, image);
    if !ok {
      SameButTransitive(s0, s2, disk.state, {temporary});
    }
  }
}
