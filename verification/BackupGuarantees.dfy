/** What a backup is worth: crashes during `create_backup_result`, and the way back through a restore. */
module BackupGuarantees {
  import opened Wrappers
  import opened FileSystem
  import opened Disks
  import opened Publication
  import opened BackupFormat
  import opened BackupFiles
  import opened Restore
  import opened Creation

  function Left(disk: map<Name, Image>, n: Name): Option<Image> {
    if n in disk then Some(disk[n]) else None
  }

  function LeftData(disk: map<Name, Image>, n: Name): Option<Bytes> {
    if n in disk then Some(disk[n].data) else None
  }

  /** The name has no file, and a crash cannot bring one back. */
  ghost predicate IsFree(s: State, n: Name) {
    Fates(s, n) == {None}
  }

  /** A crash leaves a name as it could have been before the run, or as planned. */
  lemma CrashFollowsPlan(p: Plan, s: State, t: State, n: Name, f: Option<Image>)
    requires Follows(p, s, t) && n !in p.temporary && MaySurvive(t, n, f)
    ensures MaySurvive(s, n, f) || (Planned(p, n).Some? && f == Planned(p, n)) || (n in p.mayGo && f == None)
  {
  }

  lemma FreeStaysFree(s: State, n: Name, f: Option<Image>)
    requires IsFree(s, n) && MaySurvive(s, n, f)
    ensures f == None
  {
  }

  /**
   A crash after any call of `create_backup_result`, or an exception: under a name that was free there is
   no file, or all of the compressed snapshot. It is accepted exactly when the snapshot is restorable and
   the sidecar left beside it vouches for it, so never without a sidecar.
   */
  lemma CrashLeavesWholeBackup(w: World, p: Plan, h0: seq<State>, h: seq<State>, k: nat, s0: State, snap: Bytes,
                               disk: map<Name, Image>)
    requires Sound(w) && p.file.data == w.gzip(snap) && p.backup !in p.temporary
    requires AllFollow(p, h0, h, s0) && |h0| <= k < |h|
    requires IsFree(s0, p.backup) && MayCrashTo(h[k], disk)
    ensures p.backup in disk ==> disk[p.backup] == p.file && w.gunzip(disk[p.backup].data) == Stream(snap, Clean)
    ensures Accepts(w, p.backup, LeftData(disk, p.backup), LeftData(disk, SidecarName(p.backup))) <==>
      && p.backup in disk && Restorable(w, snap)
      && Vouches(w, p.backup, p.file.data, LeftData(disk, SidecarName(p.backup)), snap)
    ensures SidecarName(p.backup) !in disk ==>
      !Accepts(w, p.backup, LeftData(disk, p.backup), LeftData(disk, SidecarName(p.backup)))
  {
    CrashFollowsPlan(p, s0, h[k], p.backup, Left(disk, p.backup));
    if p.backup in disk {
      if MaySurvive(s0, p.backup, Left(disk, p.backup)) {
        FreeStaysFree(s0, p.backup, Left(disk, p.backup));
      }
      assert w.gunzip(w.gzip(snap)) == Stream(snap, Clean);
      assert GZIP_MAGIC <= w.gzip(snap);
    }
  }

  /** When the sidecar's name was free too, the backup is accepted exactly when both files are left. */
  lemma CrashLeavesAcceptedPair(w: World, path: Name, snap: Bytes, tag: Tag, temps: Temporaries, owner: Ownership,
                                mayGo: set<Name>, h0: seq<State>, h: seq<State>, k: nat, s0: State,
                                disk: map<Name, Image>)
    requires Sound(w) && temps.Valid() && !IsTemporary(path) && !IsTemporary(SidecarName(path))
    requires AllFollow(PlanFor(w, path, snap, tag, temps, owner).(mayGo := mayGo), h0, h, s0) && |h0| <= k < |h|
    requires IsFree(s0, path) && IsFree(s0, SidecarName(path)) && MayCrashTo(h[k], disk)
    requires Restorable(w, snap) && |SidecarText(w, path, snap, tag)| <= MAX_METADATA_BYTES
    ensures Accepts(w, path, LeftData(disk, path), LeftData(disk, SidecarName(path))) <==>
      path in disk && SidecarName(path) in disk
  {
    var p := PlanFor(w, path, snap, tag, temps, owner).(mayGo := mayGo);
    assert |SidecarName(path)| > |path|;
    CrashLeavesWholeBackup(w, p, h0, h, k, s0, snap, disk);
    CrashFollowsPlan(p, s0, h[k], SidecarName(path), Left(disk, SidecarName(path)));
    if SidecarName(path) in disk {
      if MaySurvive(s0, SidecarName(path), Left(disk, SidecarName(path))) {
        FreeStaysFree(s0, SidecarName(path), Left(disk, SidecarName(path)));
      }
      assert disk[SidecarName(path)] == p.sidecar;
      NewBackupIsAccepted(w, path, snap, tag.source, tag.createdAt);
    }
  }

  /**
   The files of other backups: a run neither overwrites nor damages them, and only the pruning, of names
   in `mayGo`, takes any away.
   */
  lemma OtherFilesStay(p: Plan, h0: seq<State>, h: seq<State>, k: nat, s0: State, n: Name, disk: map<Name, Image>)
    requires AllFollow(p, h0, h, s0) && |h0| <= k < |h|
    requires n !in p.temporary && n != p.backup && n != SidecarName(p.backup)
    ensures Current(h[k], n) == Current(s0, n) || (n in p.mayGo && Current(h[k], n) == None)
    ensures MayCrashTo(h[k], disk) ==> MaySurvive(s0, n, Left(disk, n)) || (n in p.mayGo && n !in disk)
  {
    if MayCrashTo(h[k], disk) {
      assert MaySurvive(h[k], n, Left(disk, n));
      CrashFollowsPlan(p, s0, h[k], n, Left(disk, n));
    }
  }

  /** A backup that was reported as created survives every crash whole, and is accepted if it can be restored. */
  lemma CreatedBackupIsSafe(w: World, path: Name, snap: Bytes, tag: Tag, temps: Temporaries, owner: Ownership,
                            mayGo: set<Name>, s: State, disk: map<Name, Image>)
    requires Sound(w) && IsStored(PlanFor(w, path, snap, tag, temps, owner).(mayGo := mayGo), s) && MayCrashTo(s, disk)
    ensures LeftData(disk, path) == FileData(s, path) == Some(w.gzip(snap))
    ensures LeftData(disk, SidecarName(path)) == FileData(s, SidecarName(path)) == Some(SidecarText(w, path, snap, tag))
    ensures AcceptsOn(w, s, path) <==> Accepts(w, path, LeftData(disk, path), LeftData(disk, SidecarName(path)))
    ensures Restorable(w, snap) ==> (AcceptsOn(w, s, path) <==> |SidecarText(w, path, snap, tag)| <= MAX_METADATA_BYTES)
  {
    var p := PlanFor(w, path, snap, tag, temps, owner).(mayGo := mayGo);
    OnDiskAfterCrash(s, path, p.file, Left(disk, path));
    OnDiskAfterCrash(s, SidecarName(path), p.sidecar, Left(disk, SidecarName(path)));
    if Restorable(w, snap) {
      NewBackupIsAccepted(w, path, snap, tag.source, tag.createdAt);
    }
  }

  /**
   The round trip through the disk: restoring a created backup of a restorable snapshot writes the bytes
   of the snapshot, and is refused only if its sidecar cannot be read.
   */
  method RestoreCreatedBackup(disk: Disk, w: World, snap: Bytes, tag: Tag, temps: Temporaries, p: Plan,
                              target: Name, temporary: Name)
    returns (r: Restoration, ghost unread: bool)
    requires disk.Valid() && Sound(w) && Restorable(w, snap)
    requires p.file.data == w.gzip(snap) && p.sidecar.data == SidecarText(w, p.backup, snap, tag)
      && IsStored(p, disk.state)
    requires |p.sidecar.data| <= MAX_METADATA_BYTES
    requires IsTemporary(temporary) && !IsTemporary(p.backup) && !IsTemporary(SidecarName(p.backup))
    requires target != p.backup && target != SidecarName(p.backup) && target != temporary
    requires target in disk.state.dir ==> Exclusive(disk.state, target)
    modifies disk
    ensures disk.Valid() && (r == Refused ==> unread)
    ensures unread ==> SidecarName(p.backup) in old(disk.state).dir
    ensures r == Restored ==> FileData(disk.state, target) == Some(snap) && Current(disk.state, target).value.stable
    ensures AllBounded(old(disk.history), disk.history, old(disk.state), target)
    ensures disk.faults >= old(disk.faults)
    ensures disk.faults == old(disk.faults) && temporary !in old(disk.state).dir ==> r == Restored
  {
    NewBackupIsAccepted(w, p.backup, snap, tag.source, tag.createdAt);
    assert w.gunzip(w.gzip(snap)) == Stream(snap, Clean);
    r, unread := PrepareRestoreCandidate(disk, w, p.backup, target, temporary);
  }
}
