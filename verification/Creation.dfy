/** `create_backup_result`: snapshot, compress, describe, rename, sidecar, synchronise, prune, clean up. */
module Creation {
  import opened Wrappers
  import opened FileSystem
  import opened Disks
  import opened Publication
  import opened BackupFormat
  import opened BackupFiles
  import opened Retention
  import Decimal

  // ---------- The promise about every state of a run ----------

  /** The files that a run puts in place, and the names it may leave without a file. */
  datatype Plan = Plan(backup: Name, file: Image, sidecar: Image, temporary: set<Name>, mayGo: set<Name>)

  function Planned(p: Plan, n: Name): Option<Image> {
    if n == p.backup then Some(p.file) else if n == SidecarName(p.backup) then Some(p.sidecar) else None
  }

  predicate IsPlanned(p: Plan, n: Name, x: Option<Node>) {
    (Planned(p, n).Some? && IsDurable(x, Planned(p, n).value)) || (n in p.mayGo && x == None)
  }

  /** Every name but the temporary ones is as in `s`, or as planned; and a crash leaves nothing else. */
  ghost predicate Follows(p: Plan, s: State, t: State) {
    forall n {:trigger Current(t, n)} {:trigger Fates(t, n)} | n !in p.temporary ::
      && (Current(t, n) == Current(s, n) || IsPlanned(p, n, Current(t, n)))
      && (forall x | x in Fates(t, n) :: x in Fates(s, n) || IsPlanned(p, n, x))
  }

  ghost predicate AllFollow(p: Plan, h0: seq<State>, h: seq<State>, s: State) {
    Continues(h0, h) && forall k | |h0| <= k < |h| :: Follows(p, s, h[k])
  }

  lemma FollowsTransitive(p: Plan, s: State, t: State, u: State)
    requires Follows(p, s, t) && Follows(p, t, u)
    ensures Follows(p, s, u)
  {
  }

  lemma AllFollowThen(p: Plan, h0: seq<State>, h1: seq<State>, h2: seq<State>, s: State, t: State)
    requires AllFollow(p, h0, h1, s) && Follows(p, s, t) && AllFollow(p, h1, h2, t)
    ensures AllFollow(p, h0, h2, s)
  {
  }

  lemma FollowsMore(p: Plan, q: Plan, h0: seq<State>, h: seq<State>, s: State, t: State)
    requires q == p.(mayGo := q.mayGo) && p.mayGo <= q.mayGo
    requires AllFollow(p, h0, h, s) && Follows(p, s, t)
    ensures AllFollow(q, h0, h, s) && Follows(q, s, t)
  {
    forall u | Follows(p, s, u) ensures Follows(q, s, u) {
      forall n, x | IsPlanned(p, n, x) ensures IsPlanned(q, n, x) {
      }
    }
  }

  lemma UndisturbedFollows(p: Plan, s: State, t: State, touched: set<Name>)
    requires Undisturbed(s, t, touched) && touched <= p.temporary
    ensures Follows(p, s, t)
  {
  }

  lemma UntouchedFollows(p: Plan, h0: seq<State>, h: seq<State>, s: State, t: State, touched: set<Name>)
    requires OnlyTouched(h0, h, s, touched) && SameBut(s, t, touched) && touched <= p.temporary
    ensures AllFollow(p, h0, h, s) && Follows(p, s, t)
  {
  }

  lemma KeptFollows(p: Plan, h0: seq<State>, h: seq<State>, s: State, t: State, from: Name, to: Name, image: Image)
    requires from in p.temporary && Planned(p, to) == Some(image)
    requires Kept(h0, h, s, {from, to}, to, image)
    requires Undisturbed(s, t, {from, to}) && OldOrNew(s, t, to, image)
    ensures AllFollow(p, h0, h, s) && Follows(p, s, t)
  {
    forall u | Undisturbed(s, u, {from, to}) && OldOrNew(s, u, to, image) ensures Follows(p, s, u) {
      forall n | n !in p.temporary
        ensures Current(u, n) == Current(s, n) || IsPlanned(p, n, Current(u, n))
        ensures forall x | x in Fates(u, n) :: x in Fates(s, n) || IsPlanned(p, n, x)
      {
        if n != to {
          assert Current(u, n) == Current(s, n) && Fates(u, n) <= Fates(s, n);
        }
      }
    }
  }

  lemma VanishingFollows(p: Plan, h0: seq<State>, h: seq<State>, s: State, t: State, names: set<Name>)
    requires AllVanishing(h0, h, s, names) && Vanishing(s, t, names) && names <= p.mayGo
    ensures AllFollow(p, h0, h, s) && Follows(p, s, t)
  {
  }

  lemma FollowsSelf(p: Plan, h: seq<State>, s: State)
    ensures Follows(p, s, s) && AllFollow(p, h, h, s)
  {
  }

  lemma OneFollows(p: Plan, h: seq<State>, s: State, t: State)
    requires Follows(p, s, t)
    ensures AllFollow(p, h, h + [t], s)
  {
  }

  // ---------- The name ----------

  /** The names that the loop of `create_backup_result` tries, in order. */
  function Candidate(stamp: string, k: nat): Name {
    BackupName(if k == 0 then stamp else stamp + "-" + Decimal.Print(k))
  }

  lemma CandidatesDiffer(stamp: string, j: nat, k: nat)
    requires Candidate(stamp, j) == Candidate(stamp, k)
    ensures j == k
  {
    var idJ := if j == 0 then stamp else stamp + "-" + Decimal.Print(j);
    var idK := if k == 0 then stamp else stamp + "-" + Decimal.Print(k);
    BackupNames(idJ);
    BackupNames(idK);
    assert idJ == idK;
    if j != 0 && k != 0 {
      assert idJ[|stamp| + 1..] == Decimal.Print(j) && idK[|stamp| + 1..] == Decimal.Print(k);
      Decimal.PrintInjective(j, k);
    } else {
      assert |idJ| == |idK|;
    }
  }

  lemma {:induction false} SubsetSize<T>(a: set<T>, b: set<T>)
    requires a <= b
    ensures |a| <= |b|
  {
    if a != {} {
      var x :| x in a;
      SubsetSize(a - {x}, b - {x});
    }
  }

  /** The collision loop: it ends, with the first candidate that no file has. */
  method ChooseName(s: State, stamp: string) returns (path: Name, ghost counter: nat)
    ensures path == Candidate(stamp, counter) && path !in s.dir
    ensures forall k | 0 <= k < counter :: Candidate(stamp, k) in s.dir
  {
    path := Candidate(stamp, 0);
    var next := 1;
    ghost var tried: set<Name> := {};
    while path in s.dir
      invariant next >= 1 && path == Candidate(stamp, next - 1)
      invariant forall k | 0 <= k < next - 1 :: Candidate(stamp, k) in s.dir
      invariant tried <= s.dir.Keys && |tried| == next - 1
      invariant forall n | n in tried :: exists k :: 0 <= k < next - 1 && n == Candidate(stamp, k)
      decreases |s.dir.Keys| - |tried|
    {
      if path in tried {
        var k :| 0 <= k < next - 1 && path == Candidate(stamp, k);
        CandidatesDiffer(stamp, k, next - 1);
      }
      tried := tried + {path};
      SubsetSize(tried, s.dir.Keys);
      path := Candidate(stamp, next);
      next := next + 1;
    }
    counter := next - 1;
  }

  // ---------- The steps before anything is published ----------

  /** What is known while a snapshot is being compressed: `compressed` holds the first bytes of `stream`. */
  ghost predicate Compressing(disk: Disk, h0: seq<State>, s0: State, start: int, compressed: Name, written: Bytes)
    reads disk
  {
    && disk.Valid() && OnlyTouched(h0, disk.history, s0, {compressed})
    && SameBut(s0, disk.state, {compressed}) && KeepsExclusive(s0, disk.state, {compressed})
    && Exclusive(disk.state, compressed) && disk.clock >= start
    && FileData(disk.state, compressed) == Some(written) && Current(disk.state, compressed).value.owner == disk.identity
  }

  /** The compressor writes some more of its stream. */
  method WriteCompressed(disk: Disk, compressed: Name, stream: Bytes, written: nat, next: nat,
                         ghost h0: seq<State>, ghost s0: State, ghost start: int)
    returns (ok: bool)
    requires written <= next <= |stream| && Compressing(disk, h0, s0, start, compressed, stream[..written])
    modifies disk
    ensures disk.Valid() && OnlyTouched(h0, disk.history, s0, {compressed})
    ensures SameBut(s0, disk.state, {compressed}) && KeepsExclusive(s0, disk.state, {compressed})
    ensures Exclusive(disk.state, compressed) && disk.clock >= start
    ensures ok ==> Compressing(disk, h0, s0, start, compressed, stream[..next])
    ensures ok ==> Current(disk.state, compressed).value.mtime >= start
    ensures disk.faults == old(disk.faults) + if ok then 0 else 1
  {
    ghost var h, s := disk.history, disk.state;
    ok := disk.Append(compressed, stream[written..next]);
    assert stream[..written] + stream[written..next] == stream[..next];
    OnlyTouchedThen(h0, h, disk.history, s0, s, {compressed});
    SameButTransitive(s0, s, disk.state, {compressed});
  }

  /**
   `_compress_snapshot`: read in chunks, compress, synchronise. How much of its stream the compressor lets
   out after a chunk is its own affair; it lets out the rest when it is closed.
   */
  method CompressSnapshot(disk: Disk, w: World, snapshot: Name, compressed: Name) returns (ok: bool)
    requires disk.Valid() && snapshot in disk.state.dir && snapshot != compressed && Exclusive(disk.state, compressed)
    requires FileData(disk.state, compressed) == Some([])
      && Current(disk.state, compressed).value.owner == disk.identity
    modifies disk
    ensures disk.Valid() && OnlyTouched(old(disk.history), disk.history, old(disk.state), {compressed})
    ensures SameBut(old(disk.state), disk.state, {compressed})
      && KeepsExclusive(old(disk.state), disk.state, {compressed})
    ensures Exclusive(disk.state, compressed) && disk.clock >= old(disk.clock)
    ensures ok ==> IsDurable(Current(disk.state, compressed),
                             Image(w.gzip(FileData(old(disk.state), snapshot).value), disk.identity))
    ensures ok ==> Current(disk.state, compressed).value.mtime >= old(disk.clock)
    ensures disk.faults >= old(disk.faults) && (disk.faults == old(disk.faults) ==> ok)
  {
    ghost var h0, s0, start := disk.history, disk.state, disk.clock;
    StepSelf(s0, {compressed});
    var content := FileData(disk.state, snapshot).value;
    var stream := w.gzip(content);
    var consumed: Bytes, written: nat := [], 0;
    assert stream[..0] == [];
    while |consumed| < |content|
      invariant consumed <= content && written <= |stream|
      invariant Compressing(disk, h0, s0, start, compressed, stream[..written])
      invariant disk.faults >= old(disk.faults)
    {
      var size: nat, out: nat := *, *;
      ok := disk.Look();
      if !ok { return; }
      var step := if 0 < size <= CHUNK_BYTES && |consumed| + size <= |content| then size else 1;
      consumed := consumed + content[|consumed|..|consumed| + step];
      var next := if written + out <= |stream| then written + out else written;
      ok := WriteCompressed(disk, compressed, stream, written, next, h0, s0, start);
      if !ok { return; }
      written := next;
    }
    assert consumed == content;
    stream := w.gzip(consumed);
    ok := WriteCompressed(disk, compressed, stream, written, |stream|, h0, s0, start);
    if !ok { return; }
    assert stream[..|stream|] == stream;
    ghost var h1, s1 := disk.history, disk.state;
    ok := disk.FsyncFile(compressed);
    OnlyTouchedThen(h0, h1, disk.history, s0, s1, {compressed});
    SameButTransitive(s0, s1, disk.state, {compressed});
  }

  lemma OnlyTouchedMore(h0: seq<State>, h1: seq<State>, h2: seq<State>, s0: State, s1: State, s2: State,
                        few: set<Name>, touched: set<Name>)
    requires OnlyTouched(h0, h1, s0, touched) && SameBut(s0, s1, touched)
    requires OnlyTouched(h1, h2, s1, few) && SameBut(s1, s2, few) && few <= touched
    ensures OnlyTouched(h0, h2, s0, touched) && SameBut(s0, s2, touched)
  {
  }

  /** The integrity check of `_create_online_snapshot`. */
  predicate PassesCheck(w: World, snap: Bytes) {
    w.inspect(snap).Inspected? && w.inspect(snap).integrityOk
  }

  /** The two temporary files, the online snapshot (`snap` is what SQLite copies), and its compressed form. */
  method PrepareCompressed(disk: Disk, w: World, snap: Bytes, snapshot: Name, compressed: Name) returns (ok: bool)
    requires disk.Valid() && snapshot != compressed
    modifies disk
    ensures disk.Valid() && OnlyTouched(old(disk.history), disk.history, old(disk.state), {snapshot, compressed})
    ensures SameBut(old(disk.state), disk.state, {snapshot, compressed}) && disk.clock >= old(disk.clock)
    ensures ok ==> Exclusive(disk.state, compressed) && FileData(disk.state, snapshot) == Some(snap)
    ensures ok ==> IsDurable(Current(disk.state, compressed), Image(w.gzip(snap), disk.identity))
    ensures ok ==> Current(disk.state, compressed).value.mtime >= old(disk.clock)
    ensures ok ==> PassesCheck(w, snap)
    ensures disk.faults >= old(disk.faults)
    ensures disk.faults == old(disk.faults) && {snapshot, compressed} !! old(disk.state).dir.Keys ==>
      (ok <==> PassesCheck(w, snap))
  {
    ghost var h0, s0 := disk.history, disk.state;
    var both := {snapshot, compressed};
    StepSelf(s0, both);
    ok := disk.Create(snapshot);
    if !ok { return; }
    ghost var h1, s1 := disk.history, disk.state;
    OnlyTouchedMore(h0, h0, h1, s0, s0, s1, {snapshot}, both);
    StaysFree(s0, s1, {snapshot}, compressed);
    ok := disk.Create(compressed);
    ghost var h2, s2 := disk.history, disk.state;
    StepSelf(s1, {compressed});
    OnlyTouchedMore(h0, h1, h2, s0, s1, s2, {compressed}, both);
    if !ok { return; }
    ok := disk.Fill(snapshot, snap);
    ghost var h3, s3 := disk.history, disk.state;
    OnlyTouchedMore(h0, h2, h3, s0, s2, s3, {snapshot}, both);
    if !ok || !PassesCheck(w, snap) {
      return false;
    }
    ok := CompressSnapshot(disk, w, snapshot, compressed);
    OnlyTouchedMore(h0, h3, disk.history, s0, s3, disk.state, {compressed}, both);
  }

  // ---------- The run ----------

  /** The temporary names of a run, as `mkstemp` gives them out. */
  datatype Temporaries = Temporaries(snapshot: Name, compressed: Name, metadata: Name) {
    function All(): set<Name> {
      {snapshot, compressed, metadata}
    }

    predicate Valid() {
      && IsTemporary(snapshot) && IsTemporary(compressed) && IsTemporary(metadata)
      && snapshot != compressed && snapshot != metadata && compressed != metadata
    }
  }

  /** What a run records about a backup: its source and its time of creation. */
  datatype Tag = Tag(source: string, createdAt: string)

  function SidecarText(w: World, path: Name, snap: Bytes, tag: Tag): Bytes {
    w.render(NewMetadata(w, path, w.gzip(snap), snap, tag.source, tag.createdAt))
  }

  function PlanFor(w: World, path: Name, snap: Bytes, tag: Tag, temps: Temporaries, owner: Ownership): Plan {
    Plan(path, Image(w.gzip(snap), owner), Image(SidecarText(w, path, snap, tag), owner), temps.All(), {path})
  }

  /** The new backup and its sidecar are complete and no crash can take them back. */
  ghost predicate IsStored(p: Plan, s: State) {
    OnDisk(s, p.backup, p.file) && OnDisk(s, SidecarName(p.backup), p.sidecar)
  }

  /** `NotTakenBack`: the sidecar failed, and so did removing the backup again; `NotSynced`: both files are in place. */
  datatype Publishing = Published | NotRenamed | TakenBack | NotTakenBack | NotSynced

  /** Rename, sidecar, synchronise; a failing sidecar takes the backup away again. */
  method PublishBackup(disk: Disk, path: Name, compressed: Name, text: Bytes, metadata: Name, ghost p: Plan)
    returns (r: Publishing)
    requires disk.Valid() && p.backup == path && p.sidecar == Image(text, disk.identity) && path in p.mayGo
    requires compressed in p.temporary && metadata in p.temporary && path !in p.temporary
      && SidecarName(path) !in p.temporary && compressed != metadata
    requires Exclusive(disk.state, compressed) && IsDurable(Current(disk.state, compressed), p.file)
    modifies disk
    ensures disk.Valid() && disk.clock >= old(disk.clock)
    ensures AllFollow(p, old(disk.history), disk.history, old(disk.state)) && Follows(p, old(disk.state), disk.state)
    ensures r.Published? ==> IsStored(p, disk.state)
    ensures r.NotRenamed? ==> disk.state == old(disk.state)
    ensures r.TakenBack? ==> path !in disk.state.dir
    ensures r.Published? || r.NotTakenBack? || r.NotSynced? ==>
      Current(disk.state, path) == Current(old(disk.state), compressed)
    ensures r.NotSynced? ==> IsDurable(Current(disk.state, SidecarName(path)), p.sidecar)
    ensures disk.faults >= old(disk.faults)
    ensures disk.faults == old(disk.faults) && metadata !in old(disk.state).dir ==>
      r.Published? && metadata !in disk.state.dir
  {
    var sidecar := SidecarName(path);
    assert |sidecar| > |path|;
    ghost var h0, s0 := disk.history, disk.state;
    var ok := Publish(disk, compressed, path);
    ghost var h1, s1 := disk.history, disk.state;
    KeptFollows(p, h0, h1, s0, s1, compressed, path, p.file);
    if !ok { return NotRenamed; }
    StaysFree(s0, s1, {compressed, path}, metadata);
    ok := WriteMetadata(disk, path, text, metadata);
    ghost var h2, s2 := disk.history, disk.state;
    KeptFollows(p, h1, h2, s1, s2, metadata, sidecar, p.sidecar);
    AllFollowThen(p, h0, h1, h2, s0, s1);
    FollowsTransitive(p, s0, s1, s2);
    assert Current(s2, path) == Current(s1, path);
    if !ok {
      var removed := disk.Unlink(path);
      r := if removed then TakenBack else NotTakenBack;
      GoneFollows(p, s2, disk.state, path);
      OneFollows(p, h2, s2, disk.state);
    } else {
      var synced := disk.FsyncDirectory();
      r := if synced then Published else NotSynced;
      if synced {
        SyncSettles(s2, disk.state);
        UndisturbedFollows(p, s2, disk.state, {});
      } else {
        FollowsSelf(p, h2, s2);
      }
      OneFollows(p, h2, s2, disk.state);
    }
    AllFollowThen(p, h0, h2, disk.history, s0, s2);
    FollowsTransitive(p, s0, s2, disk.state);
  }

  lemma GoneFollows(p: Plan, s: State, t: State, n: Name)
    requires n in p.mayGo && SameBut(s, t, {n})
    requires Current(t, n) == Current(s, n) || Current(t, n) == None
    requires Fates(t, n) <= Fates(s, n) + {None}
    ensures Follows(p, s, t)
  {
  }

  /** Everything up to the directory's `fsync`. */
  method MakeBackup(disk: Disk, w: World, path: Name, snap: Bytes, tag: Tag, temps: Temporaries) returns (ok: bool)
    requires disk.Valid() && temps.Valid() && !IsTemporary(path) && !IsTemporary(SidecarName(path))
    modifies disk
    ensures disk.Valid() && disk.clock >= old(disk.clock)
    ensures var p := PlanFor(w, path, snap, tag, temps, disk.identity);
      && AllFollow(p, old(disk.history), disk.history, old(disk.state)) && Follows(p, old(disk.state), disk.state)
      && (ok ==> IsStored(p, disk.state) && Current(disk.state, path).value.mtime >= old(disk.clock))
    ensures ok ==> PassesCheck(w, snap)
    ensures disk.faults >= old(disk.faults)
    ensures disk.faults == old(disk.faults) && temps.All() !! old(disk.state).dir.Keys ==>
      (ok <==> PassesCheck(w, snap)) && temps.metadata !in disk.state.dir
  {
    ghost var p := PlanFor(w, path, snap, tag, temps, disk.identity);
    ghost var h0, s0 := disk.history, disk.state;
    ok := PrepareCompressed(disk, w, snap, temps.snapshot, temps.compressed);
    ghost var h1, s1 := disk.history, disk.state;
    UntouchedFollows(p, h0, h1, s0, s1, {temps.snapshot, temps.compressed});
    StaysFree(s0, s1, {temps.snapshot, temps.compressed}, temps.metadata);
    if !ok { return; }
    var text := w.render(NewMetadata(w, path, FileData(disk.state, temps.compressed).value,
                                     FileData(disk.state, temps.snapshot).value, tag.source, tag.createdAt));
    var published := PublishBackup(disk, path, temps.compressed, text, temps.metadata, p);
    ok := published.Published?;
    AllFollowThen(p, h0, h1, disk.history, s0, s1);
    FollowsTransitive(p, s0, s1, disk.state);
  }

  /**
   `Raised`: an exception outside the `try`, from the clean-up or from describing the new backup, which may have
   been pruned.
   */
  datatype BackupResult = Created(path: Name) | NotCreated | Raised

  const SECONDS_PER_DAY := 86400

  /** When and with what the old backups were pruned. */
  datatype Pruning = NoPruning | Pruning(at: State, newest: Option<Name>, cutoff: int, unread: set<Name>)

  /** The names that it may have taken away. */
  ghost function Gone(w: World, pruning: Pruning): set<Name> {
    if pruning.NoPruning? then {}
    else WithSidecars(Prunable(w, pruning.at, pruning.newest, pruning.cutoff) - pruning.unread)
  }

  /** `create_backup_result`, from the choice of the name on. */
  method CreateBackup(disk: Disk, w: World, stamp: string, snap: Bytes, tag: Tag, temps: Temporaries,
                      retentionDays: nat)
    returns (r: BackupResult, ghost path: Name, ghost pruning: Pruning)
    requires disk.Valid() && temps.Valid() && temps.All() !! disk.state.dir.Keys
    modifies disk
    ensures disk.Valid() && path !in old(disk.state).dir && (exists k :: path == Candidate(stamp, k))
    ensures var p := PlanFor(w, path, snap, tag, temps, disk.identity).(mayGo := {path} + Gone(w, pruning));
      && AllFollow(p, old(disk.history), disk.history, old(disk.state)) && Follows(p, old(disk.state), disk.state)
      && (r.Created? ==> r.path == path && IsStored(p, disk.state))
    ensures r.Created? ==> PassesCheck(w, snap) && pruning.Pruning? && TookAway(w, pruning, disk.state)
    ensures pruning.Pruning? ==> pruning.at in disk.history && IsNewest(pruning.at, pruning.newest)
    ensures pruning.Pruning? ==> IsStored(PlanFor(w, path, snap, tag, temps, disk.identity), pruning.at)
    ensures pruning.Pruning? ==>
      old(disk.clock) <= pruning.cutoff + retentionDays * SECONDS_PER_DAY <= disk.clock
    ensures path in Gone(w, pruning) ==> disk.clock - old(disk.clock) > retentionDays * SECONDS_PER_DAY
    ensures disk.faults >= old(disk.faults)
    ensures disk.faults == old(disk.faults) && Sound(w) ==>
      && (pruning.Pruning? <==> PassesCheck(w, snap))
      && (pruning.Pruning? ==> pruning.unread == {})
      && (r.Created? <==>
           pruning.Pruning? && Decodable(w, pruning.at, pruning.newest) && path !in Gone(w, pruning))
      && temps.All() !! disk.state.dir.Keys
  {
    var name, counter := ChooseName(disk.state, stamp);
    path := name;
    BackupNames(if counter == 0 then stamp else stamp + "-" + Decimal.Print(counter));
    ghost var p := PlanFor(w, path, snap, tag, temps, disk.identity);
    ghost var h0, s0 := disk.history, disk.state;
    var ok := MakeBackup(disk, w, name, snap, tag, temps);
    ghost var h1, s1 := disk.history, disk.state;
    if ok && Sound(w) {
      StoredDecodes(w, path, snap, tag, temps, disk.identity, s1);
    }
    r, pruning := Finish(disk, w, temps, ok, name, retentionDays, p);
    ghost var q := p.(mayGo := {path} + Gone(w, pruning));
    FollowsMore(p, q, h0, h1, s0, s1);
    AllFollowThen(q, h0, h1, disk.history, s0, s1);
    FollowsTransitive(q, s0, s1, disk.state);
  }

  /** Pruning, if the backup was made, then the `finally` clause and the return. */
  method Finish(disk: Disk, w: World, temps: Temporaries, made: bool, path: Name, retentionDays: nat, ghost p: Plan)
    returns (r: BackupResult, ghost pruning: Pruning)
    requires disk.Valid() && temps.Valid() && p.temporary == temps.All() && p.backup == path && p.mayGo == {path}
    requires IsBackupFile(path) && !IsTemporary(path) && !IsTemporary(SidecarName(path))
    requires made ==> IsStored(p, disk.state)
    modifies disk
    ensures disk.Valid() && disk.clock >= old(disk.clock) && Continues(old(disk.history), disk.history)
    ensures if made then pruning.Pruning? && pruning.at == old(disk.state) && IsNewest(pruning.at, pruning.newest)
      else pruning == NoPruning
    ensures made ==> pruning.cutoff == old(disk.clock) - retentionDays * SECONDS_PER_DAY
    ensures var q := p.(mayGo := {path} + Gone(w, pruning));
      && AllFollow(q, old(disk.history), disk.history, old(disk.state)) && Follows(q, old(disk.state), disk.state)
      && (r.Created? ==> made && r.path == path && IsStored(q, disk.state) && TookAway(w, pruning, disk.state))
    ensures path in Gone(w, pruning) ==> Current(old(disk.state), path).value.mtime < pruning.cutoff
    ensures disk.faults >= old(disk.faults)
    ensures disk.faults == old(disk.faults) ==>
      && (made ==> pruning.unread == {})
      && (made && SidecarDecodes(w, old(disk.state), path) ==>
           (r.Created? <==> Decodable(w, pruning.at, pruning.newest) && path !in Gone(w, pruning)))
      && {temps.snapshot, temps.compressed} !! disk.state.dir.Keys
      && (temps.metadata !in old(disk.state).dir ==> temps.metadata !in disk.state.dir)
  {
    ghost var h1, s1 := disk.history, disk.state;
    pruning := NoPruning;
    var ok := made;
    if made {
      ok, pruning := PruneAfter(disk, w, path, retentionDays, p);
    } else {
      FollowsSelf(p, h1, s1);
    }
    ghost var q := p.(mayGo := {path} + Gone(w, pruning));
    assert pruning.NoPruning? ==> q == p;
    ghost var h2, s2 := disk.history, disk.state;
    r := Conclude(disk, w, temps, ok, path, q);
    AllFollowThen(q, h1, h2, disk.history, s1, s2);
    FollowsTransitive(q, s1, s2, disk.state);
    if ok && made {
      StaysAway(w, pruning, temps, s2, disk.state);
    }
  }

  /** The `finally` clause and the return. */
  method Conclude(disk: Disk, w: World, temps: Temporaries, ok: bool, path: Name, ghost q: Plan)
    returns (r: BackupResult)
    requires disk.Valid() && temps.Valid() && q.temporary == temps.All() && q.backup == path
    requires path !in q.temporary && SidecarName(path) !in q.temporary
    requires ok && path in disk.state.dir ==> IsStored(q, disk.state)
    modifies disk
    ensures disk.Valid() && disk.clock >= old(disk.clock)
    ensures AllFollow(q, old(disk.history), disk.history, old(disk.state)) && Follows(q, old(disk.state), disk.state)
    ensures SameBut(old(disk.state), disk.state, temps.All())
    ensures r.Created? ==> ok && r.path == path && IsStored(q, disk.state)
    ensures disk.faults >= old(disk.faults)
    ensures disk.faults == old(disk.faults) ==>
      && (r.Created? <==> ok && path in old(disk.state).dir && SidecarDecodes(w, old(disk.state), path))
      && {temps.snapshot, temps.compressed} !! disk.state.dir.Keys
      && (temps.metadata !in old(disk.state).dir ==> temps.metadata !in disk.state.dir)
  {
    ghost var s0 := disk.state;
    var cleaned := CleanUp(disk, temps, q);
    assert SameFile(s0, disk.state, path);
    if ok && path in s0.dir {
      StoredStays(q, s0, disk.state);
    }
    assert path in disk.state.dir <==> path in s0.dir by {
      assert Current(disk.state, path) == Current(s0, path);
    }
    if !cleaned {
      return Raised;
    }
    if !ok {
      return NotCreated;
    }
    var described := ReadSidecar(disk, w, path);
    r := if path in disk.state.dir && !described.Raises? then Created(path) else Raised;
  }

  lemma StoredStays(p: Plan, s: State, t: State)
    requires IsStored(p, s) && SameBut(s, t, p.temporary)
    requires p.backup !in p.temporary && SidecarName(p.backup) !in p.temporary
    ensures IsStored(p, t)
  {
  }

  /** The pruning at the end of a run: the new backup stays unless the run took longer than the retention. */
  method PruneAfter(disk: Disk, w: World, path: Name, retentionDays: nat, ghost p: Plan)
    returns (ok: bool, ghost pruning: Pruning)
    requires disk.Valid() && IsBackupFile(path) && p.backup == path && p.mayGo == {path} && IsStored(p, disk.state)
    modifies disk
    ensures disk.Valid() && disk.clock >= old(disk.clock) && Continues(old(disk.history), disk.history)
    ensures pruning.Pruning? && pruning.at == old(disk.state) && IsNewest(pruning.at, pruning.newest)
    ensures pruning.cutoff == old(disk.clock) - retentionDays * SECONDS_PER_DAY
    ensures var q := p.(mayGo := {path} + Gone(w, pruning));
      && AllFollow(q, old(disk.history), disk.history, old(disk.state)) && Follows(q, old(disk.state), disk.state)
      && (path !in Gone(w, pruning) ==> IsStored(q, disk.state))
    ensures ok ==> TookAway(w, pruning, disk.state)
    ensures path in Gone(w, pruning) ==> Current(old(disk.state), path).value.mtime < pruning.cutoff
    ensures forall n | IsTemporary(n) && n !in old(disk.state).dir :: n !in disk.state.dir
    ensures disk.faults >= old(disk.faults)
    ensures disk.faults == old(disk.faults) ==>
      pruning.unread == {} && (ok <==> Decodable(w, pruning.at, pruning.newest))
  {
    ghost var h0, s0 := disk.history, disk.state;
    var cutoff := disk.clock - retentionDays * SECONDS_PER_DAY;
    var newest;
    ghost var unread;
    ok, newest, unread := PruneBackups(disk, w, cutoff);
    pruning := Pruning(s0, newest, cutoff, unread);
    ghost var q := p.(mayGo := {path} + Gone(w, pruning));
    VanishingFollows(q, h0, disk.history, s0, disk.state, Gone(w, pruning));
    AfterPruning(w, p, s0, disk.state, pruning, ok);
  }

  /** What pruning took away is not there. */
  ghost predicate TookAway(w: World, pruning: Pruning, s: State) {
    forall n | n in Gone(w, pruning) :: n !in s.dir
  }

  lemma GoneIsNotTemporary(w: World, pruning: Pruning, n: Name)
    requires n in Gone(w, pruning)
    ensures !IsTemporary(n)
  {
    var gone := Prunable(w, pruning.at, pruning.newest, pruning.cutoff) - pruning.unread;
    if n !in gone {
      var m :| m in gone && n == SidecarName(m);
      assert n[0] == m[0] == NAME_PREFIX[0];
    } else {
      assert n[0] == NAME_PREFIX[0];
    }
  }

  lemma StaysAway(w: World, pruning: Pruning, temps: Temporaries, s: State, t: State)
    requires temps.Valid() && WellFormed(s) && WellFormed(t) && SameBut(s, t, temps.All()) && TookAway(w, pruning, s)
    ensures TookAway(w, pruning, t)
  {
    forall n | n in Gone(w, pruning) ensures n !in t.dir {
      GoneIsNotTemporary(w, pruning, n);
      StaysFree(s, t, temps.All(), n);
    }
  }

  lemma AfterPruning(w: World, p: Plan, s: State, t: State, pruning: Pruning, ok: bool)
    requires WellFormed(s) && WellFormed(t) && IsBackupFile(p.backup) && IsStored(p, s)
    requires pruning.Pruning? && pruning.at == s && Vanishing(s, t, Gone(w, pruning))
    requires ok ==> IsPruned(s, t, Prunable(w, s, pruning.newest, pruning.cutoff) - pruning.unread)
    ensures ok ==> TookAway(w, pruning, t)
    ensures p.backup !in Gone(w, pruning) ==> IsStored(p, t)
    ensures p.backup in Gone(w, pruning) ==> Current(s, p.backup).value.mtime < pruning.cutoff
    ensures forall n | IsTemporary(n) && n !in s.dir :: n !in t.dir
  {
    ghost var gone := Prunable(w, s, pruning.newest, pruning.cutoff) - pruning.unread;
    OnlyPrunedAreGone(gone, p.backup);
    if p.backup !in gone {
      StoredUnlessGone(p, s, t, WithSidecars(gone));
    }
    if ok {
      forall n | n in Gone(w, pruning) ensures n !in t.dir {
        assert Current(t, n) == None;
      }
    }
    forall n | IsTemporary(n) && n !in s.dir ensures n !in t.dir {
      if n in Gone(w, pruning) {
        GoneIsNotTemporary(w, pruning, n);
      }
      StaysFree(s, t, Gone(w, pruning), n);
    }
  }

  lemma StoredDecodes(w: World, path: Name, snap: Bytes, tag: Tag, temps: Temporaries, owner: Ownership, s: State)
    requires Sound(w) && IsStored(PlanFor(w, path, snap, tag, temps, owner), s)
    ensures SidecarDecodes(w, s, path)
  {
    var m := NewMetadata(w, path, w.gzip(snap), snap, tag.source, tag.createdAt);
    assert w.parse(w.render(m)) == Object(m);
  }

  lemma OnlyPrunedAreGone(gone: set<Name>, path: Name)
    requires IsBackupFile(path) && forall n | n in gone :: IsBackupFile(n)
    ensures path in WithSidecars(gone) ==> path in gone
    ensures path !in gone ==> SidecarName(path) !in WithSidecars(gone)
  {
    SidecarsApart(gone - {path}, path);
    assert path !in gone ==> gone - {path} == gone;
    forall other | other in gone ensures SidecarName(other) != path {
      SidecarIsNoBackup(other);
    }
  }

  lemma StoredUnlessGone(p: Plan, s: State, t: State, names: set<Name>)
    requires IsStored(p, s) && SameBut(s, t, names) && p.backup !in names && SidecarName(p.backup) !in names
    ensures IsStored(p, t)
  {
  }

  /** The `finally` clause: not `ok` when it raises. */
  method CleanUp(disk: Disk, temps: Temporaries, ghost q: Plan) returns (ok: bool)
    requires disk.Valid() && temps.Valid() && q.temporary == temps.All()
    modifies disk
    ensures disk.Valid() && disk.clock >= old(disk.clock)
    ensures SameBut(old(disk.state), disk.state, temps.All())
    ensures AllFollow(q, old(disk.history), disk.history, old(disk.state)) && Follows(q, old(disk.state), disk.state)
    ensures temps.metadata !in old(disk.state).dir ==> temps.metadata !in disk.state.dir
    ensures disk.faults >= old(disk.faults)
    ensures disk.faults == old(disk.faults) ==> ok && {temps.snapshot, temps.compressed} !! disk.state.dir.Keys
  {
    ghost var h0, s0 := disk.history, disk.state;
    StepSelf(s0, temps.All());
    StepSelf(s0, {temps.snapshot});
    ok := disk.Unlink(temps.snapshot);
    ghost var h1, s1 := disk.history, disk.state;
    StaysFree(s0, s1, {temps.snapshot}, temps.metadata);
    OnlyTouchedMore(h0, h0, h1, s0, s0, s1, {temps.snapshot}, temps.All());
    if ok {
      StepSelf(s1, {temps.compressed});
      ok := disk.Unlink(temps.compressed);
      StaysFree(s1, disk.state, {temps.compressed}, temps.metadata);
      StaysFree(s1, disk.state, {temps.compressed}, temps.snapshot);
      OnlyTouchedMore(h0, h1, disk.history, s0, s1, disk.state, {temps.compressed}, temps.All());
    }
    UntouchedFollows(q, h0, disk.history, s0, disk.state, temps.All());
  }

  /**
   A run's own backup is prunable if and only if another one is taken for the newest, it is automatic, its
   sidecar is not too long to be read, and it is older than the cutoff.
   */
  lemma OwnPruningIff(w: World, path: Name, snap: Bytes, tag: Tag, temps: Temporaries, owner: Ownership,
                      s: State, newest: Option<Name>, cutoff: int)
    requires Sound(w) && IsBackupFile(path) && IsStored(PlanFor(w, path, snap, tag, temps, owner), s)
    ensures path in Prunable(w, s, newest, cutoff) <==>
      && newest != Some(path) && tag.source == "automatic"
      && |SidecarText(w, path, snap, tag)| <= MAX_METADATA_BYTES && Current(s, path).value.mtime < cutoff
  {
    var m := NewMetadata(w, path, w.gzip(snap), snap, tag.source, tag.createdAt);
    assert w.parse(w.render(m)) == Object(m);
  }
}
