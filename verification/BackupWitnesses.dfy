/** Directories in which pruning does what one would not expect of it. */
module BackupWitnesses {
  import opened Wrappers
  import opened FileSystem
  import opened BackupFormat
  import opened BackupFiles
  import opened Retention
  import opened Creation
  import Decimal

  /** A directory of two backups with their sidecars, all of them on disk. */
  function TwoBackups(a: Name, first: Node, b: Name, second: Node, sidecarA: Bytes, sidecarB: Bytes): State {
    State(
      [first, Node(sidecarA, first.owner, first.mtime, true), second, Node(sidecarB, second.owner, second.mtime, true)],
      map[a := 0, SidecarName(a) := 1, b := 2, SidecarName(b) := 3], map[], first.owner)
  }

  lemma TwoBackupsAre(a: Name, first: Node, b: Name, second: Node, sidecarA: Bytes, sidecarB: Bytes)
    requires a != b && IsBackupFile(a) && IsBackupFile(b)
    ensures var s := TwoBackups(a, first, b, second, sidecarA, sidecarB);
      && WellFormed(s) && Current(s, a) == Some(first) && Current(s, b) == Some(second)
      && FileData(s, SidecarName(a)) == Some(sidecarA) && FileData(s, SidecarName(b)) == Some(sidecarB)
      && forall n :: IsFound(s, n) <==> n == a || n == b
  {
    SidecarsApart({a}, b);
    SidecarsApart({b}, a);
    SidecarsApart({}, a);
    SidecarIsNoBackup(a);
    SidecarIsNoBackup(b);
  }

  lemma IdsAreListed(id: string)
    requires IsBackupId(id)
    ensures IsBackupFile(BackupName(id)) && BackupId(BackupName(id)) == id
  {
    BackupNames(id);
  }

  const STAMP := "20250101-000000"

  lemma StampIsId()
    ensures |STAMP| == 15 && IsBackupId(STAMP)
  {
  }

  lemma ReadsAsOne()
    ensures Decimal.Read("1") == 1 && Decimal.Read("01") == 1
  {
    assert "1"[..0] == "";
    assert "01"[..1] == "0" && "0"[..0] == "";
  }

  /** The ids of the second that end in `-1` and `-01` have the same key. */
  lemma SameKeys()
    ensures IsBackupId(STAMP + "-1") && IsBackupId(STAMP + "-01") && STAMP + "-1" != STAMP + "-01"
    ensures StampOf(STAMP + "-1") == StampOf(STAMP + "-01") && CounterOf(STAMP + "-1") == CounterOf(STAMP + "-01")
  {
    hide CounterOf, StampOf, IsBackupId, Decimal.Read;
    ReadsAsOne();
    NumberedId("1");
    NumberedId("01");
    assert STAMP + "-" + "1" == STAMP + "-1" && STAMP + "-" + "01" == STAMP + "-01";
    assert |STAMP + "-1"| != |STAMP + "-01"|;
  }

  lemma NumberedId(digits: string)
    requires AllDigits(digits) && Decimal.Read(digits) != 0
    ensures var id := STAMP + "-" + digits;
      IsBackupId(id) && StampOf(id) == STAMP && CounterOf(id) == Decimal.Read(digits)
  {
    StampIsId();
    hide Decimal.Read;
    var id := STAMP + "-" + digits;
    assert id[..15] == STAMP && id[15] == '-' && id[16..] == digits;
    assert id[..8] == STAMP[..8] && id[9..15] == STAMP[9..15];
    assert forall k | 15 < k < |id| :: id[k] == digits[k - 16];
    assert LastDash(id) == 15;
  }

  /**
   Two prunings at the same cutoff that differ: an automatic and a manual backup with the same key. While the
   automatic one is taken for the newest nothing is pruned; when the manual one is, the automatic one goes.
   */
  lemma PruningTwiceCanDiffer(w: World, mtime: int, owner: Ownership, automatic: Sidecar, manual: Sidecar)
    returns (s: State, a: Name, b: Name)
    requires Sound(w) && automatic.source == Value("automatic") && manual.source == Value("manual")
    requires |w.render(automatic)| <= MAX_METADATA_BYTES && |w.render(manual)| <= MAX_METADATA_BYTES
    ensures WellFormed(s) && a != b && IsNewest(s, Some(a)) && IsNewest(s, Some(b))
    ensures Prunable(w, s, Some(a), mtime + 1) == {} && Prunable(w, s, Some(b), mtime + 1) == {a}
  {
    SameKeys();
    var idA, idB := STAMP + "-1", STAMP + "-01";
    a, b := BackupName(idA), BackupName(idB);
    IdsAreListed(idA);
    IdsAreListed(idB);
    var node := Node([], owner, mtime, true);
    s := TwoBackups(a, node, b, node, w.render(automatic), w.render(manual));
    TwoBackupsAre(a, node, b, node, w.render(automatic), w.render(manual));
    BothNewest(s, a, b);
    TwoNewest(w, s, a, b, mtime, automatic, manual);
  }

  lemma BothNewest(s: State, a: Name, b: Name)
    requires IsListed(s, a) && IsListed(s, b) && KeyOf(s, a) == KeyOf(s, b)
    requires forall n :: IsFound(s, n) <==> n == a || n == b
    ensures IsNewest(s, Some(a)) && IsNewest(s, Some(b))
  {
    KeyLeTotal(KeyOf(s, a), KeyOf(s, b));
  }

  lemma OneAutomatic(w: World, s: State, a: Name, b: Name, mtime: int)
    requires IsListed(s, a) && IsListed(s, b) && KeyOf(s, a) == KeyOf(s, b) && KeyOf(s, a).mtime == mtime
    requires forall n :: IsFound(s, n) <==> n == a || n == b
    requires a != b && IsAutomatic(w, s, a) && !IsAutomatic(w, s, b)
    ensures Prunable(w, s, Some(a), mtime + 1) == {} && Prunable(w, s, Some(b), mtime + 1) == {a}
  {
    hide IsAutomatic, StampOf, CounterOf, IsBackupFile, IsBackupId;
  }

  lemma TwoNewest(w: World, s: State, a: Name, b: Name, mtime: int, automatic: Sidecar, manual: Sidecar)
    requires IsListed(s, a) && IsListed(s, b) && KeyOf(s, a) == KeyOf(s, b)
      && KeyOf(s, a).mtime == mtime
    requires forall n :: IsFound(s, n) <==> n == a || n == b
    requires FileData(s, SidecarName(a)) == Some(w.render(automatic))
      && FileData(s, SidecarName(b)) == Some(w.render(manual))
    requires Sound(w) && automatic.source == Value("automatic") && manual.source == Value("manual")
    requires |w.render(automatic)| <= MAX_METADATA_BYTES && |w.render(manual)| <= MAX_METADATA_BYTES
    ensures Prunable(w, s, Some(a), mtime + 1) == {} && Prunable(w, s, Some(b), mtime + 1) == {a}
  {
    AutomaticIff(w, s, a, automatic);
    AutomaticIff(w, s, b, manual);
    hide IsAutomatic, Prunable, KeyOf;
    assert "automatic" != "manual";
    OneAutomatic(w, s, a, b, mtime);
  }

  /** A run prunes its own backup: it is automatic, the retention is over, and another backup has a later time. */
  lemma OwnBackupCanBePruned(w: World, snap: Bytes, createdAt: string, temps: Temporaries, owner: Ownership, mtime: int)
    returns (s: State, path: Name, other: Name)
    requires Sound(w)
    requires |SidecarText(w, BackupName(STAMP + "-1"), snap, Tag("automatic", createdAt))| <= MAX_METADATA_BYTES
    ensures WellFormed(s) && IsNewest(s, Some(other)) && path in Prunable(w, s, Some(other), mtime + 1)
    ensures IsStored(PlanFor(w, path, snap, Tag("automatic", createdAt), temps, owner), s)
  {
    SameKeys();
    var idA, idB := STAMP + "-1", STAMP + "-01";
    path, other := BackupName(idA), BackupName(idB);
    IdsAreListed(idA);
    IdsAreListed(idB);
    var tag := Tag("automatic", createdAt);
    var mine, theirs := Node(w.gzip(snap), owner, mtime, true), Node([], owner, mtime + 5, true);
    s := TwoBackups(path, mine, other, theirs, SidecarText(w, path, snap, tag), []);
    TwoBackupsAre(path, mine, other, theirs, SidecarText(w, path, snap, tag), []);
    OwnPruningIff(w, path, snap, tag, temps, owner, s, Some(other), mtime + 1);
  }
}
