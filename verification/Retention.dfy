/** Listing and pruning of backups: `backup_paths`, `_backup_sort_key` and `prune_backups`. */
module Retention {
  import opened Wrappers
  import opened FileSystem
  import opened Disks
  import opened BackupFormat
  import opened BackupFiles
  import Decimal
  import Order

  // ---------- The order of backups ----------

  datatype SortKey = SortKey(mtime: int, stamp: string, counter: nat)

  predicate KeyLe(a: SortKey, b: SortKey) {
    a.mtime < b.mtime ||
    (a.mtime == b.mtime &&
     if a.stamp == b.stamp then a.counter <= b.counter else Order.StringLe(a.stamp, b.stamp))
  }

  lemma KeyLeTotal(a: SortKey, b: SortKey)
    ensures KeyLe(a, b) || KeyLe(b, a)
  {
    Order.StringLeTotal(a.stamp, b.stamp);
  }

  lemma KeyLeTransitive(a: SortKey, b: SortKey, c: SortKey)
    requires KeyLe(a, b) && KeyLe(b, c)
    ensures KeyLe(a, c)
  {
    if a.mtime == b.mtime == c.mtime && a.stamp != b.stamp && b.stamp != c.stamp {
      Order.StringLeTransitive(a.stamp, b.stamp, c.stamp);
      if a.stamp == c.stamp {
        Order.StringLeAntisymmetric(a.stamp, b.stamp);
      }
    }
  }

  lemma KeyLeAntisymmetric(a: SortKey, b: SortKey)
    requires KeyLe(a, b) && KeyLe(b, a)
    ensures a == b
  {
    if a.stamp != b.stamp {
      Order.StringLeAntisymmetric(a.stamp, b.stamp);
    }
  }

  predicate AllDigits(s: string) {
    s != "" && Decimal.AllDigits(s)
  }

  /** `^\d{8}-\d{6}(?:-\d+)?$` */
  predicate IsBackupId(id: string) {
    && |id| >= 15
    && AllDigits(id[..8]) && id[8] == '-' && AllDigits(id[9..15])
    && (|id| == 15 || (id[15] == '-' && AllDigits(id[16..])))
  }

  function LastDash(s: string): (i: int)
    ensures -1 <= i < |s|
    ensures i >= 0 ==> s[i] == '-'
    ensures forall k | i < k < |s| :: s[k] != '-'
  {
    if s == [] then -1 else if s[|s| - 1] == '-' then |s| - 1 else LastDash(s[..|s| - 1])
  }

  /** The collision counter at the end of an id, or 0. */
  function CounterOf(id: string): nat {
    var i := LastDash(id);
    if 15 <= i && AllDigits(id[i + 1..]) then Decimal.Read(id[i + 1..]) else 0
  }

  function StampOf(id: string): string {
    if CounterOf(id) != 0 then id[..LastDash(id)] else id
  }

  /** The counter is read as a number: backup 10 of a second comes after backup 9. */
  lemma CounterIsNumeric(stamp: string, n: nat)
    requires |stamp| >= 15 && n > 0
    ensures CounterOf(stamp + "-" + Decimal.Print(n)) == n && StampOf(stamp + "-" + Decimal.Print(n)) == stamp
  {
    var id := stamp + "-" + Decimal.Print(n);
    assert id[|stamp|] == '-' && id[|stamp| + 1..] == Decimal.Print(n);
    assert forall k | |stamp| < k < |id| :: id[k] == Decimal.Print(n)[k - |stamp| - 1];
    assert LastDash(id) == |stamp|;
    Decimal.ReadPrint(n);
    assert id[..|stamp|] == stamp;
  }

  /** `_backup_sort_key` */
  function KeyOf(s: State, n: Name): SortKey
    requires Current(s, n).Some?
  {
    SortKey(Current(s, n).value.mtime, StampOf(BackupId(n)), CounterOf(BackupId(n)))
  }

  // ---------- What is pruned ----------

  /** The files that the glob of `prune_backups` finds. */
  predicate IsFound(s: State, n: Name) {
    IsBackupFile(n) && Current(s, n).Some?
  }

  /** The files that `backup_paths` lists. */
  predicate IsListed(s: State, n: Name) {
    IsFound(s, n) && IsBackupId(BackupId(n))
  }

  ghost predicate IsNewest(s: State, newest: Option<Name>) {
    match newest
    case None => forall n :: !IsListed(s, n)
    case Some(top) => IsListed(s, top) && forall n | IsListed(s, n) :: KeyLe(KeyOf(s, n), KeyOf(s, top))
  }

  predicate IsAutomatic(w: World, s: State, n: Name) {
    var m := ReadMetadata(w, FileData(s, SidecarName(n)));
    m.Some? && m.value.source == Value("automatic")
  }

  lemma AutomaticIff(w: World, s: State, n: Name, m: Sidecar)
    requires BackupFormat.Sound(w) && FileData(s, SidecarName(n)) == Some(w.render(m))
      && |w.render(m)| <= MAX_METADATA_BYTES
    ensures IsAutomatic(w, s, n) <==> m.source == Value("automatic")
  {
    assert w.parse(w.render(m)) == Object(m);
  }

  predicate IsOld(s: State, n: Name, cutoff: int) {
    Current(s, n).Some? && Current(s, n).value.mtime < cutoff
  }

  predicate IsPrunable(w: World, s: State, newest: Option<Name>, cutoff: int, n: Name) {
    IsFound(s, n) && newest != Some(n) && IsAutomatic(w, s, n) && IsOld(s, n, cutoff)
  }

  function Prunable(w: World, s: State, newest: Option<Name>, cutoff: int): set<Name> {
    set n | n in s.dir && IsPrunable(w, s, newest, cutoff, n)
  }

  function Sidecars(names: set<Name>): set<Name> {
    set n | n in names :: SidecarName(n)
  }

  function WithSidecars(names: set<Name>): set<Name> {
    names + Sidecars(names)
  }

  /** `t` is `s` without the backups of `gone` and their sidecars. */
  ghost predicate IsPruned(s: State, t: State, gone: set<Name>) {
    forall n {:trigger Current(t, n)} :: Current(t, n) == if n in WithSidecars(gone) then None else Current(s, n)
  }

  /** Nothing differs between `s` and `t` but that some of `names` are gone, perhaps not durably. */
  ghost predicate Vanishing(s: State, t: State, names: set<Name>) {
    && SameBut(s, t, names)
    && forall n {:trigger Current(t, n)} {:trigger Fates(t, n)} | n in names ::
         (Current(t, n) == Current(s, n) || Current(t, n) == None) && Fates(t, n) <= Fates(s, n) + {None}
  }

  ghost predicate AllVanishing(h0: seq<State>, h: seq<State>, s0: State, names: set<Name>) {
    Continues(h0, h) && forall k | |h0| <= k < |h| :: Vanishing(s0, h[k], names)
  }

  lemma VanishOne(s0: State, s: State, t: State, names: set<Name>, n: Name)
    requires Vanishing(s0, s, names) && n in names && SameBut(s, t, {n})
    requires Current(t, n) == Current(s, n) || Current(t, n) == None
    requires Fates(t, n) <= Fates(s, n) + {None}
    ensures Vanishing(s0, t, names)
  {
  }

  lemma AllVanishingThen(h0: seq<State>, h: seq<State>, s0: State, s: State, names: set<Name>)
    requires AllVanishing(h0, h, s0, names) && Vanishing(s0, s, names)
    ensures AllVanishing(h0, h + [s], s0, names)
  {
  }

  lemma AllVanishingMore(h0: seq<State>, h: seq<State>, s0: State, few: set<Name>, names: set<Name>)
    requires AllVanishing(h0, h, s0, few) && few <= names
    ensures AllVanishing(h0, h, s0, names)
  {
    forall k | |h0| <= k < |h| ensures Vanishing(s0, h[k], names) {
      VanishingMore(s0, h[k], few, names);
    }
  }

  lemma VanishingMore(s0: State, s: State, few: set<Name>, names: set<Name>)
    requires Vanishing(s0, s, few) && few <= names
    ensures Vanishing(s0, s, names)
  {
    forall n | n in names
      ensures (Current(s, n) == Current(s0, n) || Current(s, n) == None) && Fates(s, n) <= Fates(s0, n) + {None}
    {
      if n !in few {
        assert SameFile(s0, s, n);
      }
    }
  }

  /** `unlink` within a pruning. */
  method Remove(disk: Disk, n: Name, ghost h0: seq<State>, ghost s0: State, ghost names: set<Name>) returns (ok: bool)
    requires disk.Valid() && n in names
    requires AllVanishing(h0, disk.history, s0, names) && Vanishing(s0, disk.state, names)
    modifies disk
    ensures disk.Valid() && AllVanishing(h0, disk.history, s0, names) && Vanishing(s0, disk.state, names)
    ensures ok ==> forall m {:trigger Current(disk.state, m)} ::
      Current(disk.state, m) == if m == n then None else Current(old(disk.state), m)
    ensures disk.clock >= old(disk.clock)
    ensures KeepsExclusive(old(disk.state), disk.state, {n})
    ensures disk.faults == old(disk.faults) + if ok then 0 else 1
  {
    ghost var h, s := disk.history, disk.state;
    StepSelf(s, {n});
    ok := disk.Unlink(n);
    VanishOne(s0, s, disk.state, names, n);
    AllVanishingThen(h0, h, s0, disk.state, names);
  }

  /** The sidecars that a pruning reads can be decoded. */
  ghost predicate Decodable(w: World, s: State, newest: Option<Name>) {
    DecodableBut(w, s, newest, {})
  }

  /** But for the backups that are still to come. */
  ghost predicate DecodableBut(w: World, s: State, newest: Option<Name>, todo: set<Name>) {
    forall n | IsFound(s, n) && newest != Some(n) && n !in todo :: SidecarDecodes(w, s, n)
  }

  predicate SidecarDecodes(w: World, s: State, n: Name) {
    ReadMetadata(w, FileData(s, SidecarName(n))).Some?
  }

  /** The head of `backup_paths()`: a loop for the largest key. */
  method FindNewest(s: State) returns (newest: Option<Name>)
    requires WellFormed(s)
    ensures IsNewest(s, newest)
  {
    var todo := set n | n in s.dir && IsListed(s, n);
    newest := None;
    while todo != {}
      invariant forall n | n in todo :: IsListed(s, n)
      invariant newest.Some? ==> IsListed(s, newest.value)
      invariant forall n | IsListed(s, n) && n !in todo :: newest.Some? && KeyLe(KeyOf(s, n), KeyOf(s, newest.value))
      decreases todo
    {
      var n :| n in todo;
      KeyLeTotal(KeyOf(s, n), KeyOf(s, n));
      if newest.None? || !KeyLe(KeyOf(s, n), KeyOf(s, newest.value)) {
        if newest.Some? {
          KeyLeTotal(KeyOf(s, n), KeyOf(s, newest.value));
          forall m | IsListed(s, m) && m !in todo ensures KeyLe(KeyOf(s, m), KeyOf(s, n)) {
            KeyLeTransitive(KeyOf(s, m), KeyOf(s, newest.value), KeyOf(s, n));
          }
        }
        newest := Some(n);
      }
      todo := todo - {n};
    }
  }

  /** What is known in the loop of `prune_backups` when the backups `gone` have been removed. */
  ghost predicate Pruning(disk: Disk, h0: seq<State>, s0: State, gone: set<Name>)
    reads disk
  {
    && disk.Valid()
    && AllVanishing(h0, disk.history, s0, WithSidecars(gone)) && Vanishing(s0, disk.state, WithSidecars(gone))
    && IsPruned(s0, disk.state, gone)
  }

  lemma NothingPruned(disk: Disk)
    requires disk.Valid()
    ensures Pruning(disk, disk.history, disk.state, {})
  {
    StepSelf(disk.state, {});
  }

  /** The removal of a backup and its sidecar; not `ok` when an `unlink` raises. */
  method RemoveBackup(disk: Disk, n: Name, ghost h0: seq<State>, ghost s0: State, ghost gone: set<Name>)
    returns (ok: bool)
    requires Pruning(disk, h0, s0, gone)
    modifies disk
    ensures disk.Valid() && disk.clock >= old(disk.clock)
    ensures AllVanishing(h0, disk.history, s0, WithSidecars(gone + {n}))
      && Vanishing(s0, disk.state, WithSidecars(gone + {n}))
    ensures ok ==> IsPruned(s0, disk.state, gone + {n})
    ensures disk.faults >= old(disk.faults) && (disk.faults == old(disk.faults) ==> ok)
  {
    ghost var names, s1 := WithSidecars(gone + {n}), disk.state;
    assert n in names && SidecarName(n) in names;
    AllVanishingMore(h0, disk.history, s0, WithSidecars(gone), names);
    VanishingMore(s0, disk.state, WithSidecars(gone), names);
    ok := Remove(disk, n, h0, s0, names);
    if !ok { return; }
    ok := Remove(disk, SidecarName(n), h0, s0, names);
    if !ok { return; }
    PrunedOneMore(s0, s1, disk.state, gone, n);
  }

  /**
   How a round of the loop of `prune_backups` ends; `KeepsUnread`: the sidecar could not be read; `RaisesLate`:
   an `unlink` raised.
   */
  datatype Round = Keeps | KeepsUnread | Removes | RaisesEarly | RaisesLate

  /**
   The body of the loop of `prune_backups`. A sidecar that cannot be read is taken for an empty one, so its
   backup is not known to be automatic.
   */
  method PruneOne(disk: Disk, w: World, newest: Option<Name>, cutoff: int, n: Name,
                  ghost h0: seq<State>, ghost s0: State, ghost gone: set<Name>)
    returns (r: Round)
    requires gone <= Prunable(w, s0, newest, cutoff)
    requires n !in gone && IsFound(s0, n) && Pruning(disk, h0, s0, gone)
    modifies disk
    ensures disk.Valid() && disk.clock >= old(disk.clock)
    ensures r.Keeps? || r.KeepsUnread? || r.RaisesEarly? ==> Pruning(disk, h0, s0, gone)
    ensures r.Keeps? ==> !IsPrunable(w, s0, newest, cutoff, n)
    ensures r.KeepsUnread? ==> newest != Some(n) && Current(s0, SidecarName(n)).Some?
    ensures r.Removes? ==> Pruning(disk, h0, s0, gone + {n})
    ensures r.Removes? || r.RaisesLate? ==> IsPrunable(w, s0, newest, cutoff, n)
    ensures r.RaisesLate? ==>
      AllVanishing(h0, disk.history, s0, WithSidecars(gone + {n}))
        && Vanishing(s0, disk.state, WithSidecars(gone + {n}))
    ensures disk.faults >= old(disk.faults)
    ensures disk.faults == old(disk.faults) ==>
      && !r.KeepsUnread? && !r.RaisesLate?
      && (r.RaisesEarly? <==> newest != Some(n) && !SidecarDecodes(w, s0, n))
  {
    SidecarsApart(gone, n);
    assert Current(disk.state, n) == Current(s0, n)
      && Current(disk.state, SidecarName(n)) == Current(s0, SidecarName(n));
    if newest == Some(n) {
      return Keeps;
    }
    var m := ReadSidecar(disk, w, n);
    if m.Raises? {
      return RaisesEarly;
    }
    if m.Result().value.source != Value("automatic") || Current(disk.state, n).value.mtime >= cutoff {
      return if m.Unread? then KeepsUnread else Keeps;
    }
    var ok := RemoveBackup(disk, n, h0, s0, gone);
    r := if ok then Removes else RaisesLate;
  }

  lemma PrunedOneMore(s0: State, s: State, t: State, gone: set<Name>, n: Name)
    requires IsPruned(s0, s, gone)
    requires forall m {:trigger Current(t, m)} ::
      Current(t, m) == if m == n || m == SidecarName(n) then None else Current(s, m)
    ensures IsPruned(s0, t, gone + {n})
  {
  }

  /**
   What is known in the loop of `prune_backups` while the backups `todo` are still to come. The prunable ones are
   gone but for those of `unread`, whose sidecars could not be read.
   */
  ghost predicate Midway(disk: Disk, w: World, newest: Option<Name>, cutoff: int, h0: seq<State>, s0: State,
                         gone: set<Name>, unread: set<Name>, todo: set<Name>)
    reads disk
  {
    var prunable := Prunable(w, s0, newest, cutoff);
    && Pruning(disk, h0, s0, gone)
    && gone <= prunable - unread <= gone + todo && gone !! todo && unread !! todo
    && (forall n | n in todo :: IsFound(s0, n))
    && (forall n | n in unread :: newest != Some(n) && Current(s0, SidecarName(n)).Some?)
  }

  /** A round of the loop with its bookkeeping; not `ok` when it raises. */
  method PruneRound(disk: Disk, w: World, newest: Option<Name>, cutoff: int, n: Name, ghost h0: seq<State>,
                    ghost s0: State, ghost gone: set<Name>, ghost unread: set<Name>, ghost todo: set<Name>)
    returns (ok: bool, ghost gone': set<Name>, ghost unread': set<Name>)
    requires n in todo && Midway(disk, w, newest, cutoff, h0, s0, gone, unread, todo)
    modifies disk
    ensures disk.Valid() && disk.clock >= old(disk.clock)
    ensures ok ==> Midway(disk, w, newest, cutoff, h0, s0, gone', unread', todo - {n})
    ensures var names := WithSidecars(Prunable(w, s0, newest, cutoff) - unread');
      !ok ==> AllVanishing(h0, disk.history, s0, names) && Vanishing(s0, disk.state, names)
    ensures forall m | m in unread' :: newest != Some(m) && Current(s0, SidecarName(m)).Some?
    ensures disk.faults >= old(disk.faults)
    ensures disk.faults == old(disk.faults) ==>
      unread' == unread && (ok <==> newest == Some(n) || SidecarDecodes(w, s0, n))
  {
    gone', unread' := gone, unread;
    var r := PruneOne(disk, w, newest, cutoff, n, h0, s0, gone);
    ok := !r.RaisesEarly? && !r.RaisesLate?;
    if !ok {
      ghost var names := WithSidecars(Prunable(w, s0, newest, cutoff) - unread);
      ghost var touched := if r.RaisesLate? then gone + {n} else gone;
      AllVanishingMore(h0, disk.history, s0, WithSidecars(touched), names);
      VanishingMore(s0, disk.state, WithSidecars(touched), names);
    } else if r.KeepsUnread? {
      unread' := unread + {n};
    } else if r.Removes? {
      gone' := gone + {n};
    }
  }

  /** Before the loop. */
  lemma NothingDone(disk: Disk, w: World, newest: Option<Name>, cutoff: int, todo: set<Name>)
    requires disk.Valid() && todo == set n | n in disk.state.dir && IsBackupFile(n)
    ensures Midway(disk, w, newest, cutoff, disk.history, disk.state, {}, {}, todo)
    ensures DecodableBut(w, disk.state, newest, todo)
  {
    NothingPruned(disk);
  }

  lemma InMidway(disk: Disk, w: World, newest: Option<Name>, cutoff: int, h0: seq<State>, s0: State, gone: set<Name>,
                 unread: set<Name>, todo: set<Name>, n: Name)
    requires Midway(disk, w, newest, cutoff, h0, s0, gone, unread, todo) && n in todo
    ensures IsFound(s0, n)
  {
  }

  /** After the loop. */
  lemma AllDone(disk: Disk, w: World, newest: Option<Name>, cutoff: int, h0: seq<State>, s0: State, gone: set<Name>,
                unread: set<Name>)
    requires Midway(disk, w, newest, cutoff, h0, s0, gone, unread, {})
    ensures disk.Valid() && gone == Prunable(w, s0, newest, cutoff) - unread
    ensures AllVanishing(h0, disk.history, s0, WithSidecars(gone)) && Vanishing(s0, disk.state, WithSidecars(gone))
    ensures IsPruned(s0, disk.state, gone)
    ensures forall n | n in unread :: newest != Some(n) && Current(s0, SidecarName(n)).Some?
  {
  }

  /**
   `prune_backups`; not `ok` when a sidecar cannot be decoded or a system call fails, which raises. The backups
   of `unread` are those whose sidecars could not be read; they stay.
   */
  method PruneBackups(disk: Disk, w: World, cutoff: int)
    returns (ok: bool, newest: Option<Name>, ghost unread: set<Name>)
    requires disk.Valid()
    modifies disk
    ensures disk.Valid() && IsNewest(old(disk.state), newest) && disk.clock >= old(disk.clock)
    ensures var names := WithSidecars(Prunable(w, old(disk.state), newest, cutoff) - unread);
      AllVanishing(old(disk.history), disk.history, old(disk.state), names)
        && Vanishing(old(disk.state), disk.state, names)
    ensures ok ==> IsPruned(old(disk.state), disk.state, Prunable(w, old(disk.state), newest, cutoff) - unread)
    ensures forall n | n in unread :: newest != Some(n) && Current(old(disk.state), SidecarName(n)).Some?
    ensures disk.faults >= old(disk.faults)
    ensures disk.faults == old(disk.faults) ==> unread == {} && (ok <==> Decodable(w, old(disk.state), newest))
  {
    ghost var h0, s0 := disk.history, disk.state;
    newest := FindNewest(disk.state);
    var todo := set n | n in disk.state.dir && IsBackupFile(n);
    ghost var gone: set<Name> := {};
    unread := {};
    NothingDone(disk, w, newest, cutoff, todo);
    hide Midway, AllVanishing, Vanishing, IsPruned, SidecarDecodes, IsPrunable;
    while todo != {}
      invariant Midway(disk, w, newest, cutoff, h0, s0, gone, unread, todo) && disk.clock >= old(disk.clock)
      invariant disk.faults >= old(disk.faults)
      invariant disk.faults == old(disk.faults) ==> unread == {} && DecodableBut(w, s0, newest, todo)
      decreases todo
    {
      var n :| n in todo;
      InMidway(disk, w, newest, cutoff, h0, s0, gone, unread, todo, n);
      ok, gone, unread := PruneRound(disk, w, newest, cutoff, n, h0, s0, gone, unread, todo);
      if !ok { return; }
      todo := todo - {n};
    }
    AllDone(disk, w, newest, cutoff, h0, s0, gone, unread);
    ok := true;
  }

  lemma EndsDifferently(s: string, t: string)
    requires s != [] && t != [] && s[|s| - 1] != t[|t| - 1]
    ensures !EndsWith(s, t)
  {
  }

  lemma SidecarIsNoBackup(p: Name)
    ensures !IsBackupFile(SidecarName(p))
  {
    EndsDifferently(SidecarName(p), NAME_SUFFIX);
  }

  /** A backup file is no sidecar, and no other backup's sidecar is its own. */
  lemma SidecarsApart(gone: set<Name>, n: Name)
    requires n !in gone && IsBackupFile(n) && forall p | p in gone :: IsBackupFile(p)
    ensures n !in WithSidecars(gone) && SidecarName(n) !in WithSidecars(gone)
  {
    forall p: Name ensures !IsBackupFile(SidecarName(p)) {
      SidecarIsNoBackup(p);
    }
    forall p | p in gone ensures SidecarName(p) != SidecarName(n) {
      assert SidecarName(p)[..|SidecarName(p)| - 5] == p;
      assert SidecarName(n)[..|SidecarName(n)| - 5] == n;
    }
  }

  // ---------- What pruning keeps ----------

  /** A pruning at a cutoff: all of the prunable backups are gone but those whose sidecars could not be read. */
  ghost predicate IsPruning(w: World, s: State, t: State, newest: Option<Name>, cutoff: int, unread: set<Name>) {
    IsNewest(s, newest) && IsPruned(s, t, Prunable(w, s, newest, cutoff) - unread)
  }

  /** Pruning takes nothing from a backup it keeps: neither the file nor its sidecar. */
  lemma KeptBackupsKeepTheirSidecars(w: World, s: State, t: State, newest: Option<Name>, cutoff: int,
                                     unread: set<Name>, n: Name)
    requires IsPruning(w, s, t, newest, cutoff, unread)
    requires IsBackupFile(n) && (!IsPrunable(w, s, newest, cutoff, n) || n in unread)
    ensures Current(t, n) == Current(s, n) && Current(t, SidecarName(n)) == Current(s, SidecarName(n))
  {
    SidecarsApart(Prunable(w, s, newest, cutoff) - unread, n);
  }

  /** The newest backup stays, and stays the newest. */
  lemma NewestStaysNewest(w: World, s: State, t: State, newest: Option<Name>, cutoff: int, unread: set<Name>)
    requires IsPruning(w, s, t, newest, cutoff, unread)
    ensures IsNewest(t, newest)
  {
    if newest.Some? {
      KeptBackupsKeepTheirSidecars(w, s, t, newest, cutoff, unread, newest.value);
    }
    forall n | IsListed(t, n) ensures IsListed(s, n) && Current(t, n) == Current(s, n) {
    }
  }

  /** Two backups have the same key only if they are the same backup. */
  ghost predicate KeysDistinct(s: State) {
    forall m, n | IsListed(s, m) && IsListed(s, n) && KeyOf(s, m) == KeyOf(s, n) :: m == n
  }

  /** What is found after a pruning is what it was, and was not prunable or its sidecar was not read. */
  lemma FoundAfterPruning(w: World, s: State, t: State, newest: Option<Name>, cutoff: int, unread: set<Name>, n: Name)
    requires IsPruning(w, s, t, newest, cutoff, unread) && IsFound(t, n)
    ensures IsFound(s, n) && (!IsPrunable(w, s, newest, cutoff, n) || n in unread)
    ensures IsAutomatic(w, t, n) == IsAutomatic(w, s, n) && IsOld(t, n, cutoff) == IsOld(s, n, cutoff)
  {
    assert Current(t, n) == Current(s, n);
    assert n !in Prunable(w, s, newest, cutoff) - unread;
    KeptBackupsKeepTheirSidecars(w, s, t, newest, cutoff, unread, n);
  }

  lemma NewestIsUnique(s: State, first: Option<Name>, second: Option<Name>)
    requires KeysDistinct(s) && IsNewest(s, first) && IsNewest(s, second)
    ensures first == second
  {
    if first.Some? && second.Some? {
      KeyLeAntisymmetric(KeyOf(s, first.value), KeyOf(s, second.value));
    }
  }

  /** The newest backup that was spared, if another one is taken for the newest and it is automatic and old. */
  function Spared(w: World, s: State, first: Option<Name>, second: Option<Name>, cutoff: int): set<Name> {
    if first != second && first.Some? && IsAutomatic(w, s, first.value) && IsOld(s, first.value, cutoff)
    then {first.value} else {}
  }

  lemma PrunableAgain(w: World, s: State, t: State, first: Option<Name>, second: Option<Name>, cutoff: int,
                      unread: set<Name>, n: Name)
    requires IsPruning(w, s, t, first, cutoff, unread)
    ensures n in Prunable(w, t, second, cutoff) <==>
      n in Prunable(w, s, first, cutoff) * unread + Spared(w, s, first, second, cutoff) && second != Some(n)
  {
    hide IsPruned, IsAutomatic;
    if IsFound(t, n) {
      FoundAfterPruning(w, s, t, first, cutoff, unread, n);
    } else if IsFound(s, n) && (!IsPrunable(w, s, first, cutoff, n) || n in unread) {
      KeptBackupsKeepTheirSidecars(w, s, t, first, cutoff, unread, n);
    }
  }

  /**
   What a second pruning with the same cutoff removes: what the first one could not tell, and the one it
   spared, when another backup with the same key is now taken for the newest; but not that other one.
   */
  lemma PruningAgain(w: World, s: State, t: State, first: Option<Name>, second: Option<Name>, cutoff: int,
                     unread: set<Name>)
    requires IsPruning(w, s, t, first, cutoff, unread) && IsNewest(t, second)
    ensures Prunable(w, t, second, cutoff) ==
      (set n | n in Prunable(w, s, first, cutoff) * unread + Spared(w, s, first, second, cutoff) && second != Some(n))
  {
    forall n {
      PrunableAgain(w, s, t, first, second, cutoff, unread, n);
    }
  }

  /** When no two backups have the same key, pruning is idempotent, up to the sidecars that could not be read. */
  lemma PruningIsIdempotent(w: World, s: State, t: State, first: Option<Name>, second: Option<Name>, cutoff: int,
                            unread: set<Name>)
    requires KeysDistinct(t)
    requires IsPruning(w, s, t, first, cutoff, unread) && IsNewest(t, second)
    ensures first == second && Prunable(w, t, second, cutoff) == Prunable(w, s, first, cutoff) * unread
  {
    NewestStaysNewest(w, s, t, first, cutoff, unread);
    NewestIsUnique(t, first, second);
    PruningAgain(w, s, t, first, second, cutoff, unread);
  }
}
