/** What "a file is replaced as a whole, durably" means in terms of `FileSystem`. */
module Publication {
  import opened Wrappers
  import opened FileSystem
  import opened Disks

  /** The inode holds all of `image`, and a crash cannot take it back. */
  predicate IsDurable(x: Option<Node>, image: Image) {
    x.Some? && x.value.stable && ImageOf(x.value) == image
  }

  /** No name outside `touched` has other contents now, or can have more fates, than in `s0`. */
  ghost predicate Undisturbed(s0: State, s: State, touched: set<Name>) {
    forall n {:trigger Fates(s, n)} {:trigger Current(s, n)} | n !in touched ::
      Current(s, n) == Current(s0, n) && Fates(s, n) <= Fates(s0, n)
  }

  /**
   `n` is as in `s0`, or holds all of `image`; a crash leaves something it could have left in `s0`, or all of
   `image`.
   */
  ghost predicate OldOrNew(s0: State, s: State, n: Name, image: Image) {
    && (forall x | x in Fates(s, n) :: x in Fates(s0, n) || IsDurable(x, image))
    && (Current(s, n) == Current(s0, n) || IsDurable(Current(s, n), image))
  }

  /** `n` holds all of `image` now and after any crash. */
  ghost predicate OnDisk(s: State, n: Name, image: Image) {
    IsDurable(Current(s, n), image) && Fates(s, n) == {Current(s, n)}
  }

  lemma OldOrNewAfterCrash(s0: State, s: State, n: Name, image: Image, f: Option<Image>)
    requires OldOrNew(s0, s, n, image) && MaySurvive(s, n, f)
    ensures MaySurvive(s0, n, f) || f == Some(image)
  {
  }

  lemma OnDiskAfterCrash(s: State, n: Name, image: Image, f: Option<Image>)
    requires OnDisk(s, n, image)
    ensures MaySurvive(s, n, f) <==> f == Some(image)
  {
  }

  lemma UndisturbedAfterCrash(s0: State, s: State, touched: set<Name>, n: Name, f: Option<Image>)
    requires Undisturbed(s0, s, touched) && n !in touched && MaySurvive(s, n, f)
    ensures MaySurvive(s0, n, f)
  {
  }

  /** What `rename(from, to)` of an exclusive inode does, seen from outside. */
  ghost predicate RenameStep(s: State, t: State, from: Name, to: Name) {
    && WellFormed(t) && from !in t.dir && from != to
    && SameBut(s, t, {from, to})
    && Current(t, to) == Current(s, from)
    && Fates(t, to) == Fates(s, to) + {Current(s, from)}
  }

  /** What `fsync` of the directory does, seen from outside. */
  ghost predicate SyncStep(s: State, t: State) {
    forall n {:trigger Fates(t, n)} {:trigger Current(t, n)} :: Current(t, n) == Current(s, n)
      && Fates(t, n) == {Current(s, n)}
  }

  lemma SameIsUndisturbed(s: State, t: State, touched: set<Name>)
    requires SameBut(s, t, touched)
    ensures Undisturbed(s, t, touched)
    ensures forall n, image | n !in touched :: OldOrNew(s, t, n, image)
  {
  }

  lemma UndisturbedTransitive(s: State, t: State, u: State, a: set<Name>, b: set<Name>)
    requires Undisturbed(s, t, a) && Undisturbed(t, u, b)
    ensures Undisturbed(s, u, a + b)
  {
  }

  /** Renaming a synchronised inode to `to` leaves `to` old or new. */
  lemma RenamePublishes(s0: State, s: State, t: State, from: Name, to: Name, image: Image)
    requires OldOrNew(s0, s, to, image) && RenameStep(s, t, from, to) && IsDurable(Current(s, from), image)
    ensures OldOrNew(s0, t, to, image) && IsDurable(Current(t, to), image)
  {
  }

  /** Synchronising the directory keeps every name as it is and disturbs none. */
  lemma SyncSettles(s: State, t: State)
    requires SyncStep(s, t)
    ensures Undisturbed(s, t, {})
    ensures forall n, image | IsDurable(Current(s, n), image) :: OnDisk(t, n, image)
  {
  }

  lemma UndisturbedKeepsOldOrNew(s0: State, s: State, t: State, touched: set<Name>, n: Name, image: Image)
    requires OldOrNew(s0, s, n, image) && Undisturbed(s, t, touched) && n !in touched
    ensures OldOrNew(s0, t, n, image)
  {
  }

  /** Every state of `h` after `h0` leaves `n` old or new, and disturbs nothing outside `touched`. */
  ghost predicate Kept(h0: seq<State>, h: seq<State>, s0: State, touched: set<Name>, n: Name, image: Image) {
    && Continues(h0, h)
    && forall k | |h0| <= k < |h| :: Undisturbed(s0, h[k], touched) && OldOrNew(s0, h[k], n, image)
  }

  lemma KeptNone(h0: seq<State>, s0: State, touched: set<Name>, n: Name, image: Image)
    ensures Kept(h0, h0, s0, touched, n, image)
  {
  }

  lemma KeptOneMore(h0: seq<State>, h: seq<State>, s: State, s0: State, touched: set<Name>, n: Name, image: Image)
    requires Kept(h0, h, s0, touched, n, image)
    requires Undisturbed(s0, s, touched) && OldOrNew(s0, s, n, image)
    ensures Kept(h0, h + [s], s0, touched, n, image)
  {
  }

  /** Calls that touch other names keep `n`. */
  lemma UntouchedIsKept(h0: seq<State>, h: seq<State>, s0: State, few: set<Name>, touched: set<Name>, n: Name,
                        image: Image)
    requires OnlyTouched(h0, h, s0, few) && few <= touched && n !in few
    ensures Kept(h0, h, s0, touched, n, image)
  {
  }

  /** Two stretches of a run, the first of which did not touch `n`. */
  lemma KeptThen(h0: seq<State>, h1: seq<State>, h2: seq<State>, s0: State, s1: State,
                 few: set<Name>, touched: set<Name>, n: Name, image: Image)
    requires OnlyTouched(h0, h1, s0, few) && SameBut(s0, s1, few) && few <= touched && n !in few
    requires Kept(h1, h2, s1, touched, n, image)
    ensures Kept(h0, h2, s0, touched, n, image)
  {
  }

  lemma OnlyTouchedThen(h0: seq<State>, h1: seq<State>, h2: seq<State>, s0: State, s1: State, touched: set<Name>)
    requires OnlyTouched(h0, h1, s0, touched) && SameBut(s0, s1, touched)
    requires OnlyTouched(h1, h2, s1, touched)
    ensures OnlyTouched(h0, h2, s0, touched)
  {
  }

  lemma SameButTransitive(s: State, t: State, u: State, touched: set<Name>)
    requires SameBut(s, t, touched) && SameBut(t, u, touched)
    ensures SameBut(s, u, touched)
  {
  }

  /** `os.replace` of a synchronised file, without synchronising the directory. */
  method Publish(disk: Disk, from: Name, to: Name) returns (ok: bool)
    requires disk.Valid() && from != to && Exclusive(disk.state, from)
    requires Current(disk.state, from).Some? && Current(disk.state, from).value.stable
    modifies disk
    ensures disk.Valid() && Undisturbed(old(disk.state), disk.state, {from, to})
    ensures KeepsExclusive(old(disk.state), disk.state, {from, to}) && disk.clock >= old(disk.clock)
    ensures disk.faults == old(disk.faults) + if ok then 0 else 1
    ensures disk.state.dirOwner == old(disk.state).dirOwner
    ensures ok ==> SameBut(old(disk.state), disk.state, {from, to}) && from !in disk.state.dir
    ensures !ok ==> disk.state == old(disk.state)
    ensures Kept(old(disk.history), disk.history, old(disk.state), {from, to}, to,
      ImageOf(Current(old(disk.state), from).value))
    ensures OldOrNew(old(disk.state), disk.state, to, ImageOf(Current(old(disk.state), from).value))
    ensures ok ==> Current(disk.state, to) == Current(old(disk.state), from)
  {
    ghost var h0, s0 := disk.history, disk.state;
    ghost var image := ImageOf(Current(s0, from).value);
    StepSelf(s0, {from});
    SameIsUndisturbed(s0, s0, {});
    KeptNone(h0, s0, {from, to}, to, image);
    ok := disk.Rename(from, to);
    if ok {
      RenamePublishes(s0, s0, disk.state, from, to, image);
      SameIsUndisturbed(s0, disk.state, {from, to});
    }
    KeptOneMore(h0, h0, disk.state, s0, {from, to}, to, image);
  }
}
