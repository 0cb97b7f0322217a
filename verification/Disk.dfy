/**
 The directory of `FileSystem` as an object that programs call.

 Every system call may fail whatever its arguments; `history` records the state after each call, so a
 promise about every later entry of `history` is a promise about a crash, or an exception, between any
 two calls. `faults` counts the calls that failed without a cause in the state, so a promise for a run
 that leaves it alone is a promise that the program does its work. Programs modelled here only write to a
 file that no other name leads to.
 */
module Disks {
  import opened Wrappers
  import opened FileSystem

  /** `h` continues `h0`. */
  ghost predicate Continues(h0: seq<State>, h: seq<State>) {
    |h0| <= |h| && h[..|h0|] == h0
  }

  /** Every state of `h` after `h0` differs from `s` on the names `touched` at most. */
  ghost predicate OnlyTouched(h0: seq<State>, h: seq<State>, s: State, touched: set<Name>) {
    Continues(h0, h) && forall k | |h0| <= k < |h| :: SameBut(s, h[k], touched)
  }

  class Disk {
    var state: State
    var clock: int
    const identity: Ownership
    ghost var history: seq<State>
    ghost var faults: nat

    ghost predicate Valid()
      reads this
    {
      WellFormed(state) && history != [] && history[|history| - 1] == state
    }

    constructor (initial: State, now: int, identity: Ownership)
      requires WellFormed(initial)
      ensures Valid() && state == initial && clock == now && this.identity == identity && history == [initial]
      ensures faults == 0
    {
      state := initial;
      clock := now;
      this.identity := identity;
      history := [initial];
      faults := 0;
    }

    /** Any call that only looks. */
    method Look() returns (ok: bool)
      requires Valid()
      modifies this`faults
      ensures Valid() && faults == old(faults) + if ok then 0 else 1
    {
      ok := *;
      faults := faults + if ok then 0 else 1;
    }

    /** Open with `O_CREAT | O_EXCL`. */
    method Create(n: Name) returns (ok: bool)
      requires Valid()
      modifies this
      ensures Valid() && history == old(history) + [state] && clock >= old(clock)
      ensures faults == old(faults) + if ok || n in old(state).dir then 0 else 1
      ensures n in old(state).dir ==> !ok
      ensures !ok ==> state == old(state)
      ensures ok ==> Step(old(state), state, {n}) && Exclusive(state, n)
      ensures ok ==> Current(state, n) == Some(Node([], identity, clock, false))
      ensures ok ==> Fates(state, n) == Fates(old(state), n) + {Current(state, n)}
    {
      var works: bool, ticks: nat := *, *;
      clock := clock + ticks;
      faults := faults + if works || n in state.dir then 0 else 1;
      ok := works && n !in state.dir;
      if ok {
        CreatedEffect(state, n, identity, clock);
        state := Created(state, n, identity, clock);
      }
      history := history + [state];
    }

    /** Replaces the inode of `n` by `node`. */
    method Change(n: Name, node: Node)
      requires Valid() && Exclusive(state, n)
      modifies this`state, this`history
      ensures Valid() && history == old(history) + [state]
      ensures Step(old(state), state, {n}) && Exclusive(state, n)
      ensures Current(state, n) == Some(node)
      ensures forall x | x in Fates(state, n) :: x in Fates(old(state), n) || x == Some(node)
      ensures Some(node) in Fates(state, n)
    {
      RewrittenEffect(state, n, node);
      state := Rewritten(state, n, node);
      history := history + [state];
    }

    /** Appends a chunk; when it fails, any part of the chunk may have been written. */
    method Append(n: Name, chunk: Bytes) returns (ok: bool)
      requires Valid() && Exclusive(state, n)
      modifies this
      ensures Valid() && history == old(history) + [state] && clock >= old(clock)
      ensures faults == old(faults) + if ok then 0 else 1
      ensures Step(old(state), state, {n}) && Exclusive(state, n)
      ensures Current(state, n).Some?
      ensures exists k | 0 <= k <= |chunk| ::
        Current(state, n).value.data == Current(old(state), n).value.data + chunk[..k]
      ensures ok ==> Current(state, n).value.data == Current(old(state), n).value.data + chunk
      ensures Current(state, n).value.owner == Current(old(state), n).value.owner
        && Current(state, n).value.mtime == clock
    {
      var works: bool, ticks: nat, k: nat := *, *, *;
      clock := clock + ticks;
      ok := works;
      faults := faults + if ok then 0 else 1;
      var written := if ok || k > |chunk| then |chunk| else k;
      var node := state.nodes[state.dir[n]];
      assert chunk[..|chunk|] == chunk;
      Change(n, Node(node.data + chunk[..written], node.owner, clock, false));
    }

    /** Empties the file or, for a program that writes it some other way, fills it. */
    method Fill(n: Name, data: Bytes) returns (ok: bool)
      requires Valid() && Exclusive(state, n)
      modifies this
      ensures Valid() && history == old(history) + [state] && clock >= old(clock)
      ensures faults == old(faults) + if ok then 0 else 1
      ensures Step(old(state), state, {n}) && Exclusive(state, n)
      ensures Current(state, n).Some? && (ok ==> Current(state, n).value.data == data)
      ensures Current(state, n).value.owner == Current(old(state), n).value.owner
      ensures !ok && data == [] ==> Current(state, n).value.data == Current(old(state), n).value.data
    {
      var works: bool, ticks: nat, junk: Bytes := *, *, *;
      clock := clock + ticks;
      ok := works;
      faults := faults + if ok then 0 else 1;
      var node := state.nodes[state.dir[n]];
      var left := if ok then data else if data == [] then node.data else junk;
      Change(n, Node(left, node.owner, clock, false));
    }

    method FsyncFile(n: Name) returns (ok: bool)
      requires Valid() && Exclusive(state, n)
      modifies this
      ensures Valid() && history == old(history) + [state] && clock >= old(clock)
      ensures faults == old(faults) + if ok then 0 else 1
      ensures Step(old(state), state, {n}) && Exclusive(state, n)
      ensures Current(state, n).Some? && ImageOf(Current(state, n).value) == ImageOf(Current(old(state), n).value)
      ensures Current(state, n).value.mtime == Current(old(state), n).value.mtime
      ensures ok ==> Current(state, n).value.stable
    {
      var works: bool, ticks: nat := *, *;
      clock := clock + ticks;
      ok := works;
      faults := faults + if ok then 0 else 1;
      var node := state.nodes[state.dir[n]];
      Change(n, if ok then node.(stable := true) else node);
    }

    method SetOwner(n: Name, owner: Ownership) returns (ok: bool)
      requires Valid() && Exclusive(state, n)
      modifies this
      ensures Valid() && history == old(history) + [state] && clock >= old(clock)
      ensures faults == old(faults) + if ok then 0 else 1
      ensures Step(old(state), state, {n}) && Exclusive(state, n)
      ensures Current(state, n).Some? && Current(state, n).value.data == Current(old(state), n).value.data
      ensures ok ==> Current(state, n).value.owner == owner
    {
      var works: bool, ticks: nat, partly: Ownership := *, *, *;
      clock := clock + ticks;
      ok := works;
      faults := faults + if ok then 0 else 1;
      var node := state.nodes[state.dir[n]];
      Change(n, node.(owner := if ok then owner else partly, stable := false));
    }

    /** A write transaction on the database in `n` that is rolled back: it rewrites pages with what they held. */
    method WriteAndRollBack(n: Name) returns (ok: bool)
      requires Valid() && Exclusive(state, n)
      modifies this
      ensures Valid() && history == old(history) + [state] && clock >= old(clock)
      ensures faults == old(faults) + if ok then 0 else 1
      ensures Step(old(state), state, {n}) && Exclusive(state, n)
      ensures Current(state, n).Some? && ImageOf(Current(state, n).value) == ImageOf(Current(old(state), n).value)
    {
      var works: bool, ticks: nat := *, *;
      ok := works;
      faults := faults + if ok then 0 else 1;
      clock := clock + ticks;
      var node := state.nodes[state.dir[n]];
      Change(n, node.(stable := false, mtime := clock));
    }

    method Rename(from: Name, to: Name) returns (ok: bool)
      requires Valid() && Exclusive(state, from) && from != to
      modifies this
      ensures Valid() && history == old(history) + [state] && clock >= old(clock)
      ensures faults == old(faults) + if ok then 0 else 1
      ensures !ok ==> state == old(state)
      ensures ok ==> Step(old(state), state, {from, to}) && from !in state.dir
      ensures ok ==> Current(state, from) == None && Fates(state, from) == Fates(old(state), from) + {None}
      ensures ok ==> Current(state, to) == Current(old(state), from)
      ensures ok ==> Fates(state, to) == Fates(old(state), to) + {Current(old(state), from)}
    {
      var works: bool, ticks: nat := *, *;
      ok := works;
      faults := faults + if ok then 0 else 1;
      clock := clock + ticks;
      if ok {
        RenamedEffect(state, from, to);
        state := Renamed(state, from, to);
      }
      history := history + [state];
    }

    /** `unlink(missing_ok=True)`: a name that is not there is not an error. */
    method Unlink(n: Name) returns (ok: bool)
      requires Valid()
      modifies this
      ensures Valid() && history == old(history) + [state] && clock >= old(clock)
      ensures faults == old(faults) + if ok then 0 else 1
      ensures n !in old(state).dir ==> ok && state == old(state)
      ensures !ok ==> state == old(state)
      ensures ok && n in old(state).dir ==> Fates(state, n) == Fates(old(state), n) + {None}
      ensures ok ==> Step(old(state), state, {n}) && Current(state, n) == None && n !in state.dir
    {
      var works: bool, ticks: nat := *, *;
      clock := clock + ticks;
      ok := works || n !in state.dir;
      faults := faults + if ok then 0 else 1;
      if ok && n in state.dir {
        UnlinkedEffect(state, n);
        state := Unlinked(state, n);
      }
      StepSelf(old(state), {n});
      assert n !in state.dir ==> Current(state, n) == None;
      history := history + [state];
    }

    method FsyncDirectory() returns (ok: bool)
      requires Valid()
      modifies this
      ensures Valid() && history == old(history) + [state] && clock >= old(clock)
      ensures faults == old(faults) + if ok then 0 else 1
      ensures state.dir == old(state).dir && state.dirOwner == old(state).dirOwner
        && KeepsExclusive(old(state), state, {})
      ensures !ok ==> state == old(state)
      ensures forall n :: Current(state, n) == Current(old(state), n)
      ensures ok ==> forall n :: Fates(state, n) == {Current(state, n)}
    {
      var works: bool, ticks: nat := *, *;
      ok := works;
      faults := faults + if ok then 0 else 1;
      clock := clock + ticks;
      if ok {
        DirectorySyncedEffect(state);
        state := DirectorySynced(state);
      }
      history := history + [state];
    }

    method SetDirectoryOwner(owner: Ownership) returns (ok: bool)
      requires Valid()
      modifies this
      ensures Valid() && history == old(history) + [state] && clock >= old(clock)
      ensures faults == old(faults) + if ok then 0 else 1
      ensures WellFormed(state) && SameBut(old(state), state, {}) && KeepsExclusive(old(state), state, {})
      ensures ok ==> state.dirOwner == owner
    {
      var works: bool, ticks: nat, partly: Ownership := *, *, *;
      clock := clock + ticks;
      ok := works;
      faults := faults + if ok then 0 else 1;
      state := state.(dirOwner := if ok then owner else partly);
      assert forall b :: NodeAt(state, b) == NodeAt(old(state), b);
      forall n ensures SameFile(old(state), state, n) && Bindings(state, n) == Bindings(old(state), n) {
        assert Bindings(state, n) == Bindings(old(state), n);
      }
      history := history + [state];
    }
  }
}
