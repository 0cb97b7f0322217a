/**
 One directory of a POSIX file system, with what survives a crash.

 Files are inodes, so a rename moves the inode and an unlinked or replaced inode keeps its contents.
 Two things are volatile until they are synchronised:
 - the contents and the ownership of an inode, until `fsync` of the file. A crash before that may
   leave anything at all in the inode;
 - the directory entries, until `fsync` of the directory. A crash before that may leave each name,
   independently of the others, with any entry it has had since the last `fsync` of the directory.
 Both are the weakest promises a journalling file system makes, so what is proved here holds on
 stronger ones.
 */
module FileSystem {
  import opened Wrappers

  type Name = string
  type Bytes = seq<byte>

  /** Owner, group and permission bits. */
  datatype Ownership = Ownership(uid: nat, gid: nat, mode: nat)

  /** `stable`: the inode was synchronised after its last change. */
  datatype Node = Node(data: Bytes, owner: Ownership, mtime: int, stable: bool)

  /** What a file looks like to a program that finds it after a crash. */
  datatype Image = Image(data: Bytes, owner: Ownership)

  /** `earlier`: the entries each name has had since the directory was last synchronised, besides its present one. */
  datatype State = State(
    nodes: seq<Node>,
    dir: map<Name, nat>,
    earlier: map<Name, set<Option<nat>>>,
    dirOwner: Ownership)

  function ImageOf(node: Node): Image {
    Image(node.data, node.owner)
  }

  function Lookup(s: State, n: Name): Option<nat> {
    if n in s.dir then Some(s.dir[n]) else None
  }

  function Earlier(s: State, n: Name): set<Option<nat>> {
    if n in s.earlier then s.earlier[n] else {}
  }

  function Bindings(s: State, n: Name): set<Option<nat>> {
    Earlier(s, n) + {Lookup(s, n)}
  }

  function NodeAt(s: State, b: Option<nat>): Option<Node> {
    if b.Some? && b.value < |s.nodes| then Some(s.nodes[b.value]) else None
  }

  /** The file a program sees under `n` now. */
  function Current(s: State, n: Name): Option<Node> {
    NodeAt(s, Lookup(s, n))
  }

  /** The inodes a crash may leave under `n`; `None` when it may leave no file there. */
  ghost function Fates(s: State, n: Name): set<Option<Node>> {
    set b | b in Bindings(s, n) :: NodeAt(s, b)
  }

  ghost predicate NodeMaySurvive(x: Option<Node>, f: Option<Image>) {
    match x
    case None => f.None?
    case Some(node) => f.Some? && (node.stable ==> f.value == ImageOf(node))
  }

  /** A crash in state `s` may leave `f` under the name `n`. */
  ghost predicate MaySurvive(s: State, n: Name, f: Option<Image>) {
    exists x :: x in Fates(s, n) && NodeMaySurvive(x, f)
  }

  /** A crash in state `s` may leave exactly the files of `disk`. */
  ghost predicate MayCrashTo(s: State, disk: map<Name, Image>) {
    forall n :: MaySurvive(s, n, if n in disk then Some(disk[n]) else None)
  }

  ghost predicate WellFormed(s: State) {
    && (forall n | n in s.dir :: s.dir[n] < |s.nodes|)
    && (forall n, b | n in s.earlier && b in s.earlier[n] && b.Some? :: b.value < |s.nodes|)
  }

  /** No other name has, or may come back from a crash with, the inode of `n`. */
  ghost predicate Exclusive(s: State, n: Name) {
    n in s.dir && forall m | m != n :: Lookup(s, n) !in Bindings(s, m)
  }

  /** Nothing about `n` differs between the two states, now or after a crash. */
  ghost predicate SameFile(s: State, t: State, n: Name) {
    Current(s, n) == Current(t, n) && Fates(s, n) == Fates(t, n)
  }

  ghost predicate SameBut(s: State, t: State, touched: set<Name>) {
    forall n {:trigger SameFile(s, t, n)} {:trigger Fates(t, n)} {:trigger Current(t, n)} | n !in touched ::
      SameFile(s, t, n)
  }

  ghost predicate KeepsExclusive(s: State, t: State, touched: set<Name>) {
    forall n {:trigger Exclusive(t, n)} {:trigger Exclusive(s, n)} | n !in touched && Exclusive(s, n) :: Exclusive(t, n)
  }

  /** What a successful or failed system call on the names `touched` does to all the others. */
  ghost predicate Step(s: State, t: State, touched: set<Name>) {
    WellFormed(t) && SameBut(s, t, touched) && KeepsExclusive(s, t, touched) && t.dirOwner == s.dirOwner
  }

  lemma StepSelf(s: State, touched: set<Name>)
    requires WellFormed(s)
    ensures Step(s, s, touched)
  {
  }

  /** A name that is not touched has a file or has none, as before. */
  lemma StaysFree(s: State, t: State, touched: set<Name>, n: Name)
    requires WellFormed(s) && WellFormed(t) && SameBut(s, t, touched) && n !in touched
    ensures n in s.dir <==> n in t.dir
  {
    assert SameFile(s, t, n);
  }

  // ---------- System calls as functions of the state ----------

  function WithEarlier(s: State, n: Name): map<Name, set<Option<nat>>> {
    s.earlier[n := Earlier(s, n) + {Lookup(s, n)}]
  }

  function Created(s: State, n: Name, owner: Ownership, now: int): State {
    s.(nodes := s.nodes + [Node([], owner, now, false)],
       dir := s.dir[n := |s.nodes|],
       earlier := WithEarlier(s, n))
  }

  function Rewritten(s: State, n: Name, node: Node): State
    requires n in s.dir && s.dir[n] < |s.nodes|
  {
    s.(nodes := s.nodes[s.dir[n] := node])
  }

  function Renamed(s: State, from: Name, to: Name): State
    requires from in s.dir && from != to
  {
    s.(dir := (s.dir - {from})[to := s.dir[from]],
       earlier := s.earlier[to := Bindings(s, to)][from := Bindings(s, from)])
  }

  function Unlinked(s: State, n: Name): State {
    s.(dir := s.dir - {n}, earlier := WithEarlier(s, n))
  }

  function DirectorySynced(s: State): State {
    s.(earlier := map[])
  }

  lemma CreatedEffect(s: State, n: Name, owner: Ownership, now: int)
    requires WellFormed(s) && n !in s.dir
    ensures var t := Created(s, n, owner, now);
      && Step(s, t, {n})
      && Exclusive(t, n)
      && Current(t, n) == Some(Node([], owner, now, false))
      && Fates(t, n) == Fates(s, n) + {Current(t, n)}
  {
    var t := Created(s, n, owner, now);
    forall m | m != n ensures SameFile(s, t, m) && Bindings(t, m) == Bindings(s, m) {
      assert forall b | b in Bindings(s, m) :: NodeAt(s, b) == NodeAt(t, b);
      assert Bindings(t, m) == Bindings(s, m);
    }
    assert forall b | b in Bindings(s, n) :: NodeAt(s, b) == NodeAt(t, b);
    assert Bindings(t, n) == Bindings(s, n) + {Lookup(t, n)};
  }

  lemma RewrittenEffect(s: State, n: Name, node: Node)
    requires WellFormed(s) && Exclusive(s, n)
    ensures var t := Rewritten(s, n, node);
      && Step(s, t, {n})
      && Exclusive(t, n)
      && Current(t, n) == Some(node)
      && (forall x | x in Fates(t, n) :: x in Fates(s, n) || x == Some(node))
      && Some(node) in Fates(t, n)
  {
    var t := Rewritten(s, n, node);
    assert forall m :: Bindings(t, m) == Bindings(s, m);
    forall m | m != n ensures SameFile(s, t, m) {
      assert forall b | b in Bindings(s, m) :: NodeAt(s, b) == NodeAt(t, b);
    }
    assert Lookup(t, n) in Bindings(t, n);
  }

  lemma RenamedEffect(s: State, from: Name, to: Name)
    requires WellFormed(s) && Exclusive(s, from) && from != to
    ensures var t := Renamed(s, from, to);
      && Step(s, t, {from, to})
      && from !in t.dir
      && Current(t, from) == None
      && Fates(t, from) == Fates(s, from) + {None}
      && Current(t, to) == Current(s, from)
      && Fates(t, to) == Fates(s, to) + {Current(s, from)}
  {
    var t := Renamed(s, from, to);
    assert Bindings(t, from) == Bindings(s, from) + {None};
    assert Bindings(t, to) == Bindings(s, to) + {Lookup(s, from)};
    assert forall b :: NodeAt(t, b) == NodeAt(s, b);
    forall m | m != from && m != to ensures SameFile(s, t, m) && Bindings(t, m) == Bindings(s, m) {
      assert Bindings(t, m) == Bindings(s, m);
    }
  }

  lemma UnlinkedEffect(s: State, n: Name)
    requires WellFormed(s)
    ensures var t := Unlinked(s, n);
      && Step(s, t, {n})
      && n !in t.dir
      && Current(t, n) == None
      && Fates(t, n) == Fates(s, n) + {None}
  {
    var t := Unlinked(s, n);
    assert forall b :: NodeAt(t, b) == NodeAt(s, b);
    assert Bindings(t, n) == Bindings(s, n) + {None};
    forall m | m != n ensures SameFile(s, t, m) && Bindings(t, m) == Bindings(s, m) {
      assert Bindings(t, m) == Bindings(s, m);
    }
  }

  lemma DirectorySyncedEffect(s: State)
    requires WellFormed(s)
    ensures var t := DirectorySynced(s);
      && WellFormed(t) && t.dirOwner == s.dirOwner
      && KeepsExclusive(s, t, {})
      && forall n :: Current(t, n) == Current(s, n) && Fates(t, n) == {Current(s, n)}
  {
    var t := DirectorySynced(s);
    assert forall n :: Bindings(t, n) == {Lookup(s, n)};
    assert forall b :: NodeAt(t, b) == NodeAt(s, b);
    forall n | Exclusive(s, n) ensures Exclusive(t, n) {
      forall m | m != n ensures Lookup(t, n) !in Bindings(t, m) {
        assert Lookup(s, m) in Bindings(s, m);
      }
    }
  }
}
