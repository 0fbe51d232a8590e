/** The ctime shortcut over whole histories (tsm/indexer.go:43-66, 276-295, 409-453).
    Files are made, written, touched, linked and removed while the clock runs,
    directories are renamed;
    snapshots are captured, indexed some time later, written, and parsed back to
    serve as parents themselves; snapshots are downloaded (tsm/download.go:67-356)
    and checked out. */
module History {
  import opened Bytes
  import opened Sorting
  import opened TsmEntry
  import opened Indexer
  import opened Listing
  import opened Snapshot
  import opened Meaning
  import C = Chunking
  import Capacity
  import Identity
  import TscFormat
  import TsmFormat

  /** granularity: a file's ctime is a coarse clock that lags real time by less
      than this. delay: indexing starts at most this long after the capture. */
  datatype Params = Params(blob: Digest, sha256: Digest, granularity: nat, delay: nat)

  /** line: the snapshots that the tree had grown from when this one was made. */
  datatype Snap = Snap(capture: int, coarse: i64, start: int, tree: Tree, files: Parent, line: set<nat>)

  /** A capture of a tree, and the snapshot it was answered with. */
  datatype Capture = Capture(n: nat, tree: Tree)

  /** line: the snapshots that the tree has grown from. */
  datatype World = World(clock: int, coarse: i64, tree: Tree, snaps: seq<Snap>, line: set<nat>, taken: seq<Capture>)

  datatype Action =
    | Tick(clock: int, coarse: i64)
    | Create(path: Bytes, inode: u64, content: Bytes)
    | Write(path: Bytes, content: Bytes)
    | Touch(path: Bytes)
    | Link(path: Bytes, to: Bytes)
    | Remove(path: Bytes)
    | Rename(from: Bytes, to: Bytes)
    | Take(start: int, parent: Option<nat>, items: seq<Item>, creation: i64)
    | Fetch(start: int, offer: Offer, local: Tree)
    | Checkout(n: nat)

  /** What a peer serves: the two files of a snapshot and, for the record, the tree
      they attest. */
  datatype Offer = Offer(tsm: Bytes, tsc: Bytes, start: int, tree: Tree)

  ghost predicate ClockOk(p: Params, clock: int, coarse: i64) {
    -0x8000_0000_0000_0000 < coarse && clock - p.granularity < coarse <= clock
  }

  // ---------------------------------------------------------------- the file system

  /** Every name of a file shows its change. */
  function Stamped(tree: Tree, inode: u64, content: Bytes, coarse: i64): Tree {
    map q | q in tree :: if tree[q].inode == inode then File(content, coarse, inode) else tree[q]
  }

  ghost predicate InUse(tree: Tree, inode: u64) { exists q :: q in tree && tree[q].inode == inode }

  const SLASH: byte := 47

  predicate Under(q: Bytes, dir: Bytes) { |dir| < |q| && q[..|dir|] == dir && q[|dir|] == SLASH }

  /** The name before a directory is renamed, and after. */
  function NameBefore(q: Bytes, from: Bytes, to: Bytes): Bytes { if Under(q, to) then from + q[|to|..] else q }

  function NameAfter(q: Bytes, from: Bytes, to: Bytes): Bytes { if Under(q, from) then to + q[|from|..] else q }

  /** A renamed directory takes its files along, and none of them is stamped. */
  function Moved(tree: Tree, from: Bytes, to: Bytes): Tree {
    map q | q in (set x | x in tree :: NameAfter(x, from, to)) && NameBefore(q, from, to) in tree ::
      tree[NameBefore(q, from, to)]
  }

  /** The new name is free. */
  ghost predicate CanMove(tree: Tree, from: Bytes, to: Bytes) {
    from != to && !Under(to, from) && to !in tree && forall q :: q in tree ==> !Under(q, to)
  }

  /** To every snapshot that the tree has grown from, a file that arrives under a name
      is new there or stamped since. */
  ghost predicate MoveOk(w: World, from: Bytes, to: Bytes) {
    forall q, n :: q in w.tree && Under(q, from) && n in w.line && n < |w.snaps| ==>
                     ArrivesNew(w.snaps[n], w.tree[q], NameAfter(q, from, to))
  }

  ghost predicate ArrivesNew(snap: Snap, f: File, at: Bytes) { at in snap.tree ==> snap.coarse <= f.ctime }

  // --------------------------------------------------------------------- snapshots

  ghost function ParentOf(w: World, parent: Option<nat>): Option<Parent> {
    if parent.Some? && parent.value < |w.snaps| then Some(w.snaps[parent.value].files) else None
  }

  /** A parent is a snapshot that the tree has grown from, finished before. */
  ghost predicate ParentOk(w: World, parent: Option<nat>, start: int) {
    parent.Some? ==> parent.value in w.line && parent.value < |w.snaps| && w.snaps[parent.value].start < start
  }

  /** Capture now, index at start: the snapshot's parsed files, if it comes about. */
  ghost function Index(p: Params, w: World, start: int, parent: Option<nat>, items: seq<Item>,
                       creation: i64): Option<Parent>
  {
    var st := Walk(Config(p.blob, ParentOf(w, parent), start), INITIAL, items);
    if st == None || !Writable(st.value) then None
    else
      var tsc := TscFormat.Parse(p.sha256, TscFile(p.sha256, st.value));
      var tsm := TsmFormat.Parse(p.sha256, TsmFile(p.sha256, st.value, creation));
      if tsc.Ok? && tsm.Ok? then Some(Parent(tsm.value, tsc.value)) else None
  }

  /** The files the manifest lists, by path. */
  ghost predicate IsListedFile(tsm: TsmFormat.Reader, q: Bytes) {
    exists i :: 0 <= i < |tsm.entries| && tsm.entries[i].typ == FILE && tsm.entries[i].path == q
  }

  /** What extraction leaves: each listed file with the peer's bytes and a ctime
      stamped here since the download began. */
  ghost predicate Extracted(p: Params, w: World, start: int, m: TsmFormat.Reader, offered: Tree, local: Tree) {
    && (forall q :: q in local <==> IsListedFile(m, q))
    && (forall q :: q in local ==>
          && q in offered && local[q].content == offered[q].content
          && start - p.granularity < local[q].ctime <= w.coarse && -0x8000_0000_0000_0000 < local[q].ctime)
    && Coherent(local)
  }

  /** The ctimes patched into the manifest that is kept. */
  function LocalCtimes(local: Tree, start: int): map<Bytes, i64> {
    map q | q in local :: RacyAdjusted(local[q].ctime, start)
  }

  /** The offer is honest: its files parse, belong together and attest the tree. */
  ghost predicate HonestOffer(p: Params, o: Offer) {
    && TsmFormat.Parse(p.sha256, o.tsm).Ok? && TscFormat.Parse(p.sha256, o.tsc).Ok?
    && Attests(p.blob, o.start, Offered(p, o), o.tree) && Bound(Offered(p, o))
  }

  function Offered(p: Params, o: Offer): Parent
    requires TsmFormat.Parse(p.sha256, o.tsm).Ok? && TscFormat.Parse(p.sha256, o.tsc).Ok?
  {
    Parent(TsmFormat.Parse(p.sha256, o.tsm).value, TscFormat.Parse(p.sha256, o.tsc).value)
  }

  /** Download: the manifest is kept with the ctimes stamped here. */
  ghost function Downloaded(p: Params, o: Offer, local: Tree, start: int): Option<Parent> {
    var patched := TsmFormat.Patch(o.tsm, LocalCtimes(local, start));
    if patched.Err? then None
    else
      var tsm, tsc := TsmFormat.Parse(p.sha256, patched.value), TscFormat.Parse(p.sha256, o.tsc);
      if tsm.Ok? && tsc.Ok? then Some(Parent(tsm.value, tsc.value)) else None
  }

  /** The snapshot that has this identity already. */
  function WithId(snaps: seq<Snap>, sha: Sha): (n: Option<nat>)
    ensures n.Some? ==> n.value < |snaps| && snaps[n.value].files.tsm.sha == sha
    ensures n == None ==> forall i :: 0 <= i < |snaps| ==> snaps[i].files.tsm.sha != sha
  {
    if snaps == [] then None
    else if snaps[|snaps| - 1].files.tsm.sha == sha then Some(|snaps| - 1)
    else WithId(snaps[..|snaps| - 1], sha)
  }

  /** A snapshot whose identity exists already is discarded for the one that is there
      (cmd/thundersnapd/snapqueue.go:269-302). */
  function Answer(w: World, start: int, files: Parent): World {
    var known := WithId(w.snaps, files.tsm.sha);
    var n := if known.Some? then known.value else |w.snaps|;
    var line: set<nat> := w.line + {n};
    w.(snaps := if known.Some? then w.snaps
                else w.snaps + [Snap(w.clock, w.coarse, start, w.tree, files, w.line)],
       line := line, taken := w.taken + [Capture(n, w.tree)])
  }

  ghost function Taking(p: Params, w: World, start: int, parent: Option<nat>, items: seq<Item>,
                        creation: i64): Option<World>
  {
    if !(w.clock <= start <= w.clock + p.delay && WalksTree(w.tree, items) && ParentOk(w, parent, start)) then None
    else
      match Index(p, w, start, parent, items, creation)
      case None => None
      case Some(files) => Some(Answer(w, start, files))
  }

  /** A snapshot that is here already is not downloaded (tsm/download.go:71-77). */
  ghost function Fetching(p: Params, w: World, start: int, o: Offer, local: Tree): Option<World> {
    if !(start <= w.clock && HonestOffer(p, o)) || WithId(w.snaps, Offered(p, o).tsm.sha).Some? then None
    else if !Extracted(p, w, start, TsmFormat.Parse(p.sha256, o.tsm).value, o.tree, local) then None
    else
      match Downloaded(p, o, local, start)
      case None => None
      case Some(files) => Some(w.(snaps := w.snaps + [Snap(w.clock, w.coarse, start, local, files, {})]))
  }

  /** One action; None when it is not possible here. */
  ghost function Apply(p: Params, w: World, a: Action): Option<World> {
    match a
    case Tick(clock, coarse) =>
      if w.clock <= clock && w.coarse <= coarse && ClockOk(p, clock, coarse)
      then Some(w.(clock := clock, coarse := coarse)) else None
    case Create(path, inode, content) =>
      if path in w.tree || InUse(w.tree, inode) then None
      else Some(w.(tree := w.tree[path := File(content, w.coarse, inode)]))
    case Write(path, content) =>
      if path !in w.tree then None
      else Some(w.(tree := Stamped(w.tree, w.tree[path].inode, content, w.coarse)))
    case Touch(path) =>
      if path !in w.tree then None
      else Some(w.(tree := Stamped(w.tree, w.tree[path].inode, w.tree[path].content, w.coarse)))
    case Link(path, to) =>
      if path !in w.tree || to in w.tree then None
      else
        var f := w.tree[path];
        Some(w.(tree := Stamped(w.tree, f.inode, f.content, w.coarse)[to := f.(ctime := w.coarse)]))
    case Remove(path) =>
      if path !in w.tree then None
      else Some(w.(tree := Stamped(w.tree, w.tree[path].inode, w.tree[path].content, w.coarse) - {path}))
    case Rename(from, to) =>
      if CanMove(w.tree, from, to) && MoveOk(w, from, to) then Some(w.(tree := Moved(w.tree, from, to))) else None
    case Take(start, parent, items, creation) => Taking(p, w, start, parent, items, creation)
    case Fetch(start, o, local) => Fetching(p, w, start, o, local)
    case Checkout(n) =>
      if n >= |w.snaps| then None else Some(w.(tree := w.snaps[n].tree, line := w.snaps[n].line + {n}))
  }

  ghost function Play(p: Params, w: World, acts: seq<Action>): Option<World>
    decreases |acts|
  {
    if acts == [] then Some(w)
    else
      match Apply(p, w, acts[0])
      case None => None
      case Some(next) => Play(p, next, acts[1..])
  }

  ghost predicate Begins(p: Params, w: World) {
    w.tree == map[] && w.snaps == [] && w.line == {} && w.taken == [] && ClockOk(p, w.clock, w.coarse)
  }

  /** Every snapshot, parsed from its files, tells what its tree held at capture; and
      what every capture was answered with holds the captured tree. */
  ghost predicate AllAttest(p: Params, w: World) {
    && (forall n :: 0 <= n < |w.snaps| ==> Attests(p.blob, w.snaps[n].start, w.snaps[n].files, w.snaps[n].tree))
    && (forall i :: 0 <= i < |w.taken| ==> IsAnswered(p, w.snaps, w.taken[i]))
  }

  ghost predicate IsAnswered(p: Params, snaps: seq<Snap>, c: Capture) {
    c.n < |snaps| && Holds(p.blob, snaps[c.n].files, c.tree)
  }

  /** In the run no two identities clash. */
  ghost predicate NoClash(p: Params, w: World, acts: seq<Action>)
    decreases |acts|
  {
    acts != [] ==>
      && TellsApart(p, w, acts[0])
      && (Apply(p, w, acts[0]).Some? ==> NoClash(p, Apply(p, w, acts[0]).value, acts[1..]))
  }

  ghost predicate TellsApart(p: Params, w: World, a: Action) {
    a.Take? ==> forall n, files :: 0 <= n < |w.snaps|
                                   && Index(p, w, a.start, a.parent, a.items, a.creation) == Some(files)
                                   ==> Identity.ToldApart(p.sha256, files, w.snaps[n].files)
  }

  /** All bytes ever written or downloaded have their chunks in the set. */
  ghost predicate Within(s: set<Bytes>, acts: seq<Action>) {
    forall i :: 0 <= i < |acts| ==> WritesWithin(s, acts[i])
  }

  ghost predicate WritesWithin(s: set<Bytes>, a: Action) {
    && (a.Create? || a.Write? ==> forall c :: c in C.Chunks(a.content) ==> c in s)
    && (a.Fetch? ==> Covers(s, a.offer.tree))
  }

  // ---------------------------------------------------------------- the invariant

  /** A file that differs from what a snapshot captured was stamped after it. */
  ghost predicate StampedSince(p: Params, snap: Snap, path: Bytes, now: File) {
    path in snap.tree && now.content != snap.tree[path].content ==>
      snap.tree[path].ctime <= now.ctime && snap.capture - p.granularity < now.ctime
  }

  ghost predicate TreeSince(p: Params, snap: Snap, tree: Tree) {
    forall q :: q in tree ==> StampedSince(p, snap, q, tree[q])
  }

  ghost predicate StampedBy(tree: Tree, coarse: i64) {
    forall q :: q in tree ==> -0x8000_0000_0000_0000 < tree[q].ctime <= coarse
  }

  /** A tree that has grown from the snapshots of its line. */
  ghost predicate Grown(p: Params, s: set<Bytes>, snaps: seq<Snap>, coarse: i64, tree: Tree, line: set<nat>) {
    && StampedBy(tree, coarse) && Covers(s, tree) && Coherent(tree)
    && forall n :: n in line ==> n < |snaps| && TreeSince(p, snaps[n], tree)
  }

  ghost predicate SnapOk(p: Params, s: set<Bytes>, w: World, n: nat)
    requires n < |w.snaps|
  {
    var snap := w.snaps[n];
    && snap.capture <= w.clock && snap.coarse <= w.coarse && ClockOk(p, snap.capture, snap.coarse)
    && snap.start <= snap.capture + p.delay
    && Grown(p, s, w.snaps, snap.coarse, snap.tree, snap.line)
    && Attests(p.blob, snap.start, snap.files, snap.tree) && Bound(snap.files)
  }

  ghost predicate Inv(p: Params, s: set<Bytes>, w: World) {
    && ClockOk(p, w.clock, w.coarse)
    && Grown(p, s, w.snaps, w.coarse, w.tree, w.line)
    && (forall n :: 0 <= n < |w.snaps| ==> SnapOk(p, s, w, n))
    && (forall i :: 0 <= i < |w.taken| ==> IsAnswered(p, w.snaps, w.taken[i]))
  }

  lemma {:induction false} TickKeeps(p: Params, s: set<Bytes>, w: World, clock: int, coarse: i64)
    requires Inv(p, s, w) && w.clock <= clock && w.coarse <= coarse && ClockOk(p, clock, coarse)
    ensures Inv(p, s, w.(clock := clock, coarse := coarse))
  {
    hide Attests, TreeSince, Covers, Coherent;
    var w' := w.(clock := clock, coarse := coarse);
    forall n | 0 <= n < |w.snaps| ensures SnapOk(p, s, w', n) {
      assert SnapOk(p, s, w, n);
    }
  }

  /** Whatever is stamped with the coarse clock stays grown. */
  ghost predicate Restamped(before: Tree, after: Tree, coarse: i64) {
    forall q :: q in after ==> (q in before && after[q] == before[q]) || after[q].ctime == coarse
  }

  lemma {:induction false} RestampSince(p: Params, s: set<Bytes>, w: World, tree: Tree, n: nat)
    requires Inv(p, s, w) && Restamped(w.tree, tree, w.coarse) && n in w.line
    ensures n < |w.snaps| && TreeSince(p, w.snaps[n], tree)
  {
    hide Attests, Covers, Coherent;
    assert SnapOk(p, s, w, n);
    var snap := w.snaps[n];
    forall q | q in tree ensures StampedSince(p, snap, q, tree[q]) {
      if q in w.tree && tree[q] == w.tree[q] { assert StampedSince(p, snap, q, w.tree[q]); }
    }
  }

  lemma {:induction false} RestampKeeps(p: Params, s: set<Bytes>, w: World, tree: Tree)
    requires Inv(p, s, w) && Restamped(w.tree, tree, w.coarse) && Covers(s, tree) && Coherent(tree)
    ensures Inv(p, s, w.(tree := tree))
  {
    hide Attests, Covers, Coherent, TreeSince;
    var w' := w.(tree := tree);
    forall n | n in w.line ensures n < |w.snaps| && TreeSince(p, w.snaps[n], tree) { RestampSince(p, s, w, tree, n); }
    forall n | 0 <= n < |w.snaps| ensures SnapOk(p, s, w', n) { assert SnapOk(p, s, w, n); }
  }

  lemma {:induction false} StampedIs(s: set<Bytes>, tree: Tree, inode: u64, content: Bytes, coarse: i64)
    requires Covers(s, tree) && Coherent(tree) && forall c :: c in C.Chunks(content) ==> c in s
    ensures var t := Stamped(tree, inode, content, coarse);
            t.Keys == tree.Keys && Restamped(tree, t, coarse) && Covers(s, t) && Coherent(t)
    ensures forall q :: q in tree && tree[q].inode == inode ==>
              Stamped(tree, inode, content, coarse)[q] == File(content, coarse, inode)
  {
    hide C.Chunks;
  }

  /** The tree after an action on a file. */
  ghost function TreeAfter(w: World, a: Action): Tree
    requires a.Create? || ((a.Write? || a.Touch? || a.Link? || a.Remove?) && a.path in w.tree)
  {
    match a
    case Create(path, inode, content) => w.tree[path := File(content, w.coarse, inode)]
    case Write(path, content) => Stamped(w.tree, w.tree[path].inode, content, w.coarse)
    case Link(path, to) =>
      Stamped(w.tree, w.tree[path].inode, w.tree[path].content, w.coarse)[to := w.tree[path].(ctime := w.coarse)]
    case Remove(path) => Stamped(w.tree, w.tree[path].inode, w.tree[path].content, w.coarse) - {path}
    case _ => Stamped(w.tree, w.tree[a.path].inode, w.tree[a.path].content, w.coarse)
  }

  lemma {:induction false} CreateStamps(s: set<Bytes>, tree: Tree, path: Bytes, f: File, coarse: i64)
    requires Covers(s, tree) && Coherent(tree) && path !in tree && f.ctime == coarse && !InUse(tree, f.inode)
    requires forall c :: c in C.Chunks(f.content) ==> c in s
    ensures var t := tree[path := f]; Restamped(tree, t, coarse) && Covers(s, t) && Coherent(t)
  {
    hide C.Chunks;
  }

  lemma {:induction false} LinkStamps(s: set<Bytes>, tree: Tree, path: Bytes, to: Bytes, coarse: i64)
    requires Covers(s, tree) && Coherent(tree) && path in tree && tree[path].ctime == coarse
    ensures var t := tree[to := tree[path]]; Restamped(tree, t, coarse) && Covers(s, t) && Coherent(t)
  {
    hide C.Chunks;
  }

  lemma {:induction false} RemoveStamps(s: set<Bytes>, tree: Tree, path: Bytes, coarse: i64)
    requires Covers(s, tree) && Coherent(tree)
    ensures var t := tree - {path}; Restamped(tree, t, coarse) && Covers(s, t) && Coherent(t)
  {
    hide C.Chunks;
  }

  lemma {:induction false} RestampedTwice(a: Tree, b: Tree, c: Tree, coarse: i64)
    requires Restamped(a, b, coarse) && Restamped(b, c, coarse)
    ensures Restamped(a, c, coarse)
  {
  }

  lemma {:induction false} TreeAfterOk(s: set<Bytes>, w: World, a: Action)
    requires Covers(s, w.tree) && Coherent(w.tree) && WritesWithin(s, a)
    requires a.Create? || ((a.Write? || a.Touch? || a.Link? || a.Remove?) && a.path in w.tree)
    requires a.Create? ==> a.path !in w.tree && !InUse(w.tree, a.inode)
    ensures var t := TreeAfter(w, a); Restamped(w.tree, t, w.coarse) && Covers(s, t) && Coherent(t)
  {
    hide C.Chunks, Stamped, Restamped, Covers, Coherent, InUse;
    if a.Create? {
      CreateStamps(s, w.tree, a.path, File(a.content, w.coarse, a.inode), w.coarse);
    } else {
      var f := w.tree[a.path];
      var content := if a.Write? then a.content else f.content;
      var t := Stamped(w.tree, f.inode, content, w.coarse);
      CoversPath(s, w.tree, a.path);
      StampedIs(s, w.tree, f.inode, content, w.coarse);
      if a.Link? {
        LinkStamps(s, t, a.path, a.to, w.coarse);
        RestampedTwice(w.tree, t, t[a.to := t[a.path]], w.coarse);
      } else if a.Remove? {
        RemoveStamps(s, t, a.path, w.coarse);
        RestampedTwice(w.tree, t, t - {a.path}, w.coarse);
      }
    }
  }

  lemma {:induction false} CoversPath(s: set<Bytes>, tree: Tree, path: Bytes)
    requires Covers(s, tree) && path in tree
    ensures forall c :: c in C.Chunks(tree[path].content) ==> c in s
  {
    hide C.Chunks;
  }

  lemma {:induction false} FileAction(p: Params, w: World, a: Action)
    requires a.Create? || a.Write? || a.Touch? || a.Link? || a.Remove?
    requires Apply(p, w, a).Some?
    ensures a.Create? || a.path in w.tree
    ensures a.Create? ==> a.path !in w.tree && !InUse(w.tree, a.inode)
    ensures Apply(p, w, a).value == w.(tree := TreeAfter(w, a))
  {
    hide Stamped, InUse, Taking, Fetching;
  }

  lemma {:induction false} FileActionKeeps(p: Params, s: set<Bytes>, w: World, a: Action)
    requires Inv(p, s, w) && WritesWithin(s, a) && Apply(p, w, a).Some?
    requires a.Create? || a.Write? || a.Touch? || a.Link? || a.Remove?
    ensures Inv(p, s, Apply(p, w, a).value)
  {
    hide Apply, Inv, TreeAfter, WritesWithin, Covers, Coherent, Restamped;
    FileAction(p, w, a);
    InvTree(p, s, w);
    TreeAfterOk(s, w, a);
    RestampKeeps(p, s, w, TreeAfter(w, a));
  }

  // ---------------------------------------------------------- renaming a directory

  lemma {:induction false} NamesBack(q: Bytes, from: Bytes, to: Bytes)
    requires !Under(q, to)
    ensures NameBefore(NameAfter(q, from, to), from, to) == q
  {
    if Under(q, from) {
      var r := to + q[|from|..];
      assert r[..|to|] == to && r[|to|] == q[|from|] && r[|to|..] == q[|from|..];
      assert from + q[|from|..] == q;
    }
  }

  /** Every file keeps a name, and what is under a name came from one name. */
  lemma {:induction false} MovedIs(tree: Tree, from: Bytes, to: Bytes)
    requires CanMove(tree, from, to)
    ensures forall q :: q in tree ==>
              NameAfter(q, from, to) in Moved(tree, from, to)
              && Moved(tree, from, to)[NameAfter(q, from, to)] == tree[q]
    ensures forall q :: q in Moved(tree, from, to) ==>
              NameBefore(q, from, to) in tree && q == NameAfter(NameBefore(q, from, to), from, to)
              && Moved(tree, from, to)[q] == tree[NameBefore(q, from, to)]
  {
    hide NameBefore, NameAfter;
    forall q | q in tree ensures NameBefore(NameAfter(q, from, to), from, to) == q { NamesBack(q, from, to); }
  }

  lemma {:induction false} MovedSince(p: Params, s: set<Bytes>, w: World, from: Bytes, to: Bytes, n: nat)
    requires Inv(p, s, w) && CanMove(w.tree, from, to) && MoveOk(w, from, to) && n in w.line
    ensures n < |w.snaps| && TreeSince(p, w.snaps[n], Moved(w.tree, from, to))
  {
    hide Attests, Covers, Coherent, Moved, CanMove, NameBefore;
    assert SnapOk(p, s, w, n);
    MovedIs(w.tree, from, to);
    var snap, t := w.snaps[n], Moved(w.tree, from, to);
    forall q | q in t ensures StampedSince(p, snap, q, t[q]) {
      var was := NameBefore(q, from, to);
      if Under(was, from) {
        assert ArrivesNew(snap, w.tree[was], NameAfter(was, from, to));
      } else {
        assert StampedSince(p, snap, was, w.tree[was]);
      }
    }
  }

  lemma {:induction false} RenameKeeps(p: Params, s: set<Bytes>, w: World, from: Bytes, to: Bytes)
    requires Inv(p, s, w) && CanMove(w.tree, from, to) && MoveOk(w, from, to)
    ensures Inv(p, s, w.(tree := Moved(w.tree, from, to)))
  {
    hide Attests, C.Chunks, Moved, CanMove, NameBefore, NameAfter, TreeSince, MoveOk;
    var t := Moved(w.tree, from, to);
    var w' := w.(tree := t);
    MovedIs(w.tree, from, to);
    forall n | n in w.line ensures n < |w.snaps| && TreeSince(p, w.snaps[n], t) { MovedSince(p, s, w, from, to, n); }
    forall n | 0 <= n < |w.snaps| ensures SnapOk(p, s, w', n) { assert SnapOk(p, s, w, n); }
  }

  // ------------------------------------------------------------- taking a snapshot

  /** The arithmetic of the shortcut: a stored ctime that still matches was neither
      racy nor overwritten. */
  lemma {:induction false} MatchMeansUnchanged(p: Params, snap: Snap, path: Bytes, now: File)
    requires p.delay <= RACY_WINDOW - p.granularity
    requires snap.start <= snap.capture + p.delay
    requires path in snap.tree && StampedSince(p, snap, path, now)
    requires -0x8000_0000_0000_0000 < snap.tree[path].ctime
    requires RacyAdjusted(snap.tree[path].ctime, snap.start) == now.ctime
    ensures now.content == snap.tree[path].content
  {
  }

  lemma {:induction false} ItemUnchanged(p: Params, s: set<Bytes>, w: World, parent: Option<nat>, start: int, it: Item)
    requires Inv(p, s, w) && p.delay <= RACY_WINDOW - p.granularity && ParentOk(w, parent, start)
    requires Describes(w.tree, it) && Opens(it)
    ensures Unchanged(Config(p.blob, ParentOf(w, parent), start), it)
  {
    hide FileEntries, Resolve, RacyAdjusted, Covers, Coherent, Listed, Strict;
    if it.Found? && it.kind.Regular? {
      var e, prev := BaseEntry(it.path, it.stat, FILE), ParentOf(w, parent);
      var c := Candidate(prev, e);
      if c.Some? {
        var snap := w.snaps[parent.value];
        assert SnapOk(p, s, w, parent.value);
        var i := Lookup(PathOf, snap.files.tsm.entries, e.path).value;
        assert EntryAttests(p.blob, snap.start, snap.files.tsm.entries[i], snap.files.tsc.entries, snap.tree);
        assert StampedSince(p, snap, it.path, w.tree[it.path]);
        MatchMeansUnchanged(p, snap, it.path, w.tree[it.path]);
      }
    }
  }

  lemma {:induction false} TakeAttests(p: Params, s: set<Bytes>, w: World, start: int, parent: Option<nat>,
                                       items: seq<Item>, creation: i64)
    requires Inv(p, s, w) && p.delay <= RACY_WINDOW - p.granularity && CollisionFree(p.blob, s)
    requires WalksTree(w.tree, items) && ParentOk(w, parent, start)
    requires Index(p, w, start, parent, items, creation).Some?
    ensures Attests(p.blob, start, Index(p, w, start, parent, items, creation).value, w.tree)
    ensures Bound(Index(p, w, start, parent, items, creation).value)
  {
    hide Inv, Attests, Bound, Unchanged, Describes, Opens, Writable, CollisionFree, TscFile, TsmFile, TscFormat.Parse,
         TsmFormat.Parse, Walk, Complete, ParentOk, Coherent;
    var cfg := Config(p.blob, ParentOf(w, parent), start);
    forall i | 0 <= i < |items| ensures Unchanged(cfg, items[i]) {
      ItemUnchanged(p, s, w, parent, start, items[i]);
    }
    InvTree(p, s, w);
    assert Truthful(cfg, s, INITIAL, w.tree);
    WalkTrue(cfg, s, INITIAL, w.tree, items);
    var st := Walk(cfg, INITIAL, items).value;
    WalkComplete(cfg, w.tree, items);
    var snap := PublishedAttests(p.sha256, cfg, s, st, w.tree, creation);
  }

  lemma {:induction false} InvTree(p: Params, s: set<Bytes>, w: World)
    requires Inv(p, s, w)
    ensures Covers(s, w.tree) && Coherent(w.tree)
  {
  }

  /** A snapshot of the present tree, or of a tree just extracted. */
  lemma {:induction false} SnapKeeps(p: Params, s: set<Bytes>, w: World, snap: Snap, line: set<nat>,
                                     taken: seq<Capture>)
    requires Inv(p, s, w) && snap.capture == w.clock && snap.coarse == w.coarse && snap.start <= w.clock + p.delay
    requires Grown(p, s, w.snaps, w.coarse, snap.tree, snap.line) && Attests(p.blob, snap.start, snap.files, snap.tree)
    requires Bound(snap.files)
    requires (line == w.line && taken == w.taken)
             || (line == w.line + {|w.snaps|} && taken == w.taken + [Capture(|w.snaps|, w.tree)] && snap.tree == w.tree)
    ensures Inv(p, s, w.(snaps := w.snaps + [snap], line := line, taken := taken))
  {
    hide Attests, Holds, Covers, ClockOk, Coherent, StampedBy, TreeSince, Bound;
    var w' := w.(snaps := w.snaps + [snap], line := line, taken := taken);
    forall n | 0 <= n < |w'.snaps| ensures SnapOk(p, s, w', n) {
      if n < |w.snaps| { assert SnapOk(p, s, w, n); }
    }
    Now(p, snap);
    AttestsHolds(p.blob, snap.start, snap.files, snap.tree);
    forall i | 0 <= i < |taken| ensures IsAnswered(p, w'.snaps, taken[i]) {
      if i < |w.taken| { assert IsAnswered(p, w.snaps, w.taken[i]); }
    }
  }

  /** A tree that a snapshot's manifest holds has grown from it, whenever that was made:
      the two agree wherever both have a file. */
  lemma {:induction false} HeldSince(p: Params, s: set<Bytes>, snap: Snap, tree: Tree)
    requires CollisionFree(p.blob, s) && Covers(s, snap.tree) && Covers(s, tree)
    requires Holds(p.blob, snap.files, snap.tree) && Holds(p.blob, snap.files, tree)
    ensures TreeSince(p, snap, tree)
  {
    hide CollisionFree, Covers, Holds;
    forall q | q in tree ensures StampedSince(p, snap, q, tree[q]) {
      if q in snap.tree { Identity.HoldsOne(p.blob, s, snap.files, snap.tree, tree, q); }
    }
  }

  /** The capture is answered with a snapshot that has the same identity. */
  lemma {:induction false} KnownKeeps(p: Params, s: set<Bytes>, w: World, start: int, files: Parent, n: nat)
    requires Inv(p, s, w) && CollisionFree(p.blob, s) && Attests(p.blob, start, files, w.tree) && Bound(files)
    requires n < |w.snaps| && w.snaps[n].files.tsm.sha == files.tsm.sha
    requires Identity.ToldApart(p.sha256, files, w.snaps[n].files)
    ensures Inv(p, s, w.(line := w.line + {n}, taken := w.taken + [Capture(n, w.tree)]))
  {
    hide CollisionFree, Attests, Holds, Covers, ClockOk, Coherent, StampedBy, TreeSince, Identity.ToldApart, Bound;
    var w' := w.(line := w.line + {n}, taken := w.taken + [Capture(n, w.tree)]);
    var snap := w.snaps[n];
    assert SnapOk(p, s, w, n);
    AttestsHolds(p.blob, start, files, w.tree);
    AttestsHolds(p.blob, snap.start, snap.files, snap.tree);
    Identity.SameIdentity(p.sha256, p.blob, files, snap.files, w.tree);
    HeldSince(p, s, snap, w.tree);
    forall k | 0 <= k < |w.snaps| ensures SnapOk(p, s, w', k) { assert SnapOk(p, s, w, k); }
    forall i | 0 <= i < |w'.taken| ensures IsAnswered(p, w'.snaps, w'.taken[i]) {
      if i < |w.taken| { assert IsAnswered(p, w.snaps, w.taken[i]); }
    }
  }

  lemma {:induction false} Now(p: Params, snap: Snap)
    ensures TreeSince(p, snap, snap.tree)
  {
  }

  lemma {:induction false} CheckoutKeeps(p: Params, s: set<Bytes>, w: World, n: nat)
    requires Inv(p, s, w) && n < |w.snaps|
    ensures Inv(p, s, w.(tree := w.snaps[n].tree, line := w.snaps[n].line + {n}))
  {
    hide Attests, Covers, ClockOk, Coherent, TreeSince;
    var w' := w.(tree := w.snaps[n].tree, line := w.snaps[n].line + {n});
    assert SnapOk(p, s, w, n);
    Now(p, w.snaps[n]);
    forall k | 0 <= k < |w.snaps| ensures SnapOk(p, s, w', k) { assert SnapOk(p, s, w, k); }
  }

  lemma {:induction false} IndexHappens(p: Params, s: set<Bytes>, w: World, cfg: Config, items: seq<Item>,
                                        creation: i64)
    requires cfg.blob == p.blob && WalksTree(w.tree, items) && Covers(s, w.tree)
    requires Capacity.Sails(items) && Capacity.Budget(items) < U32
    requires forall i :: 0 <= i < |items| ==> Unchanged(cfg, items[i]) && Capacity.Fits(items[i])
    ensures Walk(cfg, INITIAL, items).Some? && Writable(Walk(cfg, INITIAL, items).value)
    ensures var st := Walk(cfg, INITIAL, items).value;
            TscFormat.Parse(p.sha256, TscFile(p.sha256, st)).Ok?
            && TsmFormat.Parse(p.sha256, TsmFile(p.sha256, st, creation)).Ok?
  {
    hide Unchanged, Describes, Opens, Writable, TscFile, TsmFile, TscFormat.Parse, TsmFormat.Parse, Walk, Covers,
         Capacity.Budget, Capacity.Fits, Capacity.Sails, PathsOrdered;
    Capacity.WalkRuns(cfg, INITIAL, items);
    Capacity.WalkFits(cfg, s, w.tree, items);
    var tsc, tsm := WriteParse(p.sha256, Walk(cfg, INITIAL, items).value, creation);
  }

  /** A capture of a tree that fits the format always becomes a snapshot: nothing in
      a history is lost to a walk that fails or files that do not parse. */
  lemma {:induction false} TakeHappens(p: Params, s: set<Bytes>, w: World, start: int, parent: Option<nat>,
                                       items: seq<Item>, creation: i64)
    requires Inv(p, s, w) && p.delay <= RACY_WINDOW - p.granularity
    requires w.clock <= start <= w.clock + p.delay && WalksTree(w.tree, items) && ParentOk(w, parent, start)
    requires Capacity.Sails(items) && Capacity.Budget(items) < U32
    requires forall i :: 0 <= i < |items| ==> Capacity.Fits(items[i])
    ensures Taking(p, w, start, parent, items, creation).Some?
  {
    hide Inv, Unchanged, Describes, Opens, Writable, TscFile, TsmFile, TscFormat.Parse, TsmFormat.Parse, Walk, ParentOk,
         Coherent, Capacity.Budget, Capacity.Fits, Capacity.Sails, PathsOrdered, Covers;
    var cfg := Config(p.blob, ParentOf(w, parent), start);
    forall i | 0 <= i < |items| ensures Unchanged(cfg, items[i]) {
      ItemUnchanged(p, s, w, parent, start, items[i]);
    }
    InvTree(p, s, w);
    IndexHappens(p, s, w, cfg, items, creation);
  }

  // ------------------------------------------------------------------- downloading

  /** Patching local ctimes turns a manifest that attests the peer's tree into one
      that attests the tree extracted from it. */
  lemma {:induction false} DownloadAttests(p: Params, w: World, o: Offer, local: Tree, start: int)
    requires HonestOffer(p, o) && Extracted(p, w, start, TsmFormat.Parse(p.sha256, o.tsm).value, o.tree, local)
    ensures Downloaded(p, o, local, start).Some?
    ensures Attests(p.blob, start, Downloaded(p, o, local, start).value, local)
    ensures Bound(Downloaded(p, o, local, start).value)
  {
    hide TsmFormat.Parse, TscFormat.Parse, TsmFormat.Patch, RacyAdjusted, EntryAttests, Listed, Strict, Coherent,
         TsmFormat.PatchedEntries;
    var m, c := TsmFormat.Parse(p.sha256, o.tsm).value, TscFormat.Parse(p.sha256, o.tsc).value;
    var ctimes := LocalCtimes(local, start);
    TsmFormat.PatchKeepsIdentity(p.sha256, o.tsm, ctimes);
    var files := Downloaded(p, o, local, start).value;
    var es := TsmFormat.PatchedEntries(m.entries, ctimes);
    assert files == Parent(m.(entries := es), c);
    forall i | 0 <= i < |es| ensures EntryAttests(p.blob, start, es[i], c.entries, local) {
      PatchedAttests(p, w, o, local, start, m, c, i);
    }
    SamePaths(m.entries, es);
    forall q | q in local ensures Listed(files.tsm, local, q) {
      var i :| 0 <= i < |m.entries| && m.entries[i].typ == FILE && m.entries[i].path == q;
      assert es[i].path == q && es[i].typ == FILE;
      FileIsListed(files.tsm, local, i);
    }
  }

  lemma {:induction false} FileIsListed(tsm: TsmFormat.Reader, tree: Tree, i: nat)
    requires Strict(PathOf, tsm.entries) && i < |tsm.entries|
    requires tsm.entries[i].typ == FILE && tsm.entries[i].path in tree
    ensures Listed(tsm, tree, tsm.entries[i].path)
  {
    hide Lookup, Strict;
    LookupStrict(PathOf, tsm.entries, i);
  }

  lemma {:induction false} PatchedAttests(p: Params, w: World, o: Offer, local: Tree, start: int, m: TsmFormat.Reader,
                                          c: TscFormat.Reader, i: nat)
    requires Attests(p.blob, o.start, Parent(m, c), o.tree) && Extracted(p, w, start, m, o.tree, local)
    requires i < |m.entries|
    ensures var es := TsmFormat.PatchedEntries(m.entries, LocalCtimes(local, start));
            EntryAttests(p.blob, start, es[i], c.entries, local)
  {
    hide RacyAdjusted, Resolve, FileEntries, Listed, Strict, Coherent;
    var e := m.entries[i];
    assert EntryAttests(p.blob, o.start, e, c.entries, o.tree);
    if e.typ == FILE { assert IsListedFile(m, e.path); }
  }

  lemma {:induction false} ExtractedGrown(p: Params, s: set<Bytes>, w: World, start: int, m: TsmFormat.Reader,
                                          offered: Tree, local: Tree)
    requires Extracted(p, w, start, m, offered, local) && Covers(s, offered)
    ensures Grown(p, s, w.snaps, w.coarse, local, {})
  {
    hide C.Chunks, IsListedFile;
  }

  lemma {:induction false} TakeKeeps(p: Params, s: set<Bytes>, w: World, start: int, parent: Option<nat>,
                                     items: seq<Item>, creation: i64)
    requires Inv(p, s, w) && p.delay <= RACY_WINDOW - p.granularity && CollisionFree(p.blob, s)
    requires TellsApart(p, w, Take(start, parent, items, creation))
    requires Taking(p, w, start, parent, items, creation).Some?
    ensures Inv(p, s, Taking(p, w, start, parent, items, creation).value)
  {
    hide Inv, Attests, Bound, CollisionFree, WalksTree, Index, Grown, ParentOk, Identity.ToldApart;
    TakeAttests(p, s, w, start, parent, items, creation);
    var files := Index(p, w, start, parent, items, creation).value;
    var known := WithId(w.snaps, files.tsm.sha);
    if known.Some? {
      KnownKeeps(p, s, w, start, files, known.value);
    } else {
      InvGrown(p, s, w);
      SnapKeeps(p, s, w, Snap(w.clock, w.coarse, start, w.tree, files, w.line), w.line + {|w.snaps|},
                w.taken + [Capture(|w.snaps|, w.tree)]);
    }
  }

  lemma {:induction false} FetchKeeps(p: Params, s: set<Bytes>, w: World, start: int, o: Offer, local: Tree)
    requires Inv(p, s, w) && Covers(s, o.tree) && Fetching(p, w, start, o, local).Some?
    ensures Inv(p, s, Fetching(p, w, start, o, local).value)
  {
    hide Inv, Attests, Bound, Grown, Extracted, Downloaded, TsmFormat.Parse, TscFormat.Parse, Covers, WithId;
    DownloadAttests(p, w, o, local, start);
    ExtractedGrown(p, s, w, start, TsmFormat.Parse(p.sha256, o.tsm).value, o.tree, local);
    var files := Downloaded(p, o, local, start).value;
    SnapKeeps(p, s, w, Snap(w.clock, w.coarse, start, local, files, {}), w.line, w.taken);
  }

  lemma {:induction false} ApplyKeeps(p: Params, s: set<Bytes>, w: World, a: Action)
    requires Inv(p, s, w) && p.delay <= RACY_WINDOW - p.granularity && CollisionFree(p.blob, s)
    requires WritesWithin(s, a) && TellsApart(p, w, a)
    ensures Apply(p, w, a).Some? ==> Inv(p, s, Apply(p, w, a).value)
  {
    hide Inv, Attests, CollisionFree, ClockOk, WalksTree, Index, Covers, Coherent, Grown, Stamped, InUse, Extracted,
         Downloaded, ParentOk, TsmFormat.Parse, TscFormat.Parse, Taking, Fetching, Moved, CanMove, MoveOk, TellsApart;
    if Apply(p, w, a).Some? {
      match a
      case Tick(clock, coarse) => TickKeeps(p, s, w, clock, coarse);
      case Rename(from, to) => RenameKeeps(p, s, w, from, to);
      case Take(start, parent, items, creation) => TakeKeeps(p, s, w, start, parent, items, creation);
      case Fetch(start, o, local) => FetchKeeps(p, s, w, start, o, local);
      case Checkout(n) => CheckoutKeeps(p, s, w, n);
      case _ => FileActionKeeps(p, s, w, a);
    }
  }

  lemma {:induction false} InvGrown(p: Params, s: set<Bytes>, w: World)
    requires Inv(p, s, w)
    ensures Grown(p, s, w.snaps, w.coarse, w.tree, w.line)
  {
  }

  lemma {:induction false} PlayKeeps(p: Params, s: set<Bytes>, w: World, acts: seq<Action>)
    requires Inv(p, s, w) && p.delay <= RACY_WINDOW - p.granularity && CollisionFree(p.blob, s)
    requires Within(s, acts) && NoClash(p, w, acts)
    ensures Play(p, w, acts).Some? ==> Inv(p, s, Play(p, w, acts).value)
    decreases |acts|
  {
    hide Inv, CollisionFree, Apply, WritesWithin, TellsApart;
    if acts != [] {
      assert WritesWithin(s, acts[0]);
      ApplyKeeps(p, s, w, acts[0]);
      var next := Apply(p, w, acts[0]);
      if next.Some? {
        assert forall i :: 0 <= i < |acts| - 1 ==> acts[1..][i] == acts[i + 1];
        PlayKeeps(p, s, next.value, acts[1..]);
      }
    }
  }

  /** The shortcut is sound: however files are made, written, touched, linked and
      removed, directories renamed, snapshots taken, downloaded and checked out, every
      snapshot attests its tree and every capture is answered with one that holds what
      was captured, even where no byte was read and where an older one was kept. */
  lemma {:induction false} ShortcutSound(p: Params, s: set<Bytes>, w: World, acts: seq<Action>)
    requires Begins(p, w) && p.delay <= RACY_WINDOW - p.granularity
    requires CollisionFree(p.blob, s) && Within(s, acts) && NoClash(p, w, acts)
    ensures Play(p, w, acts).Some? ==> AllAttest(p, Play(p, w, acts).value)
  {
    hide CollisionFree, Within, Attests, Holds, Play, NoClash;
    PlayKeeps(p, s, w, acts);
    if Play(p, w, acts).Some? {
      var w' := Play(p, w, acts).value;
      forall n | 0 <= n < |w'.snaps| ensures Attests(p.blob, w'.snaps[n].start, w'.snaps[n].files, w'.snaps[n].tree) {
        assert SnapOk(p, s, w', n);
      }
    }
  }

  // ------------------------------------------------------------- one of each identity

  ghost predicate Unique(snaps: seq<Snap>) {
    forall i, j :: 0 <= i < j < |snaps| ==> snaps[i].files.tsm.sha != snaps[j].files.tsm.sha
  }

  lemma {:induction false} DownloadedId(p: Params, o: Offer, local: Tree, start: int)
    requires HonestOffer(p, o) && Downloaded(p, o, local, start).Some?
    ensures Downloaded(p, o, local, start).value.tsm.sha == Offered(p, o).tsm.sha
  {
    hide TsmFormat.Parse, TscFormat.Parse, TsmFormat.Patch, Attests;
    TsmFormat.PatchKeepsIdentity(p.sha256, o.tsm, LocalCtimes(local, start));
  }

  lemma {:induction false} StepUnique(p: Params, w: World, a: Action)
    requires Unique(w.snaps) && Apply(p, w, a).Some?
    ensures Unique(Apply(p, w, a).value.snaps)
  {
    hide Index, WalksTree, ParentOk, HonestOffer, Extracted, Downloaded, Stamped, Moved, MoveOk, CanMove, InUse;
    if a.Fetch? { DownloadedId(p, a.offer, a.local, a.start); }
  }

  /** No run ever keeps two snapshots with one identity. */
  lemma {:induction false} PlayUnique(p: Params, w: World, acts: seq<Action>)
    requires Unique(w.snaps) && Play(p, w, acts).Some?
    ensures Unique(Play(p, w, acts).value.snaps)
    decreases |acts|
  {
    hide Apply, Unique;
    if acts != [] {
      StepUnique(p, w, acts[0]);
      PlayUnique(p, Apply(p, w, acts[0]).value, acts[1..]);
    }
  }
}
