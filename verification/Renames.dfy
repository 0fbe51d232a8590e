/** A renamed directory takes old ctimes to new names, and the change check looks at
    nothing but names, sizes and ctimes (tsm/indexer.go:409-432). */
module Renames {
  import opened Bytes
  import opened Sorting
  import opened TsmEntry
  import opened Indexer
  import opened Snapshot
  import opened Meaning
  import opened History
  import opened HistoryTight
  import opened Incremental
  import C = Chunking
  import Capacity
  import TscFormat
  import TsmFormat

  // Two directories with one file each.
  const ONE: Bytes := [97]
  const TWO: Bytes := [98]
  const IN_ONE: Bytes := [97, SLASH, 102]
  const IN_TWO: Bytes := [98, SLASH, 102]

  function ItemAt(q: Bytes, content: Bytes, inode: u64): Item {
    Found(q, Stat(0, 0, 0, 1, 0, 1, 0), Regular(1, inode, Readable(content, [])))
  }

  function Both(): Tree { map[IN_ONE := File(OLD, 1, 0), IN_TWO := File(NEW, 1, 1)] }

  function BothItems(): seq<Item> { [ItemAt(IN_ONE, OLD, 0), ItemAt(IN_TWO, NEW, 1)] }

  function Rest(): Tree { map[IN_TWO := File(NEW, 1, 1)] }

  function Arrived(): Tree { map[IN_ONE := File(NEW, 1, 1)] }

  function ArrivedItems(): seq<Item> { [ItemAt(IN_ONE, NEW, 1)] }

  /** Both files are written, and captured once the clock has moved on; then the first
      directory is emptied. */
  function Story(): seq<Action> {
    [Create(IN_ONE, 0, OLD), Create(IN_TWO, 1, NEW), Tick(FIRST, FIRST), Take(FIRST, None, BothItems(), 0),
     Remove(IN_ONE)]
  }

  lemma {:induction false} WalksBoth()
    ensures WalksTree(Both(), BothItems()) && Coherent(Both())
  {
    hide Less;
    OneBeforeTwo();
    assert Describes(Both(), BothItems()[0]) && Describes(Both(), BothItems()[1]);
    assert IsFileAt(BothItems()[0], IN_ONE) && IsFileAt(BothItems()[1], IN_TWO);
  }

  lemma {:induction false} OneBeforeTwo()
    ensures Less(IN_ONE, IN_TWO) && IN_ONE != IN_TWO
  {
    assert IN_ONE[0] < IN_TWO[0];
  }

  lemma {:induction false} WalksArrived()
    ensures WalksTree(Arrived(), ArrivedItems()) && Coherent(Arrived())
  {
    assert IsFileAt(ArrivedItems()[0], IN_ONE);
  }

  lemma {:induction false} Small(s: set<Bytes>)
    requires s == {OLD, NEW}
    ensures Covers(s, Both()) && Covers(s, Arrived())
    ensures Capacity.Sails(BothItems()) && Capacity.Budget(BothItems()) < U32
    ensures forall i :: 0 <= i < |BothItems()| ==> Capacity.Fits(BothItems()[i])
    ensures Capacity.Sails(ArrivedItems()) && forall i :: 0 <= i < |ArrivedItems()| ==> Capacity.Fits(ArrivedItems()[i])
  {
    hide C.Chunks;
    OneByte(0);
    OneByte(1);
    assert Capacity.Budget([]) == 0 && BothItems()[1..] == [BothItems()[1]] && BothItems()[1..][1..] == [];
    assert Capacity.Budget(BothItems()[1..]) == 1;
  }

  /** The directory that arrives now has the name of the one that was captured. */
  lemma {:induction false} Arrives()
    ensures CanMove(Rest(), TWO, ONE) && Moved(Rest(), TWO, ONE) == Arrived()
    ensures Under(IN_TWO, TWO) && NameAfter(IN_TWO, TWO, ONE) == IN_ONE
  {
    assert IN_TWO[..1] == TWO && IN_ONE[..1] == ONE;
    assert ONE + IN_TWO[1..] == IN_ONE && TWO + IN_ONE[1..] == IN_TWO;
    assert NameAfter(IN_TWO, TWO, ONE) == IN_ONE && NameBefore(IN_ONE, TWO, ONE) == IN_TWO;
    assert forall q :: Under(q, ONE) ==> q[0] == 97;
  }

  /** The parent's entry for the first file passes the change check of the second. */
  lemma {:induction false} PassesCheck(blob: Digest, files: Parent)
    requires Attests(blob, FIRST, files, Both())
    ensures Mistaken(files, Both(), IN_ONE, Arrived()[IN_ONE])
  {
    hide Resolve, FileEntries, Lookup, Strict;
    assert Listed(files.tsm, Both(), IN_ONE);
    var es := files.tsm.entries;
    var i := Lookup(PathOf, es, IN_ONE).value;
    if es[i].typ == HARDLINK {
      assert es[es[i].linkIndex].path == IN_ONE;
      LookupStrict(PathOf, es, es[i].linkIndex);
    }
    assert EntryAttests(blob, FIRST, es[i], files.tsc.entries, Both());
  }

  function Waiting(): World { World(FIRST, FIRST, Both(), [], {}, []) }

  function Captured(files: Parent): World {
    World(FIRST, FIRST, Both(), [Snap(FIRST, FIRST, FIRST, Both(), files, {})], {0}, [Capture(0, Both())])
  }

  lemma {:induction false} WaitingOk(p: Params, s: set<Bytes>)
    requires p.granularity >= 1 && s == {OLD, NEW}
    ensures Inv(p, s, Waiting())
  {
    hide Covers, Coherent, StampedBy, TreeSince, SnapOk, Both, BothItems, WalksTree;
    Small(s);
    WalksBoth();
    Stamps();
  }

  lemma {:induction false} Stamps()
    ensures StampedBy(Both(), FIRST)
  {
  }

  lemma {:induction false} Plays(p: Params, files: Parent)
    requires p.granularity >= 1 && Index(p, Waiting(), FIRST, None, BothItems(), 0) == Some(files)
    ensures Begins(p, Beginning(p)) && Play(p, Beginning(p), Story()) == Some(Captured(files).(tree := Rest()))
  {
    hide Index, WalksTree, Play, Apply;
    var w0 := Beginning(p);
    var w1 := w0.(tree := map[IN_ONE := File(OLD, 1, 0)]);
    var w2 := w0.(tree := Both());
    var w3, w4 := Waiting(), Captured(files);
    var w5 := w4.(tree := Rest());
    WalksBoth();
    Creates(p, w0, w1, w2);
    Ticked(p, w2, FIRST);
    Taken(p, w3, FIRST, None, BothItems(), files);
    assert Answer(w3, FIRST, files) == w4;
    Removes(p, w4);
    PlayCons(p, w4, Story(), 4, w5);
    PlayCons(p, w3, Story(), 3, w4);
    PlayCons(p, w2, Story(), 2, w3);
    PlayCons(p, w1, Story(), 1, w2);
    PlayCons(p, w0, Story(), 0, w1);
    assert Story()[0..] == Story() && Story()[5..] == [];
    PlayNone(p, w5);
  }

  lemma {:induction false} Creates(p: Params, w0: World, w1: World, w2: World)
    requires w0.tree == map[] && w0.coarse == 1
    requires w1 == w0.(tree := map[IN_ONE := File(OLD, 1, 0)]) && w2 == w0.(tree := Both())
    ensures Apply(p, w0, Story()[0]) == Some(w1) && Apply(p, w1, Story()[1]) == Some(w2)
  {
    hide Taking, Fetching;
    assert IN_ONE[0] != IN_TWO[0];
  }

  lemma {:induction false} Removes(p: Params, w: World)
    requires w.tree == Both()
    ensures Apply(p, w, Remove(IN_ONE)) == Some(w.(tree := Rest()))
  {
    hide Taking, Fetching;
    assert IN_ONE[0] != IN_TWO[0];
    assert Stamped(Both(), 0, OLD, w.coarse) - {IN_ONE} == Rest();
  }

  lemma {:induction false} Violates(files: Parent)
    ensures !MoveOk(Captured(files).(tree := Rest()), TWO, ONE)
  {
    hide NameAfter;
    Arrives();
    var w := Captured(files).(tree := Rest());
    assert !ArrivesNew(w.snaps[0], w.tree[IN_TWO], IN_ONE);
  }

  /** The world once the second directory has the name of the first. */
  function After(files: Parent): World { Captured(files).(clock := SECOND, coarse := SECOND, tree := Arrived()) }

  /** Without MoveOk the shortcut fails, however short the delay: indexed against its own
      last snapshot, the moved file is given the bytes of the file it replaced. */
  lemma {:induction false} OldName(p: Params) returns (w: World, files: Parent)
    requires p.granularity >= 1 && p.delay <= RACY_WINDOW - p.granularity && p.blob(OLD) != p.blob(NEW)
    ensures Begins(p, Beginning(p)) && Play(p, Beginning(p), Story()) == Some(w)
    ensures CanMove(w.tree, TWO, ONE) && !MoveOk(w, TWO, ONE)
    ensures var moved := w.(clock := SECOND, coarse := SECOND, tree := Moved(w.tree, TWO, ONE));
            && WalksTree(moved.tree, ArrivedItems()) && ParentOk(moved, Some(0), SECOND)
            && Index(p, moved, SECOND, Some(0), ArrivedItems(), 0) == Some(files)
            && !Attests(p.blob, SECOND, files, moved.tree)
  {
    hide Attests, Play, Inv, Walk, TscFormat.Parse, TsmFormat.Parse, TscFile, TsmFile, Writable, WalksTree, Covers,
         Coherent, Capacity.Sails, Capacity.Budget, Capacity.Fits, Both, BothItems, Arrived, ArrivedItems, Moved, Story,
         CanMove, Index, NameAfter;
    var s := {OLD, NEW};
    WaitingOk(p, s);
    WalksBoth();
    WalksArrived();
    Small(s);
    Arrives();
    TakeHappens(p, s, Waiting(), FIRST, None, BothItems(), 0);
    TakeAttests(p, s, Waiting(), FIRST, None, BothItems(), 0);
    var a := Index(p, Waiting(), FIRST, None, BothItems(), 0).value;
    Plays(p, a);
    w := Captured(a).(tree := Rest());
    Violates(a);
    files := Confuses(p, s, a);
    IndexIs(p, a, files);
  }

  lemma {:induction false} RunsOn(cfg: Config, s: set<Bytes>, a: Parent)
    requires s == {OLD, NEW} && cfg.parent == Some(a) && Attests(cfg.blob, FIRST, a, Both())
    ensures Walk(cfg, INITIAL, ArrivedItems()).Some? && Writable(Walk(cfg, INITIAL, ArrivedItems()).value)
  {
    hide Attests, Walk, Writable, WalksTree, Covers, Coherent, Capacity.Sails, Capacity.Budget, Capacity.Fits, Believed,
         BelievedItems, Both, Arrived, ArrivedItems;
    WalksArrived();
    Small(s);
    BelievedBudget(cfg.blob, s, a);
    IncrementalFits(cfg, FIRST, s, Both(), Arrived(), ArrivedItems());
  }

  lemma {:induction false} NoCollision(blob: Digest)
    requires blob(OLD) != blob(NEW)
    ensures CollisionFree(blob, {OLD, NEW})
  {
  }

  lemma {:induction false} Confuses(p: Params, s: set<Bytes>, a: Parent) returns (files: Parent)
    requires s == {OLD, NEW} && p.blob(OLD) != p.blob(NEW) && Attests(p.blob, FIRST, a, Both())
    ensures Wrote(p, a, files) && !Attests(p.blob, SECOND, files, Arrived())
  {
    hide Attests, Walk, TscFormat.Parse, TsmFormat.Parse, TscFile, TsmFile, Writable, WalksTree, Covers, Coherent,
         Capacity.Sails, Capacity.Budget, Capacity.Fits, Mistaken, Believed, MetFirst, BelievedItems, Both, Arrived,
         ArrivedItems, CollisionFree;
    var cfg := Config(p.blob, Some(a), SECOND);
    NoCollision(p.blob);
    WalksArrived();
    Small(s);
    RunsOn(cfg, s, a);
    var tsc, tsm := WriteParse(p.sha256, Walk(cfg, INITIAL, ArrivedItems()).value, 0);
    files := Parent(tsm, tsc);
    PassesCheck(p.blob, a);
    Meets();
    IncrementalExact(p.sha256, cfg, s, FIRST, Both(), Arrived(), ArrivedItems(), 0, files);
  }

  /** The run against a is written out as these files. */
  ghost predicate Wrote(p: Params, a: Parent, files: Parent) {
    var r := Walk(Config(p.blob, Some(a), SECOND), INITIAL, ArrivedItems());
    && r.Some? && Writable(r.value)
    && TscFormat.Parse(p.sha256, TscFile(p.sha256, r.value)) == Ok(files.tsc)
    && TsmFormat.Parse(p.sha256, TsmFile(p.sha256, r.value, 0)) == Ok(files.tsm)
  }

  lemma {:induction false} IndexIs(p: Params, a: Parent, files: Parent)
    requires Wrote(p, a, files)
    ensures Index(p, After(a), SECOND, Some(0), ArrivedItems(), 0) == Some(files)
  {
    hide Walk, TscFormat.Parse, TsmFormat.Parse, TscFile, TsmFile, Writable, Both, Arrived, ArrivedItems;
    assert ParentOf(After(a), Some(0)) == Some(a);
  }

  lemma {:induction false} Meets()
    ensures IN_ONE in Arrived() && MetFirst({}, ArrivedItems(), IN_ONE)
  {
    assert MetAt({}, ArrivedItems(), 0, IN_ONE);
  }

  lemma {:induction false} BelievedBudget(blob: Digest, s: set<Bytes>, a: Parent)
    requires Attests(blob, FIRST, a, Both())
    ensures Capacity.Budget(BelievedItems(Believed(a, Both(), Arrived()), ArrivedItems())) < U32
  {
    hide C.Chunks, Attests, Trusts;
    var items := BelievedItems(Believed(a, Both(), Arrived()), ArrivedItems());
    OneByte(0);
    OneByte(1);
    assert Capacity.Budget([]) == 0 && items[1..] == [];
  }
}
