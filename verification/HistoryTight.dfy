/** The bound on the indexing delay cannot be relaxed: past it there is a history
    in which a snapshot describes bytes its tree no longer held. */
module HistoryTight {
  import opened Bytes
  import opened Sorting
  import opened TsmEntry
  import opened Indexer
  import opened Snapshot
  import opened Meaning
  import opened History
  import C = Chunking
  import Identity
  import Tsc
  import TscFormat
  import TsmFormat
  import TsmWriter

  const PATH: Bytes := [97]
  const OLD: Bytes := [0]
  const NEW: Bytes := [1]

  lemma {:induction false} OneByte(b: byte)
    ensures C.Chunks([b]) == [[b]]
  {
    assert C.Cut([b]) == 1;
    assert [b][..1] == [b] && [b][1..] == [];
  }

  lemma {:induction false} OneEntry(blob: Digest, b: byte)
    ensures |FileEntries(blob, [b])| == 1 && FileEntries(blob, [b])[0].sha == blob([b])
  {
    OneByte(b);
  }

  function FileItem(content: Bytes): Item {
    Found(PATH, Stat(0, 0, 0, 1, 0, 1, 0), Regular(1, 0, Readable(content, [])))
  }

  function Only(content: Bytes): Tree { map[PATH := File(content, 1, 0)] }

  /** The state after indexing the one file with the chunks of one byte. */
  function Indexed(blob: Digest, b: byte, start: int): State {
    WithChunks(INITIAL, BaseEntry(PATH, Stat(0, 0, 0, 1, 0, 1, 0), FILE), FileEntries(blob, [b]), map[], start)
  }

  lemma {:induction false} IndexedIs(blob: Digest, b: byte, start: int)
    ensures var st := Indexed(blob, b, start);
            && |st.chunks| == 1 && |st.entries| == 1
            && var e := st.entries[0];
            && var base := BaseEntry(PATH, Stat(0, 0, 0, 1, 0, 1, 0), FILE);
            e == base.(chunkRefs := [0], chunkCount := 1, ctime := e.ctime)
  {
    hide FileEntries, RacyAdjusted;
    OneEntry(blob, b);
    var es := FileEntries(blob, [b]);
    AddedOne(es);
  }

  lemma {:induction false} AddedOne(es: seq<Tsc.Entry>)
    requires |es| == 1
    ensures Tsc.AddedAll([], es) == es && RefsIn(es, es) == [0]
  {
    assert es == [es[0]] && es[1..] == [];
    assert Tsc.Added([], es[0]) == [] + [es[0]] == es;
    assert Tsc.AddedAll(es, []) == es;
    assert Tsc.Find(es, es[0].sha) == 0;
  }

  lemma {:induction false} IndexedWritable(blob: Digest, b: byte, start: int)
    ensures Writable(Indexed(blob, b, start))
  {
    hide Indexed, IndexMap;
    IndexedIs(blob, b, start);
    var st := Indexed(blob, b, start);
    var e := st.entries[0];
    assert st.entries == [e];
    assert SortedEntries(st) == [e] by { assert SortBy(PathOf, []) == []; assert [e][1..] == []; }
    assert RefTable(st) == TsmWriter.TableOf(e, IndexMap(st.chunks)) + TsmWriter.Table([], IndexMap(st.chunks));
    assert WritableEntry(st, e);
  }

  lemma {:induction false} FirstWalk(p: Params, b: byte, start: int)
    ensures Walk(Config(p.blob, None, start), INITIAL, [FileItem([b])]) == Some(Indexed(p.blob, b, start))
  {
    hide FileEntries, WithChunks;
    var cfg := Config(p.blob, None, start);
    assert Tsc.AddedAll([], []) == [];
    assert Step(cfg, INITIAL, FileItem([b])) == Some(Indexed(p.blob, b, start));
    assert [FileItem([b])][1..] == [];
  }

  /** A run against a snapshot of b finds it unchanged to all appearance, whatever the
      file holds. */
  lemma {:induction false} SecondWalk(p: Params, b: byte, now: Bytes, start: int, files: Parent, r: Entry)
    requires start - 1 >= RACY_WINDOW && |now| == 1
    requires LookupPath(files.tsm, PATH) == Some(r) && r.typ == FILE
    requires EntryAttests(p.blob, start, r, files.tsc.entries, Only([b])) && r.path == PATH
    ensures Walk(Config(p.blob, Some(files), start), INITIAL, [FileItem(now)]) == Some(Indexed(p.blob, b, start))
  {
    hide FileEntries, WithChunks, Resolve, Lookup;
    var cfg := Config(p.blob, Some(files), start);
    var e := BaseEntry(PATH, Stat(0, 0, 0, 1, 0, 1, 0), FILE);
    assert Candidate(cfg.parent, e) == Some(r);
    assert Reuse(cfg.parent, e) == (FileEntries(p.blob, [b]), true);
    assert Step(cfg, INITIAL, FileItem(now)) == Some(Indexed(p.blob, b, start));
    assert [FileItem(now)][1..] == [];
  }

  lemma {:induction false} Whole(content: Bytes)
    requires |content| == 1
    ensures WalksTree(Only(content), [FileItem(content)]) && Coherent(Only(content))
  {
    assert IsFileAt([FileItem(content)][0], PATH);
  }

  lemma {:induction false} FirstSnap(p: Params, b: byte, s: set<Bytes>, start: int) returns (files: Parent, r: Entry)
    requires [b] in s && CollisionFree(p.blob, s)
    ensures TscFormat.Parse(p.sha256, TscFile(p.sha256, Indexed(p.blob, b, start))) == Ok(files.tsc)
    ensures TsmFormat.Parse(p.sha256, TsmFile(p.sha256, Indexed(p.blob, b, start), 0)) == Ok(files.tsm)
    ensures LookupPath(files.tsm, PATH) == Some(r) && r.typ == FILE && r.path == PATH
    ensures EntryAttests(p.blob, start, r, files.tsc.entries, Only([b])) && r in files.tsm.entries
    ensures files.tsm.sha == SnapId(p.sha256, Indexed(p.blob, b, start), 0)
  {
    hide TscFormat.Parse, TsmFormat.Parse, TscFile, TsmFile, Indexed, Writable, CollisionFree, FileEntries,
         EntryAttests, WalksTree, Complete, Coherent, Listed, Strict, Truthful, Covers;
    var cfg, st := Config(p.blob, None, start), Indexed(p.blob, b, start);
    Whole([b]);
    StartsTrue(cfg, s, b);
    WalkTrue(cfg, s, INITIAL, Only([b]), [FileItem([b])]);
    FirstWalk(p, b, start);
    WalkComplete(cfg, Only([b]), [FileItem([b])]);
    IndexedWritable(p.blob, b, start);
    files := PublishedAttests(p.sha256, cfg, s, st, Only([b]), 0);
    IndexedIs(p.blob, b, start);
    SingleSorted(st);
    assert FoundAt(files.tsm, SortedEntries(st)[0], 0);
    r := files.tsm.entries[0];
    assert EntryAttests(p.blob, start, files.tsm.entries[0], files.tsc.entries, Only([b]));
  }

  lemma {:induction false} StartsTrue(cfg: Config, s: set<Bytes>, b: byte)
    requires [b] in s && cfg.parent == None
    ensures Covers(s, Only([b])) && Truthful(cfg, s, INITIAL, Only([b]))
    ensures Unchanged(cfg, FileItem([b])) && Describes(Only([b]), FileItem([b]))
  {
    hide C.Chunks;
    OneByte(b);
  }

  lemma {:induction false} SingleSorted(st: State)
    requires |st.entries| == 1
    ensures SortedEntries(st) == st.entries
  {
    assert st.entries == [st.entries[0]] && st.entries[1..] == [];
  }

  /** The first index starts when the old ctime has just left the racy window, the
      second right after. */
  const FIRST: i64 := RACY_WINDOW + 1
  const SECOND: i64 := RACY_WINDOW + 2

  /** The history: write, capture, overwrite within the same coarse tick, and later
      index against the first snapshot. */
  function Acts(): seq<Action> {
    [Create(PATH, 0, OLD), Take(FIRST, None, [FileItem(OLD)], 0), Write(PATH, NEW), Tick(SECOND, SECOND),
     Take(SECOND, Some(0), [FileItem(NEW)], 0)]
  }

  function Beginning(p: Params): World { World(Min(p.granularity, FIRST), 1, map[], [], {}, []) }

  lemma {:induction false} SameIndexed(blob: Digest, b: byte)
    ensures Indexed(blob, b, SECOND) == Indexed(blob, b, FIRST)
  {
    hide FileEntries;
  }

  lemma {:induction false} Overrun(p: Params)
    requires p.granularity >= 1 && p.delay > RACY_WINDOW - p.granularity && p.blob(OLD) != p.blob(NEW)
    ensures var w := Beginning(p);
            && Begins(p, w) && Within({OLD, NEW}, Acts()) && NoClash(p, w, Acts())
            && Play(p, w, Acts()).Some? && !AllAttest(p, Play(p, w, Acts()).value)
  {
    hide Attests, TscFormat.Parse, TsmFormat.Parse, TscFile, TsmFile, Indexed, FileEntries, EntryAttests, Play, Apply,
         Indexes, Acts, NoClash, Identity.ToldApart, Holds;
    WritesOldAndNew();
    var files, r := FirstSnap(p, 0, {OLD, NEW}, FIRST);
    IndexesBoth(p, files, r);
    LongEnough(p.sha256, TsmFile(p.sha256, Indexed(p.blob, 0, FIRST), 0));
    SelfTold(p.sha256, TsmFile(p.sha256, Indexed(p.blob, 0, FIRST), 0), files);
    var w := Steps(p, files);
    NotOther(p, FIRST, files, r, 0, 1);
    assert !IsAnswered(p, w.snaps, w.taken[1]);
  }

  lemma {:induction false} LongEnough(sha256: Digest, data: Bytes)
    requires TsmFormat.Parse(sha256, data).Ok?
    ensures |data| >= TsmFormat.HEADER_SIZE
  {
  }

  lemma {:induction false} SelfTold(sha256: Digest, data: Bytes, files: Parent)
    requires TsmFormat.Parse(sha256, data) == Ok(files.tsm) && |data| >= TsmFormat.HEADER_SIZE
    ensures Identity.ToldApart(sha256, files, files)
  {
    hide TsmFormat.Parse, TsmFormat.HashInput;
    Identity.Told(sha256, data, data, files, files);
  }

  lemma {:induction false} WritesOldAndNew()
    ensures Within({OLD, NEW}, Acts())
  {
    hide C.Chunks;
    OneByte(0);
    OneByte(1);
    var acts := Acts();
    forall i | 0 <= i < |acts| ensures WritesWithin({OLD, NEW}, acts[i]) {
    }
  }

  lemma {:induction false} IndexesBoth(p: Params, files: Parent, r: Entry)
    requires TscFormat.Parse(p.sha256, TscFile(p.sha256, Indexed(p.blob, 0, FIRST))) == Ok(files.tsc)
    requires TsmFormat.Parse(p.sha256, TsmFile(p.sha256, Indexed(p.blob, 0, FIRST), 0)) == Ok(files.tsm)
    requires LookupPath(files.tsm, PATH) == Some(r) && r.typ == FILE && r.path == PATH
    requires EntryAttests(p.blob, FIRST, r, files.tsc.entries, Only(OLD))
    ensures Indexes(p, files)
  {
    hide Walk, TscFormat.Parse, TsmFormat.Parse, TscFile, TsmFile, Indexed, Writable, FileEntries, EntryAttests;
    IndexedWritable(p.blob, 0, FIRST);
    FirstWalk(p, 0, FIRST);
    StillAttests(p, files, r, 0);
    SecondWalk(p, 0, NEW, SECOND, files, r);
    SameIndexed(p.blob, 0);
  }

  /** An entry attests the same bytes at either time. */
  lemma {:induction false} StillAttests(p: Params, files: Parent, r: Entry, b: byte)
    requires EntryAttests(p.blob, FIRST, r, files.tsc.entries, Only([b]))
    ensures EntryAttests(p.blob, SECOND, r, files.tsc.entries, Only([b]))
  {
    hide FileEntries, Resolve;
  }

  lemma {:induction false} NotOther(p: Params, start: int, files: Parent, r: Entry, b: byte, c: byte)
    requires r in files.tsm.entries && r.typ == FILE && r.path == PATH && p.blob([b]) != p.blob([c])
    requires EntryAttests(p.blob, start, r, files.tsc.entries, Only([b]))
    ensures !Holds(p.blob, files, Only([c])) && !Attests(p.blob, start, files, Only([c]))
  {
    hide FileEntries, Resolve, Listed, Strict, Attests;
    OneEntry(p.blob, b);
    OneEntry(p.blob, c);
    assert !EntryHolds(p.blob, r, files.tsc.entries, Only([c]));
    if Attests(p.blob, start, files, Only([c])) { AttestsHolds(p.blob, start, files, Only([c])); }
  }

  ghost predicate Indexes(p: Params, files: Parent) {
    && Index(p, Captured(p), FIRST, None, [FileItem(OLD)], 0) == Some(files)
    && Index(p, Overwritten(p, files), SECOND, Some(0), [FileItem(NEW)], 0) == Some(files)
  }

  function Captured(p: Params): World { Beginning(p).(tree := Only(OLD)) }

  function FirstTaken(p: Params, files: Parent): Snap {
    Snap(Min(p.granularity, FIRST), 1, FIRST, Only(OLD), files, {})
  }

  /** After the first snapshot, the write and the tick. */
  function Overwritten(p: Params, files: Parent): World {
    World(SECOND, SECOND, Only(NEW), [FirstTaken(p, files)], {0}, [Capture(0, Only(OLD))])
  }

  /** The second capture has the identity of the first, whose snapshot is kept. */
  lemma {:induction false} Steps(p: Params, files: Parent) returns (w: World)
    requires p.granularity >= 1 && p.delay > RACY_WINDOW - p.granularity && Indexes(p, files)
    requires Identity.ToldApart(p.sha256, files, files)
    ensures Begins(p, Beginning(p)) && Play(p, Beginning(p), Acts()) == Some(w) && NoClash(p, Beginning(p), Acts())
    ensures w.snaps == [FirstTaken(p, files)] && |w.taken| == 2 && w.taken[1] == Capture(0, Only(NEW))
  {
    hide Index, WalksTree, Play, Apply, NoClash, TellsApart, Identity.ToldApart;
    var acts, w0, w1 := Acts(), Beginning(p), Captured(p);
    Whole(OLD);
    Whole(NEW);
    var w2 := Answer(w1, FIRST, files);
    var w3, w4 := w2.(tree := Only(NEW)), Overwritten(p, files);
    FirstAnswer(p, FIRST, files);
    w := Answer(w4, SECOND, files);
    assert Apply(p, w0, acts[0]) == Some(w1) by { Created(p); }
    Taken(p, w1, FIRST, None, [FileItem(OLD)], files);
    Written(p, w2);
    Ticked(p, w3, SECOND);
    Taken(p, w4, SECOND, Some(0), [FileItem(NEW)], files);
    Tells(p, w0, w1, w2, w3, w4, files);
    PlayCons(p, w4, acts, 4, w);
    PlayCons(p, w3, acts, 3, w4);
    PlayCons(p, w2, acts, 2, w3);
    PlayCons(p, w1, acts, 1, w2);
    PlayCons(p, w0, acts, 0, w1);
    assert acts[0..] == acts && acts[5..] == [];
    PlayNone(p, w);
  }

  lemma {:induction false} FirstAnswer(p: Params, start: int, files: Parent)
    ensures Answer(Captured(p), start, files)
            == Captured(p).(snaps := [Snap(Min(p.granularity, FIRST), 1, start, Only(OLD), files, {})], line := {0},
                            taken := [Capture(0, Only(OLD))])
  {
    assert {} + {0} == {0};
  }

  lemma {:induction false} Tells(p: Params, w0: World, w1: World, w2: World, w3: World, w4: World, files: Parent)
    requires Identity.ToldApart(p.sha256, files, files) && Indexes(p, files)
    requires w1.snaps == [] && w4 == Overwritten(p, files)
    ensures TellsApart(p, w0, Acts()[0]) && TellsApart(p, w1, Acts()[1]) && TellsApart(p, w2, Acts()[2])
    ensures TellsApart(p, w3, Acts()[3]) && TellsApart(p, w4, Acts()[4])
  {
    hide Index, Identity.ToldApart;
  }

  lemma {:induction false} Created(p: Params)
    ensures Apply(p, Beginning(p), Create(PATH, 0, OLD)) == Some(Captured(p))
  {
    hide Taking, Fetching;
  }

  lemma {:induction false} Written(p: Params, w: World)
    requires w.tree == Only(OLD) && w.coarse == 1
    ensures Apply(p, w, Write(PATH, NEW)) == Some(w.(tree := Only(NEW)))
  {
    hide Taking, Fetching;
    Restamp();
  }

  lemma {:induction false} Ticked(p: Params, w: World, now: i64)
    requires p.granularity >= 1 && w.clock <= now && w.coarse <= now && -0x8000_0000_0000_0000 < now
    ensures Apply(p, w, Tick(now, now)) == Some(w.(clock := now, coarse := now))
  {
    hide Taking, Fetching;
  }

  lemma {:induction false} Taken(p: Params, w: World, start: int, parent: Option<nat>, items: seq<Item>, files: Parent)
    requires w.clock <= start <= w.clock + p.delay && WalksTree(w.tree, items) && ParentOk(w, parent, start)
    requires Index(p, w, start, parent, items, 0) == Some(files)
    ensures Apply(p, w, Take(start, parent, items, 0)) == Some(Answer(w, start, files))
  {
    hide Index, WalksTree, ParentOk, Answer;
  }

  lemma {:induction false} Restamp()
    ensures Stamped(Only(OLD), 0, NEW, 1) == Only(NEW)
  {
  }

  lemma {:induction false} PlayNone(p: Params, w: World)
    ensures Play(p, w, []) == Some(w) && NoClash(p, w, [])
  {
  }

  lemma {:induction false} PlayCons(p: Params, w: World, acts: seq<Action>, i: nat, next: World)
    requires i < |acts| && Apply(p, w, acts[i]) == Some(next)
    ensures Play(p, w, acts[i..]) == Play(p, next, acts[i + 1..])
    ensures NoClash(p, w, acts[i..]) <==> TellsApart(p, w, acts[i]) && NoClash(p, next, acts[i + 1..])
  {
    hide Apply, TellsApart;
    assert acts[i..][0] == acts[i] && acts[i..][1..] == acts[i + 1..];
  }

  // ------------------------------------------------- a parent that the tree is not from

  /** Two snapshots, the file overwritten within one tick in between; then the first is
      checked out. */
  function OffActs(p: Params): seq<Action> {
    [Create(PATH, 0, OLD), Take(Min(p.granularity, FIRST), None, [FileItem(OLD)], 0), Write(PATH, NEW),
     Tick(FIRST, FIRST), Take(FIRST, None, [FileItem(NEW)], 0), Checkout(0), Tick(SECOND, SECOND)]
  }

  function OldSnap(p: Params, files: Parent): Snap {
    Snap(Min(p.granularity, FIRST), 1, Min(p.granularity, FIRST), Only(OLD), files, {})
  }

  function NewSnap(files: Parent): Snap { Snap(FIRST, FIRST, FIRST, Only(NEW), files, {0}) }

  /** The world in which the second snapshot is taken. */
  function Between(p: Params, a: Parent): World {
    World(FIRST, FIRST, Only(NEW), [OldSnap(p, a)], {0}, [Capture(0, Only(OLD))])
  }

  /** Where that leads: the old tree, which has not grown from the second snapshot. */
  function OffWorld(p: Params, a: Parent, b: Parent): World {
    World(SECOND, SECOND, Only(OLD), [OldSnap(p, a), NewSnap(b)], {0},
          [Capture(0, Only(OLD)), Capture(1, Only(NEW))])
  }

  lemma {:induction false} OffSteps(p: Params, a: Parent, b: Parent)
    requires p.granularity >= 1 && a.tsm.sha != b.tsm.sha
    requires Index(p, Captured(p), Min(p.granularity, FIRST), None, [FileItem(OLD)], 0) == Some(a)
    requires Index(p, Between(p, a), FIRST, None, [FileItem(NEW)], 0) == Some(b)
    ensures Begins(p, Beginning(p)) && Play(p, Beginning(p), OffActs(p)) == Some(OffWorld(p, a, b))
  {
    hide Index, WalksTree, Play, Apply, NoClash, TellsApart;
    var acts, w0, w1 := OffActs(p), Beginning(p), Captured(p);
    Whole(OLD);
    Whole(NEW);
    var w2 := Answer(w1, Min(p.granularity, FIRST), a);
    var w3 := w2.(tree := Only(NEW));
    var w4 := Between(p, a);
    var w5 := Answer(w4, FIRST, b);
    FirstAnswer(p, Min(p.granularity, FIRST), a);
    SecondAnswer(p, a, b);
    var w6 := w5.(tree := Only(OLD), line := {0});
    var w7 := OffWorld(p, a, b);
    Created(p);
    Taken(p, w1, Min(p.granularity, FIRST), None, [FileItem(OLD)], a);
    Written(p, w2);
    Ticked(p, w3, FIRST);
    Taken(p, w4, FIRST, None, [FileItem(NEW)], b);
    CheckedOut(p, w5, w6);
    Ticked(p, w6, SECOND);
    PlayCons(p, w6, acts, 6, w7);
    PlayCons(p, w5, acts, 5, w6);
    PlayCons(p, w4, acts, 4, w5);
    PlayCons(p, w3, acts, 3, w4);
    PlayCons(p, w2, acts, 2, w3);
    PlayCons(p, w1, acts, 1, w2);
    PlayCons(p, w0, acts, 0, w1);
    assert acts[0..] == acts && acts[7..] == [];
    PlayNone(p, w7);
  }

  lemma {:induction false} SecondAnswer(p: Params, a: Parent, b: Parent)
    requires a.tsm.sha != b.tsm.sha
    ensures Answer(Between(p, a), FIRST, b)
            == Between(p, a).(snaps := [OldSnap(p, a), NewSnap(b)], line := {0} + {1},
                              taken := [Capture(0, Only(OLD)), Capture(1, Only(NEW))])
  {
    assert [OldSnap(p, a)][..0] == [];
    assert WithId([OldSnap(p, a)], b.tsm.sha) == None;
  }

  lemma {:induction false} CheckedOut(p: Params, w: World, next: World)
    requires |w.snaps| > 0 && w.snaps[0].line == {} && next == w.(tree := w.snaps[0].tree, line := {0})
    ensures Apply(p, w, Checkout(0)) == Some(next)
  {
    hide Taking, Fetching;
    assert w.snaps[0].line + {0} == {0};
  }

  /** A parent must be a snapshot that the tree has grown from: however short the delay,
      indexing the checked-out tree against the later snapshot takes the new bytes for
      the old. */
  lemma {:induction false} OffLine(p: Params) returns (w: World, files: Parent)
    requires p.granularity >= 1 && p.blob(OLD) != p.blob(NEW)
    requires SnapId(p.sha256, Indexed(p.blob, 0, Min(p.granularity, FIRST)), 0)
             != SnapId(p.sha256, Indexed(p.blob, 1, FIRST), 0)
    ensures Begins(p, Beginning(p)) && Play(p, Beginning(p), OffActs(p)) == Some(w)
    ensures |w.snaps| == 2 && 1 !in w.line && w.snaps[1].start < SECOND == w.clock
    ensures WalksTree(w.tree, [FileItem(OLD)])
    ensures Index(p, w, SECOND, Some(1), [FileItem(OLD)], 0) == Some(files) && !Holds(p.blob, files, w.tree)
  {
    hide SnapId, Holds, Walk, TscFormat.Parse, TsmFormat.Parse, TscFile, TsmFile, Indexed, Writable, FileEntries,
         EntryAttests, Play, Attests, WalksTree;
    var first: int := Min(p.granularity, FIRST);
    var s := {OLD, NEW};
    assert CollisionFree(p.blob, s);
    var a, ra := FirstSnap(p, 0, s, first);
    var b, rb := FirstSnap(p, 1, s, FIRST);
    FirstWalk(p, 0, first);
    FirstWalk(p, 1, FIRST);
    IndexedWritable(p.blob, 0, first);
    IndexedWritable(p.blob, 1, FIRST);
    OffSteps(p, a, b);
    w, files := OffWorld(p, a, b), b;
    Whole(OLD);
    StillAttests(p, b, rb, 1);
    SecondWalk(p, 1, OLD, SECOND, b, rb);
    SameIndexed(p.blob, 1);
    NotOther(p, SECOND, b, rb, 1, 0);
  }

  // ------------------------------------------- identities that miss a changed byte

  /** Two trees of one file with one byte each, the bytes different: the identities are
      the same exactly if the digests of the chunk files begin with the same eight bytes. */
  lemma {:induction false} OneByteApart(p: Params, start: int)
    requires Identity.NoCollision(p.sha256, Identity.InputOf(p.sha256, Indexed(p.blob, 0, start), 0),
                                  Identity.InputOf(p.sha256, Indexed(p.blob, 1, start), 0))
    ensures SnapId(p.sha256, Indexed(p.blob, 0, start), 0) == SnapId(p.sha256, Indexed(p.blob, 1, start), 0)
            <==> TscSha(p.sha256, Indexed(p.blob, 0, start))[..8] == TscSha(p.sha256, Indexed(p.blob, 1, start))[..8]
  {
    hide Indexed, SnapId, TscSha, Identity.InputOf, IndexMap;
    var a, b := Indexed(p.blob, 0, start), Indexed(p.blob, 1, start);
    IndexedIs(p.blob, 0, start);
    IndexedIs(p.blob, 1, start);
    SingleSorted(a);
    SingleSorted(b);
    OneRef(a);
    OneRef(b);
    assert a.entries == [a.entries[0]] && b.entries == [b.entries[0]];
    assert Map(Timeless, a.entries) == Map(Timeless, b.entries);
    TimelessTotal(a.entries, b.entries);
    TimelessPlaced(a.entries, 0);
    TimelessPlaced(b.entries, 0);
    Identity.EightBytes(p.sha256, a, b, 0);
  }

  lemma {:induction false} OneRef(st: State)
    requires |st.chunks| == 1 && |st.entries| == 1
    requires st.entries[0].chunkRefs == [0] && st.entries[0].chunkCount == 1 && st.entries[0].typ == FILE
    ensures RefTable(st) == [0]
  {
    SingleSorted(st);
    var c := st.chunks[0];
    assert st.chunks == [c] && [c][1..] == [] && SortBy(Tsc.KeyOf, []) == [];
    assert SortBy(Tsc.KeyOf, st.chunks) == [c];
    assert IndexMap(st.chunks) == [0];
    assert st.entries == [st.entries[0]] && st.entries[1..] == [];
    assert TsmWriter.Table(st.entries, [0]) == TsmWriter.TableOf(st.entries[0], [0]) + TsmWriter.Table([], [0]);
  }

  /** Exactly when the shortcut is sound: iff indexing starts no later after the
      capture than the racy window less the clock's granularity. */
  lemma {:induction false} ShortcutSoundIff(p: Params)
    requires p.granularity >= 1 && p.blob(OLD) != p.blob(NEW)
    ensures (forall s, w, acts ::
               (Begins(p, w) && CollisionFree(p.blob, s) && Within(s, acts) && NoClash(p, w, acts)
                && Play(p, w, acts).Some?) ==> AllAttest(p, Play(p, w, acts).value))
            <==> p.delay <= 1_000_000_000 - p.granularity
  {
    hide Begins, Within, NoClash, Play, AllAttest;
    if p.delay <= RACY_WINDOW - p.granularity {
      forall s, w, acts | Begins(p, w) && CollisionFree(p.blob, s) && Within(s, acts) && NoClash(p, w, acts)
                          && Play(p, w, acts).Some?
        ensures AllAttest(p, Play(p, w, acts).value)
      {
        ShortcutSound(p, s, w, acts);
      }
    } else {
      Overrun(p);
      assert CollisionFree(p.blob, {OLD, NEW});
    }
  }
}
