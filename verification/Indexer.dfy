/** Indexing a tree (tsm/indexer.go): chunk, deduplicate, reuse from the parent. */
module Indexer {
  import opened Bytes
  import opened Sorting
  import opened TsmEntry
  import C = Chunking
  import Tsc
  import TscFormat
  import TsmFormat

  const RACY_WINDOW := 1_000_000_000
  const ZERO_BLOCK: u16 := 1

  /** racyAdjustedCtime: a ctime too close to the reference is stored one off. */
  function RacyAdjusted(ctime: i64, reference: int): i64 {
    if reference - ctime >= RACY_WINDOW then ctime
    else if ctime == -0x8000_0000_0000_0000 then 0x7fff_ffff_ffff_ffff
    else ctime - 1
  }

  // ------------------------------------------------------------ records of a file

  function ZeroSha(blob: Digest): Sha { blob(Zeros(C.BLOB_MAX)) }

  /** What the chunk callback stores for a record. */
  function EntryFor(blob: Digest, r: C.Record): Tsc.Entry {
    Tsc.Entry(r.sha, r.size, r.level, if r.sha == ZeroSha(blob) then ZERO_BLOCK else 0)
  }

  /** The chunk record of some bytes: it depends on nothing but the bytes. */
  function EntryOf(blob: Digest, c: Bytes): Tsc.Entry
    requires |c| <= C.BLOB_READ_SIZE
  {
    EntryFor(blob, C.RecordOf(blob, c))
  }

  function EntriesOf(blob: Digest, cs: seq<Bytes>): (es: seq<Tsc.Entry>)
    requires C.Small(cs)
    ensures |es| == |cs| && forall i :: 0 <= i < |cs| ==> es[i] == EntryOf(blob, cs[i])
  {
    seq(|cs|, i requires 0 <= i < |cs| => EntryOf(blob, cs[i]))
  }

  /** The chunk records of a file's bytes. */
  function FileEntries(blob: Digest, content: Bytes): (es: seq<Tsc.Entry>)
    ensures |es| == |C.Chunks(content)|
  {
    C.ChunksSmall(content);
    EntriesOf(blob, C.Chunks(content))
  }

  /** The positions the chunk list gives to some records. */
  function RefsIn(chunks: seq<Tsc.Entry>, es: seq<Tsc.Entry>): (refs: seq<u32>)
    ensures |refs| == |es|
  {
    Map((e: Tsc.Entry) => Wrap32(Tsc.Find(chunks, e.sha)), es)
  }

  // -------------------------------------------------------------- the tree indexed

  /** What opening and reading a regular file gives. */
  datatype Reading = Readable(content: Bytes, plan: seq<nat>) | Denied | Broken

  datatype Kind =
    | Dir
    | Regular(nlink: nat, inode: u64, reading: Reading)
    | Symlink(target: Option<Bytes>)
    | Device(isChar: bool, major: u32, minor: u32)
    | Fifo
    | Other

  datatype Stat = Stat(mode: u32, uid: u32, gid: u32, size: u64, mtime: i64, ctime: i64, atime: i64)

  /** One walked path: Lstat may be refused, may fail, or gives metadata and a kind. */
  datatype Item = Found(path: Bytes, stat: Stat, kind: Kind) | StatDenied | StatBroken

  datatype Parent = Parent(tsm: TsmFormat.Reader, tsc: TscFormat.Reader)

  datatype Config = Config(blob: Digest, parent: Option<Parent>, start: int)

  /** The part of the indexer that reaches the files it writes. */
  datatype State = State(chunks: seq<Tsc.Entry>, entries: seq<Entry>, links: map<u64, u32>, count: u32)

  const INITIAL := State([], [], map[], 0)

  function BaseEntry(path: Bytes, s: Stat, typ: byte): Entry {
    var root := path == [];
    Entry(path, typ, 0, s.mode, s.uid, s.gid, s.size,
          if root then 0 else s.mtime, if root then 0 else s.ctime, if root then 0 else s.atime,
          0, 0, [], [], 0, 0, 0)
  }

  // ------------------------------------------------------------- reuse from a parent

  function LookupPath(r: TsmFormat.Reader, path: Bytes): Option<Entry> {
    match Lookup(PathOf, r.entries, path)
    case None => None
    case Some(i) => Some(r.entries[i])
  }

  /** The records the references name, up to the first one out of range. */
  function Resolve(refs: seq<u32>, es: seq<Tsc.Entry>): (r: seq<Tsc.Entry>)
    ensures |r| <= |refs|
    decreases |refs|
  {
    if refs == [] || refs[0] >= |es| then [] else [es[refs[0]]] + Resolve(refs[1..], es)
  }

  predicate Matches(p: Entry, e: Entry) {
    p.typ == FILE && p.size == e.size && p.ctime == e.ctime
  }

  /** The parent's entry for e, when it passes the change check. */
  function Candidate(parent: Option<Parent>, e: Entry): Option<Entry> {
    if parent == None then None
    else
      var p := LookupPath(parent.value.tsm, e.path);
      if p.Some? && Matches(p.value, e) then p else None
  }

  /** reuseParentChunks: the records added, and whether they are the whole file. A
      reference out of range gives up after what was added before it. */
  function Reuse(parent: Option<Parent>, e: Entry): (seq<Tsc.Entry>, bool) {
    match Candidate(parent, e)
    case None => ([], false)
    case Some(p) =>
      var es := Resolve(p.chunkRefs, parent.value.tsc.entries);
      (es, |es| == |p.chunkRefs|)
  }

  // ------------------------------------------------------------------- processEntry

  function WithChunks(st: State, e: Entry, es: seq<Tsc.Entry>, links: map<u64, u32>, start: int): State {
    var chunks := Tsc.AddedAll(st.chunks, es);
    var refs := RefsIn(chunks, es);
    Append(st.(chunks := chunks, links := links),
           e.(chunkRefs := refs, chunkCount := Wrap32(|refs|), ctime := RacyAdjusted(e.ctime, start)))
  }

  function Append(st: State, e: Entry): State {
    st.(entries := st.entries + [e], count := Wrap32(st.count + 1))
  }

  /** A regular file that is not another name of one already seen. */
  function StepFile(cfg: Config, st: State, e: Entry, links: map<u64, u32>, reading: Reading): Option<State> {
    var (reused, whole) := Reuse(cfg.parent, e);
    if whole then Some(WithChunks(st, e, reused, links, cfg.start))
    else
      var st' := st.(chunks := Tsc.AddedAll(st.chunks, reused));
      if e.size == 0 then Some(WithChunks(st', e, [], links, cfg.start))
      else
        match reading
        case Readable(content, _) => Some(WithChunks(st', e, FileEntries(cfg.blob, content), links, cfg.start))
        case Denied => Some(st'.(links := links))
        case Broken => None
  }

  /** One turn of the entry loop of Index; None when indexing is abandoned. */
  function Step(cfg: Config, st: State, it: Item): Option<State> {
    match it
    case StatDenied => Some(st)
    case StatBroken => None
    case Found(path, s, kind) =>
      match kind
      case Dir => Some(Append(st, BaseEntry(path, s, DIR)))
      case Regular(nlink, inode, reading) =>
        var e := BaseEntry(path, s, FILE);
        if nlink > 1 && inode in st.links then
          Some(Append(st, e.(typ := HARDLINK, linkIndex := st.links[inode])))
        else
          StepFile(cfg, st, e, if nlink > 1 then st.links[inode := st.count] else st.links, reading)
      case Symlink(None) => None
      case Symlink(Some(target)) =>
        Some(Append(st, BaseEntry(path, s, SYMLINK).(linkTarget := target, size := Wrap64(|target|))))
      case Device(isChar, major, minor) =>
        var e := BaseEntry(path, s, if isChar then CHARDEV else BLOCKDEV);
        Some(Append(st, e.(devMajor := major, devMinor := minor)))
      case Fifo => Some(Append(st, BaseEntry(path, s, FIFO)))
      case Other => Some(st)
  }

  /** The entry loop of Index. */
  function Walk(cfg: Config, st: State, items: seq<Item>): Option<State>
    decreases |items|
  {
    if items == [] then Some(st)
    else
      match Step(cfg, st, items[0])
      case None => None
      case Some(next) => Walk(cfg, next, items[1..])
  }

  lemma {:induction false} ResolveIs(refs: seq<u32>, es: seq<Tsc.Entry>, i: nat)
    requires i < |refs| && forall j :: 0 <= j <= i ==> refs[j] < |es|
    ensures i < |Resolve(refs, es)| && Resolve(refs, es)[i] == es[refs[i]]
    decreases |refs|
  {
    if i > 0 {
      assert forall j :: 0 <= j <= i - 1 ==> refs[1..][j] == refs[j + 1];
      ResolveIs(refs[1..], es, i - 1);
    }
  }

  /** However a file with a matching parent entry is recorded, even if its bytes are then
      refused, the chunks that entry names before its first bad reference stay. */
  lemma {:induction false} CopiedStay(cfg: Config, st: State, e: Entry, links: map<u64, u32>, reading: Reading, i: nat)
    requires DistinctKeys(Tsc.KeyOf, st.chunks) && StepFile(cfg, st, e, links, reading).Some?
    requires Candidate(cfg.parent, e).Some?
    requires var refs, es := Candidate(cfg.parent, e).value.chunkRefs, cfg.parent.value.tsc.entries;
             i < |refs| && forall j :: 0 <= j <= i ==> refs[j] < |es|
    ensures var refs, es := Candidate(cfg.parent, e).value.chunkRefs, cfg.parent.value.tsc.entries;
            Tsc.Has(StepFile(cfg, st, e, links, reading).value.chunks, es[refs[i]].sha)
  {
    hide LookupPath, Matches, Resolve, FileEntries, RefsIn, RacyAdjusted, Tsc.AddedAll, Tsc.Has;
    var refs, es := Candidate(cfg.parent, e).value.chunkRefs, cfg.parent.value.tsc.entries;
    var got := Resolve(refs, es);
    ResolveIs(refs, es, i);
    var some := Tsc.AddedAll(st.chunks, got);
    Tsc.AddedAllKeeps(st.chunks, got);
    assert Tsc.Has(some, got[i].sha);
    var next := StepFile(cfg, st, e, links, reading).value.chunks;
    Tsc.AddedAllKeeps(some, []);
    if reading.Readable? {
      Tsc.AddedAllKeeps(some, FileEntries(cfg.blob, reading.content));
      Tsc.PrefixHas(some, Tsc.AddedAll(some, FileEntries(cfg.blob, reading.content)), got[i].sha);
    }
    Tsc.PrefixHas(some, Tsc.AddedAll(some, []), got[i].sha);
  }

  // ------------------------------------------------------- incremental equals full

  /** The file's current bytes are what the parent's matching entry stands for:
      its references are in range and name the chunks of those bytes. */
  ghost predicate Unchanged(cfg: Config, it: Item) {
    it.Found? && it.kind.Regular? ==>
      var e := BaseEntry(it.path, it.stat, FILE);
      match Candidate(cfg.parent, e)
      case None => true
      case Some(p) =>
        && it.kind.reading.Readable?
        && (e.size == 0 ==> it.kind.reading.content == [])
        && Reuse(cfg.parent, e) == (FileEntries(cfg.blob, it.kind.reading.content), true)
  }

  /** What two runs at different times must agree on. */
  function Timeless(e: Entry): Entry { e.(ctime := 0, atime := 0) }

  ghost predicate Same(a: State, b: State) {
    && a.chunks == b.chunks && a.links == b.links && a.count == b.count
    && Map(Timeless, a.entries) == Map(Timeless, b.entries)
  }

  lemma {:induction false} SameAppend(a: State, b: State, e: Entry, f: Entry)
    requires Same(a, b) && Timeless(e) == Timeless(f)
    ensures Same(Append(a, e), Append(b, f))
  {
    assert Map(Timeless, a.entries + [e]) == Map(Timeless, a.entries) + [Timeless(e)];
    assert Map(Timeless, b.entries + [f]) == Map(Timeless, b.entries) + [Timeless(f)];
  }

  lemma {:induction false} SameWithChunks(a: State, b: State, e: Entry, es: seq<Tsc.Entry>, links: map<u64, u32>,
                                          s: int, t: int)
    requires Same(a, b)
    ensures Same(WithChunks(a, e, es, links, s), WithChunks(b, e, es, links, t))
  {
    var chunks := Tsc.AddedAll(a.chunks, es);
    var refs := RefsIn(chunks, es);
    var f := e.(chunkRefs := refs, chunkCount := Wrap32(|refs|));
    SameAppend(a.(chunks := chunks, links := links), b.(chunks := chunks, links := links),
               f.(ctime := RacyAdjusted(e.ctime, s)), f.(ctime := RacyAdjusted(e.ctime, t)));
  }

  lemma {:induction false} SameStep(inc: Config, full: Config, a: State, b: State, it: Item)
    requires full == Config(inc.blob, None, full.start)
    requires Unchanged(inc, it) && Same(a, b)
    ensures Step(inc, a, it).Some? <==> Step(full, b, it).Some?
    ensures Step(inc, a, it).Some? ==> Same(Step(inc, a, it).value, Step(full, b, it).value)
  {
    if it.Found? {
      var s, path := it.stat, it.path;
      match it.kind
      case Dir =>
        var e := BaseEntry(path, s, DIR);
        SameAppend(a, b, e, e);
      case Symlink(t) =>
        if t.Some? {
          var e := BaseEntry(path, s, SYMLINK).(linkTarget := t.value, size := Wrap64(|t.value|));
          SameAppend(a, b, e, e);
        }
      case Device(isChar, major, minor) =>
        var e := BaseEntry(path, s, if isChar then CHARDEV else BLOCKDEV).(devMajor := major, devMinor := minor);
        SameAppend(a, b, e, e);
      case Fifo =>
        var e := BaseEntry(path, s, FIFO);
        SameAppend(a, b, e, e);
      case Other =>
      case Regular(nlink, inode, reading) =>
        var e := BaseEntry(path, s, FILE);
        if nlink > 1 && inode in a.links {
          var l := e.(typ := HARDLINK, linkIndex := a.links[inode]);
          SameAppend(a, b, l, l);
        } else {
          SameFile(inc, full, a, b, it);
        }
    }
  }

  lemma {:induction false} SameFile(inc: Config, full: Config, a: State, b: State, it: Item)
    requires full == Config(inc.blob, None, full.start)
    requires it.Found? && it.kind.Regular? && Unchanged(inc, it) && Same(a, b)
    ensures var e, k := BaseEntry(it.path, it.stat, FILE), it.kind;
            var links := if k.nlink > 1 then a.links[k.inode := a.count] else a.links;
            var x, y := StepFile(inc, a, e, links, k.reading), StepFile(full, b, e, links, k.reading);
            (x.Some? <==> y.Some?) && (x.Some? ==> Same(x.value, y.value))
  {
    var e, k := BaseEntry(it.path, it.stat, FILE), it.kind;
    var links := if k.nlink > 1 then a.links[k.inode := a.count] else a.links;
    assert Reuse(full.parent, e) == ([], false);
    assert Tsc.AddedAll(b.chunks, []) == b.chunks && Tsc.AddedAll(a.chunks, []) == a.chunks;
    if Candidate(inc.parent, e) == None {
      assert Reuse(inc.parent, e) == ([], false);
      SameWithChunks(a, b, e, [], links, inc.start, full.start);
      if k.reading.Readable? {
        SameWithChunks(a, b, e, FileEntries(inc.blob, k.reading.content), links, inc.start, full.start);
      }
    } else {
      var es := FileEntries(inc.blob, k.reading.content);
      SameWithChunks(a, b, e, es, links, inc.start, full.start);
      if e.size == 0 { assert C.Chunks([]) == []; assert es == []; }
    }
  }

  /** If every file that passes the change check is unchanged, an incremental run
      ends in the state of a full one, but for recorded ctimes. */
  lemma {:induction false} IncrementalIsFull(inc: Config, full: Config, a: State, b: State, items: seq<Item>)
    requires full == Config(inc.blob, None, full.start)
    requires forall i :: 0 <= i < |items| ==> Unchanged(inc, items[i])
    requires Same(a, b)
    ensures Walk(inc, a, items).Some? <==> Walk(full, b, items).Some?
    ensures Walk(inc, a, items).Some? ==> Same(Walk(inc, a, items).value, Walk(full, b, items).value)
    decreases |items|
  {
    if items != [] {
      SameStep(inc, full, a, b, items[0]);
      var x, y := Step(inc, a, items[0]), Step(full, b, items[0]);
      if x.Some? { IncrementalIsFull(inc, full, x.value, y.value, items[1..]); }
    }
  }
}
