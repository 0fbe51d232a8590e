/** What a snapshot on disk can say about a chunk: the raw view of its .tsc and the
    location map (tsm/chunkindex.go:341-381, 452-643). Nothing here is cached. */
module Locate {
  import opened Bytes
  import opened Sorting
  import opened TsmEntry
  import opened Indexer
  import opened Snapshot
  import Tsc
  import TscFormat
  import TsmFormat
  import C = Chunking
  import Meaning

  /** A snapshot directory: its .tsc bytes, its manifest if it reads and parses, and
      the paths below it that can be statted. tsmThere and dirThere: the manifest file
      and the directory exist. */
  datatype Disk = Disk(id: Bytes, tscFile: Bytes, tsmThere: bool, dirThere: bool,
                       manifest: Option<TsmFormat.Reader>, present: set<Bytes>)

  function IdOf(d: Disk): Bytes { d.id }

  // ------------------------------------------------------------ the raw .tsc view

  /** checkTSCCountConsistent. */
  predicate CountOk(count: nat, contentLen: int) {
    count <= U32 && contentLen - Tsc.HEADER_SIZE >= 0 && count * Tsc.ENTRY_SIZE == contentLen - Tsc.HEADER_SIZE
  }

  /** readTSCContent: header and entries without the footer, after the cheap checks. */
  function ReadContent(file: Bytes): Option<Bytes> {
    if |file| < Tsc.HEADER_SIZE + Tsc.FOOTER_SIZE || file[..4] != Tsc.MAGIC then None
    else if !CountOk(Get64(file[8..16]), |file| - Tsc.FOOTER_SIZE) then None
    else Some(file[..|file| - Tsc.FOOTER_SIZE])
  }

  /** readTSCContentValidated: the footer digest is checked too. */
  function ReadValidated(sha256: Digest, file: Bytes): Option<Bytes> {
    var c := ReadContent(file);
    if c.Some? && sha256(c.value) == file[|file| - Tsc.FOOTER_SIZE..] then c else None
  }

  /** Magic, a count that fits the length, and at the end the digest of all before it. */
  ghost predicate Valid(sha256: Digest, file: Bytes) {
    && |file| >= 96 && file[..4] == [0x54, 0x53, 0x43, 3]
    && UnBE(file[8..16]) <= U32 && UnBE(file[8..16]) * 40 == |file| - 96
    && sha256(file[..|file| - 32]) == file[|file| - 32..]
  }

  lemma {:induction false} ReadValidatedIs(sha256: Digest, file: Bytes)
    ensures ReadValidated(sha256, file) == if Valid(sha256, file) then Some(file[..|file| - 32]) else None
  {
    hide UnBE;
  }

  /** Without the digest. */
  lemma {:induction false} ReadContentIs(file: Bytes)
    ensures ReadContent(file)
            == if |file| >= 96 && file[..4] == [0x54, 0x53, 0x43, 3]
                  && UnBE(file[8..16]) <= U32 && UnBE(file[8..16]) * 40 == |file| - 96
               then Some(file[..|file| - 32]) else None
  {
    hide UnBE;
  }

  function EntryAt(i: nat): nat { Tsc.HEADER_SIZE + Tsc.ENTRY_SIZE * i }

  /** A view whose declared count fits its length. */
  ghost predicate IsView(content: Bytes) {
    |content| >= Tsc.HEADER_SIZE && |content| == EntryAt(Get64(content[8..16]))
  }

  function Count(content: Bytes): nat
    requires |content| >= Tsc.HEADER_SIZE
  {
    Get64(content[8..16])
  }

  function ViewEntry(content: Bytes, i: nat): Tsc.Entry
    requires IsView(content) && i < Count(content)
  {
    TscFormat.DecodeEntry(content[EntryAt(i)..EntryAt(i) + Tsc.ENTRY_SIZE])
  }

  function ViewEntries(content: Bytes): (es: seq<Tsc.Entry>)
    requires IsView(content)
    ensures |es| == Count(content) && forall i :: 0 <= i < |es| ==> es[i] == ViewEntry(content, i)
  {
    seq(Count(content), i requires 0 <= i < Count(content) => ViewEntry(content, i))
  }

  lemma {:induction false} ReadIsView(file: Bytes)
    requires ReadContent(file).Some?
    ensures IsView(ReadContent(file).value)
  {
    assert file[..|file| - Tsc.FOOTER_SIZE][8..16] == file[8..16];
  }

  /** The raw view of a written chunk file shows the entries written. */
  lemma {:induction false} ViewOfFile(sha256: Digest, es: seq<Tsc.Entry>, total: u64)
    requires |es| <= U32
    ensures var file := TscFormat.File(sha256, es, total);
            && ReadValidated(sha256, file) == ReadContent(file) == Some(TscFormat.Content(es, total))
            && IsView(TscFormat.Content(es, total)) && ViewEntries(TscFormat.Content(es, total)) == es
  {
    hide TscFormat.HeaderBytes, TscFormat.DecodeEntry, TscFormat.EntryBytes, Get64, TscFormat.Body;
    var h := TscFormat.HeaderBytes(TscFormat.HeaderFor(es, total));
    var content, body := TscFormat.Content(es, total), TscFormat.Body(es);
    var footer := sha256(content);
    var file := content + footer;
    TscFormat.HeaderRoundTrip(TscFormat.HeaderFor(es, total));
    TscFormat.RoomInFile(h, es, footer);
    TscFormat.FooterInFile(content, footer);
    assert file[..4] == h[..4] && file[8..16] == h[8..16] && content[8..16] == h[8..16];
    forall i | 0 <= i < |es| ensures ViewEntry(content, i) == es[i] {
      TscFormat.BodySlices(es, i);
      assert content[EntryAt(i)..EntryAt(i) + Tsc.ENTRY_SIZE] == body[40 * i..40 * i + 40];
      TscFormat.EntryRoundTrip(es[i]);
    }
  }

  /** tscView.lookup: binary search straight on the bytes. */
  method LookupView(content: Bytes, sha: Sha) returns (size: Option<u32>)
    requires IsView(content)
    ensures size == SizeIn(ViewEntries(content), sha)
  {
    hide ViewEntries, Get64, Get32, EntryAt, SearchIn, Less;
    ghost var es := ViewEntries(content);
    var i, j := 0, Count(content);
    while i < j
      invariant 0 <= i <= j <= |es|
      invariant SearchIn(Tsc.KeyOf, es, sha, i, j) == SearchIn(Tsc.KeyOf, es, sha, 0, |es|)
    {
      var h := (i + j) / 2;
      RawKey(content, h);
      SearchStep(Tsc.KeyOf, es, sha, i, j);
      if Less(content[EntryAt(h)..EntryAt(h) + 32], sha) { i := h + 1; } else { j := h; }
    }
    SearchStep(Tsc.KeyOf, es, sha, i, j);
    if i < Count(content) {
      RawKey(content, i);
      if content[EntryAt(i)..EntryAt(i) + 32] == sha {
        return Some(Get32(content[EntryAt(i) + 32..EntryAt(i) + 36]));
      }
    }
    return None;
  }

  lemma {:induction false} RawKey(content: Bytes, i: nat)
    requires IsView(content) && i < Count(content)
    ensures EntryAt(i) + Tsc.ENTRY_SIZE <= |content|
    ensures content[EntryAt(i)..EntryAt(i) + 32] == Tsc.KeyOf(ViewEntries(content)[i])
    ensures Get32(content[EntryAt(i) + 32..EntryAt(i) + 36]) == ViewEntries(content)[i].size
  {
    var off := EntryAt(i);
    SliceTake(content, off, off + Tsc.ENTRY_SIZE, 32);
    SubSlice(content, off, off + Tsc.ENTRY_SIZE, 32, 36);
  }

  function SizeIn(es: seq<Tsc.Entry>, sha: Sha): Option<u32> {
    match Lookup(Tsc.KeyOf, es, sha) case None => None case Some(i) => Some(es[i].size)
  }

  // ------------------------------------------------------------- the location map

  datatype Loc = Loc(fileIdx: nat, offset: nat)
  datatype Locs = Locs(m: map<Sha, Loc>, paths: seq<Bytes>)

  /** The references of one file: the first place of each digest is kept, and a
      reference out of range ends the file. */
  function AddRefs(m: map<Sha, Loc>, refs: seq<u32>, es: seq<Tsc.Entry>, fileIdx: nat, off: nat): map<Sha, Loc>
    decreases |refs|
  {
    if refs == [] || refs[0] >= |es| then m
    else
      var e := es[refs[0]];
      AddRefs(if e.sha in m then m else m[e.sha := Loc(fileIdx, off)], refs[1..], es, fileIdx, off + e.size)
  }

  predicate Readable(d: Disk, fe: Entry) {
    fe.typ == FILE && fe.chunkCount != 0 && fe.path in d.present
  }

  function AddFiles(l: Locs, files: seq<Entry>, d: Disk, es: seq<Tsc.Entry>): Locs
    decreases |files|
  {
    if files == [] then l
    else
      var fe := files[0];
      AddFiles(if Readable(d, fe) then Locs(AddRefs(l.m, fe.chunkRefs, es, |l.paths|, 0), l.paths + [fe.path]) else l,
               files[1..], d, es)
  }

  /** What buildLocMapLocked builds from a fresh view. */
  function FreshLocs(d: Disk): Option<Locs> {
    var c := ReadContent(d.tscFile);
    if c == None || d.manifest == None then None
    else
      ReadIsView(d.tscFile);
      Some(AddFiles(Locs(map[], []), d.manifest.value.entries, d, ViewEntries(c.value)))
  }

  method BuildLocMap(d: Disk, content: Bytes) returns (locs: Option<Locs>)
    requires ReadContent(d.tscFile) == Some(content) && IsView(content)
    ensures locs == FreshLocs(d)
  {
    hide ViewEntry, ReadContent;
    if d.manifest == None { return None; }
    var files := d.manifest.value.entries;
    var es := ViewEntries(content);
    var l := Locs(map[], []);
    assert files[0..] == files;
    for i := 0 to |files|
      invariant AddFiles(l, files[i..], d, es) == AddFiles(Locs(map[], []), files, d, es)
    {
      var fe := files[i];
      assert files[i..][0] == fe && files[i..][1..] == files[i + 1..];
      if fe.typ == FILE && fe.chunkCount != 0 && fe.path in d.present {
        var m := BuildRefs(l.m, fe.chunkRefs, es, |l.paths|);
        l := Locs(m, l.paths + [fe.path]);
      }
    }
    return Some(l);
  }

  method BuildRefs(m0: map<Sha, Loc>, refs: seq<u32>, es: seq<Tsc.Entry>, fileIdx: nat) returns (m: map<Sha, Loc>)
    ensures m == AddRefs(m0, refs, es, fileIdx, 0)
  {
    m := m0;
    var off := 0;
    assert refs[0..] == refs;
    for i := 0 to |refs|
      invariant off >= 0 && AddRefs(m, refs[i..], es, fileIdx, off) == AddRefs(m0, refs, es, fileIdx, 0)
    {
      assert refs[i..][0] == refs[i] && refs[i..][1..] == refs[i + 1..];
      if refs[i] >= |es| { return; }
      var e := es[refs[i]];
      if e.sha !in m { m := m[e.sha := Loc(fileIdx, off)]; }
      off := off + e.size;
    }
  }

  // --------------------------------------------- locations point at what was asked for

  function SizeSum(refs: seq<u32>, es: seq<Tsc.Entry>, k: nat): nat
    requires k <= |refs| && forall j :: 0 <= j < k ==> refs[j] < |es|
  {
    if k == 0 then 0 else SizeSum(refs, es, k - 1) + es[refs[k - 1]].size
  }

  /** The references from at to k are all in range. */
  predicate Reaches(refs: seq<u32>, es: seq<Tsc.Entry>, at: nat, k: nat)
    requires k < |refs|
  {
    forall j :: at <= j <= k ==> refs[j] < |es|
  }

  /** A file that still exists has the digest as its reference k, and all references
      before it are in range. */
  predicate NamesAt(d: Disk, es: seq<Tsc.Entry>, fe: Entry, k: nat, sha: Sha) {
    && fe.typ == FILE && fe.chunkCount != 0 && fe.path in d.present
    && k < |fe.chunkRefs| && Reaches(fe.chunkRefs, es, 0, k) && es[fe.chunkRefs[k]].sha == sha
  }

  function FirstRef(refs: seq<u32>, es: seq<Tsc.Entry>, sha: Sha, at: nat): (r: Option<nat>)
    requires at <= |refs|
    ensures r.Some? ==> at <= r.value < |refs| && Reaches(refs, es, at, r.value) && es[refs[r.value]].sha == sha
    ensures forall k :: at <= k < |refs| && Reaches(refs, es, at, k) && es[refs[k]].sha == sha ==>
              r.Some? && r.value <= k
    decreases |refs| - at
  {
    if at == |refs| || refs[at] >= |es| then None
    else if es[refs[at]].sha == sha then Some(at)
    else FirstRef(refs, es, sha, at + 1)
  }

  /** The first place, file by file, that names the digest. */
  function FirstPlace(d: Disk, es: seq<Tsc.Entry>, files: seq<Entry>, sha: Sha, at: nat): (r: Option<(nat, nat)>)
    requires at <= |files|
    ensures r.Some? ==> at <= r.value.0 < |files| && NamesAt(d, es, files[r.value.0], r.value.1, sha)
    ensures forall f, k: nat :: at <= f < |files| && NamesAt(d, es, files[f], k, sha) ==>
              r.Some? && (r.value.0 < f || (r.value.0 == f && r.value.1 <= k))
    decreases |files| - at
  {
    if at == |files| then None
    else
      var k := FirstRef(files[at].chunkRefs, es, sha, 0);
      if Readable(d, files[at]) && k.Some? then Some((at, k.value)) else FirstPlace(d, es, files, sha, at + 1)
  }

  lemma {:induction false} RefsAt(m: map<Sha, Loc>, refs: seq<u32>, es: seq<Tsc.Entry>, idx: nat, at: nat, sha: Sha)
    requires at <= |refs| && forall j :: 0 <= j < at ==> refs[j] < |es|
    ensures RefsLocated(m, AddRefs(m, refs[at..], es, idx, SizeSum(refs, es, at)), refs, es, idx, sha,
                        FirstRef(refs, es, sha, at))
    decreases |refs| - at
  {
    hide SizeSum, FirstRef;
    if at < |refs| && refs[at] < |es| {
      var e := es[refs[at]];
      var m' := if e.sha in m then m else m[e.sha := Loc(idx, SizeSum(refs, es, at))];
      assert refs[at..][0] == refs[at] && refs[at..][1..] == refs[at + 1..];
      RefsAt(m', refs, es, idx, at + 1, sha);
      SizeStep(refs, es, at);
    }
    FirstRefStep(refs, es, sha, at);
  }

  lemma {:induction false} SizeStep(refs: seq<u32>, es: seq<Tsc.Entry>, k: nat)
    requires k < |refs| && forall j :: 0 <= j <= k ==> refs[j] < |es|
    ensures SizeSum(refs, es, k + 1) == SizeSum(refs, es, k) + es[refs[k]].size
  {
  }

  lemma {:induction false} FirstRefStep(refs: seq<u32>, es: seq<Tsc.Entry>, sha: Sha, at: nat)
    requires at <= |refs|
    ensures FirstRef(refs, es, sha, at) ==
            if at == |refs| || refs[at] >= |es| then None
            else if es[refs[at]].sha == sha then Some(at) else FirstRef(refs, es, sha, at + 1)
  {
  }

  /** What one file's references do for one digest. */
  ghost predicate RefsLocated(m: map<Sha, Loc>, r: map<Sha, Loc>, refs: seq<u32>, es: seq<Tsc.Entry>, idx: nat,
                              sha: Sha, k: Option<nat>) {
    && (sha in r <==> sha in m || k.Some?)
    && (sha in m ==> r[sha] == m[sha])
    && (sha !in m && k.Some? ==>
          && k.value < |refs| && (forall j :: 0 <= j <= k.value ==> refs[j] < |es|)
          && r[sha] == Loc(idx, SizeSum(refs, es, k.value)))
  }

  /** What the builder has for one digest after the files from at on. */
  ghost predicate Located(l: Locs, r: Locs, es: seq<Tsc.Entry>, files: seq<Entry>, sha: Sha, place: Option<(nat, nat)>)
    requires place.Some? ==> place.value.0 < |files| && place.value.1 < |files[place.value.0].chunkRefs|
    requires place.Some? ==> Reaches(files[place.value.0].chunkRefs, es, 0, place.value.1)
  {
    && l.paths <= r.paths
    && (sha in r.m <==> sha in l.m || place.Some?)
    && (sha in l.m ==> r.m[sha] == l.m[sha])
    && (sha !in l.m && place.Some? ==>
          var (fe, k) := (files[place.value.0], place.value.1);
          && r.m[sha].fileIdx < |r.paths| && r.paths[r.m[sha].fileIdx] == fe.path
          && r.m[sha].offset == SizeSum(fe.chunkRefs, es, k))
  }

  lemma {:induction false} FilesAt(d: Disk, es: seq<Tsc.Entry>, l: Locs, files: seq<Entry>, at: nat, sha: Sha)
    requires at <= |files|
    ensures Located(l, AddFiles(l, files[at..], d, es), es, files, sha, FirstPlace(d, es, files, sha, at))
    decreases |files| - at
  {
    hide AddRefs, SizeSum, FirstRef;
    if at < |files| {
      var fe := files[at];
      assert files[at..][0] == fe && files[at..][1..] == files[at + 1..];
      if Readable(d, fe) {
        assert fe.chunkRefs[0..] == fe.chunkRefs && SizeSum(fe.chunkRefs, es, 0) == 0 by { NoSize(fe.chunkRefs, es); }
        RefsAt(l.m, fe.chunkRefs, es, |l.paths|, 0, sha);
        FilesAt(d, es, Locs(AddRefs(l.m, fe.chunkRefs, es, |l.paths|, 0), l.paths + [fe.path]), files, at + 1, sha);
      } else {
        FilesAt(d, es, l, files, at + 1, sha);
      }
    }
  }

  lemma {:induction false} NoSize(refs: seq<u32>, es: seq<Tsc.Entry>)
    ensures SizeSum(refs, es, 0) == 0
  {
  }

  /** The location map has exactly the digests that some readable file names, and
      for each the first place that does. */
  lemma {:induction false} FreshIs(d: Disk, sha: Sha)
    requires FreshLocs(d).Some?
    ensures d.manifest.Some? && ReadContent(d.tscFile).Some? && IsView(ReadContent(d.tscFile).value)
    ensures var es, files := ViewEntries(ReadContent(d.tscFile).value), d.manifest.value.entries;
            Located(Locs(map[], []), FreshLocs(d).value, es, files, sha, FirstPlace(d, es, files, sha, 0))
  {
    hide ViewEntry, ReadContent, IsView, Located, FirstPlace;
    ReadIsView(d.tscFile);
    var es, files := ViewEntries(ReadContent(d.tscFile).value), d.manifest.value.entries;
    assert files[0..] == files;
    FilesAt(d, es, Locs(map[], []), files, 0, sha);
  }

  lemma {:induction false} LocInRange(d: Disk, sha: Sha)
    requires FreshLocs(d).Some? && sha in FreshLocs(d).value.m
    ensures FreshLocs(d).value.m[sha].fileIdx < |FreshLocs(d).value.paths|
  {
    hide ViewEntry, ReadContent, IsView, FreshLocs, SizeSum, ViewEntries, FirstPlace;
    FreshIs(d, sha);
  }

  // ------------------------------------------------------- a plain look at one snap

  /** ChunkLocation; the file name is the snapshot and a path below it. */
  datatype Location = Location(sha: Sha, snap: Bytes, path: Bytes, offset: nat, size: u32)

  /** All that matters of a lookup in one snapshot: it is in the .tsc and in some
      statable file. */
  function Find(d: Disk, sha: Sha): Option<Location> {
    var c, l := ReadContent(d.tscFile), FreshLocs(d);
    if c == None || l == None then None
    else
      ReadIsView(d.tscFile);
      var size := SizeIn(ViewEntries(c.value), sha);
      if size == None || sha !in l.value.m then None
      else
        var loc := l.value.m[sha];
        LocInRange(d, sha);
        Some(Location(sha, d.id, l.value.paths[loc.fileIdx], loc.offset, size.value))
  }

  /** The chunk files that are searched were written sorted. */
  ghost predicate SortedView(d: Disk) {
    ReadContent(d.tscFile).Some? && IsView(ReadContent(d.tscFile).value) ==>
      Strict(Tsc.KeyOf, ViewEntries(ReadContent(d.tscFile).value))
  }

  /** The snapshot has the chunk: its chunk file and its manifest can be read, and a
      file that can be statted names the digest. */
  ghost predicate Present(d: Disk, sha: Sha) {
    && ReadContent(d.tscFile).Some? && d.manifest.Some? && IsView(ReadContent(d.tscFile).value)
    && exists f, k: nat :: IsAt(d, sha, f, k)
  }

  ghost predicate IsAt(d: Disk, sha: Sha, f: nat, k: nat)
    requires ReadContent(d.tscFile).Some? && d.manifest.Some? && IsView(ReadContent(d.tscFile).value)
  {
    && f < |d.manifest.value.entries|
    && NamesAt(d, ViewEntries(ReadContent(d.tscFile).value), d.manifest.value.entries[f], k, sha)
  }

  /** What a lookup gives: the first place that names the digest. */
  lemma {:induction false} FindIs(d: Disk, sha: Sha)
    requires ReadContent(d.tscFile).Some? && d.manifest.Some? && SortedView(d)
    ensures IsView(ReadContent(d.tscFile).value)
    ensures var es, files := ViewEntries(ReadContent(d.tscFile).value), d.manifest.value.entries;
            match FirstPlace(d, es, files, sha, 0)
            case None => Find(d, sha) == None
            case Some((f, k)) =>
              var refs := files[f].chunkRefs;
              Find(d, sha) == Some(Location(sha, d.id, files[f].path, SizeSum(refs, es, k), es[refs[k]].size))
  {
    hide ViewEntry, ReadContent, IsView, SizeSum, ViewEntries, FirstPlace, AddFiles;
    ReadIsView(d.tscFile);
    FreshIs(d, sha);
    var es, files := ViewEntries(ReadContent(d.tscFile).value), d.manifest.value.entries;
    var place := FirstPlace(d, es, files, sha, 0);
    if place.Some? { LookupStrict(Tsc.KeyOf, es, files[place.value.0].chunkRefs[place.value.1]); }
  }

  /** A lookup in one snapshot finds the chunk exactly if the snapshot has it. */
  lemma {:induction false} FindIff(d: Disk, sha: Sha)
    requires SortedView(d)
    ensures Find(d, sha).Some? <==> Present(d, sha)
  {
    hide ViewEntry, ReadContent, IsView, SizeSum, ViewEntries, NamesAt, FreshLocs;
    if ReadContent(d.tscFile).Some? && d.manifest.Some? {
      FindIs(d, sha);
      var es, files := ViewEntries(ReadContent(d.tscFile).value), d.manifest.value.entries;
      var place := FirstPlace(d, es, files, sha, 0);
      if place.Some? { assert IsAt(d, sha, place.value.0, place.value.1); }
    } else {
      FindNothing(d, sha);
    }
  }

  lemma {:induction false} FindNothing(d: Disk, sha: Sha)
    requires ReadContent(d.tscFile) == None || d.manifest == None
    ensures Find(d, sha) == None
  {
    hide ReadContent;
  }

  /** Of all the places that name the digest, a lookup gives the first, in manifest
      order: the path, the sum of the sizes before it, and the size. */
  lemma {:induction false} FindIsFirst(d: Disk, sha: Sha) returns (f: nat, k: nat)
    requires SortedView(d) && Find(d, sha).Some?
    ensures Present(d, sha) && IsAt(d, sha, f, k)
    ensures forall g, j: nat :: IsAt(d, sha, g, j) ==> f < g || (f == g && k <= j)
    ensures var es, fe := ViewEntries(ReadContent(d.tscFile).value), d.manifest.value.entries[f];
            Find(d, sha).value
            == Location(sha, d.id, fe.path, SizeSum(fe.chunkRefs, es, k), es[fe.chunkRefs[k]].size)
  {
    hide ViewEntry, ReadContent, IsView, SizeSum, ViewEntries, FreshLocs, Find;
    FindIff(d, sha);
    FindIs(d, sha);
    var es, files := ViewEntries(ReadContent(d.tscFile).value), d.manifest.value.entries;
    var place := FirstPlace(d, es, files, sha, 0).value;
    f, k := place.0, place.1;
  }

  /** The location is of this snapshot, in a file that its manifest lists and that exists. */
  ghost predicate PointsInto(d: Disk, loc: Location) {
    && loc.snap == d.id && loc.path in d.present && d.manifest.Some?
    && exists f :: 0 <= f < |d.manifest.value.entries| && IsPlace(d.manifest.value.entries[f], loc)
  }

  ghost predicate IsPlace(fe: Entry, loc: Location) { fe.path == loc.path && fe.typ == FILE && fe.chunkCount != 0 }

  lemma {:induction false} FindPoints(d: Disk, sha: Sha)
    requires SortedView(d) && Find(d, sha).Some?
    ensures PointsInto(d, Find(d, sha).value)
  {
    hide ViewEntry, ReadContent, IsView, SizeSum, ViewEntries, FreshLocs, Find;
    var f, k := FindIsFirst(d, sha);
    assert IsPlace(d.manifest.value.entries[f], Find(d, sha).value);
  }

  // ----------------------------------------------------------- what is found there

  lemma {:induction false} ChunkAt(cs: seq<Bytes>, k: nat)
    requires k < |cs|
    ensures var off := |Flatten(cs[..k])|;
            off + |cs[k]| <= |Flatten(cs)| && Flatten(cs)[off..off + |cs[k]|] == cs[k]
  {
    FlattenAround(cs, k);
    InMiddle(Flatten(cs[..k]), cs[k], Flatten(cs[k + 1..]));
  }

  lemma {:induction false} SizesAreLengths(blob: Digest, cs: seq<Bytes>, refs: seq<u32>, es: seq<Tsc.Entry>, k: nat)
    requires C.Small(cs) && |refs| == |cs| && k <= |cs|
    requires forall j :: 0 <= j < |cs| ==> refs[j] < |es| && es[refs[j]] == EntryOf(blob, cs[j])
    ensures SizeSum(refs, es, k) == |Flatten(cs[..k])|
  {
    if k == 0 {
      assert cs[..0] == [];
    } else {
      SizesAreLengths(blob, cs, refs, es, k - 1);
      TakeSnoc(cs, k - 1);
      FlattenSnoc(cs[..k - 1], cs[k - 1]);
    }
  }

  /** The snapshot on disk is the one that was published: its manifest and chunk
      file attest the tree that is extracted beside them. */
  ghost predicate Intact(blob: Digest, start: int, d: Disk, tree: Meaning.Tree, tsc: TscFormat.Reader) {
    && d.manifest.Some? && ReadContent(d.tscFile).Some? && IsView(ReadContent(d.tscFile).value)
    && tsc.entries == ViewEntries(ReadContent(d.tscFile).value)
    && Strict(Tsc.KeyOf, tsc.entries)
    && Meaning.Attests(blob, start, Parent(d.manifest.value, tsc), tree)
  }

  /** One reference of one attested file, located. */
  lemma {:induction false} LocatedBytes(blob: Digest, fe: Entry, es: seq<Tsc.Entry>, content: Bytes, k: nat)
    requires |Resolve(fe.chunkRefs, es)| == |fe.chunkRefs| && Resolve(fe.chunkRefs, es) == FileEntries(blob, content)
    requires k < |fe.chunkRefs| && (forall j :: 0 <= j <= k ==> fe.chunkRefs[j] < |es|)
    ensures var off, e := SizeSum(fe.chunkRefs, es, k), es[fe.chunkRefs[k]];
            && off + e.size <= |content| && content[off..off + e.size] in C.Chunks(content)
            && blob(content[off..off + e.size]) == e.sha
  {
    hide SizeSum, C.Chunks, EntryOf, FileEntries, Resolve;
    var cs, refs := C.Chunks(content), fe.chunkRefs;
    C.ChunksSmall(content);
    C.ChunksTile(content);
    RefsNameChunks(blob, refs, es, content);
    SizesAreLengths(blob, cs, refs, es, k);
    ChunkAt(cs, k);
    RecordFields(blob, cs[k]);
  }

  lemma {:induction false} RefsNameChunks(blob: Digest, refs: seq<u32>, es: seq<Tsc.Entry>, content: Bytes)
    requires |Resolve(refs, es)| == |refs| && Resolve(refs, es) == FileEntries(blob, content)
    ensures C.Small(C.Chunks(content)) && |refs| == |C.Chunks(content)|
    ensures forall j :: 0 <= j < |refs| ==> refs[j] < |es| && es[refs[j]] == EntryOf(blob, C.Chunks(content)[j])
  {
    hide C.Chunks, EntryFor, Resolve;
    C.ChunksSmall(content);
    ResolvedRefs(refs, es);
  }

  lemma {:induction false} RecordFields(blob: Digest, c: Bytes)
    requires |c| <= C.BLOB_READ_SIZE
    ensures EntryOf(blob, c).sha == blob(c) && EntryOf(blob, c).size == |c|
  {
  }

  lemma {:induction false} ResolvedRefs(refs: seq<u32>, es: seq<Tsc.Entry>)
    requires |Resolve(refs, es)| == |refs|
    ensures forall k :: 0 <= k < |refs| ==> refs[k] < |es| && Resolve(refs, es)[k] == es[refs[k]]
    decreases |refs|
  {
    if refs != [] {
      ResolvedRefs(refs[1..], es);
      assert forall k :: 1 <= k < |refs| ==> refs[k] == refs[1..][k - 1];
    }
  }

  /** Every location found in an intact snapshot points at bytes that are exactly
      the chunk asked for. */
  lemma {:induction false} LocationIsChunk(blob: Digest, start: int, d: Disk, tree: Meaning.Tree, tsc: TscFormat.Reader,
                                           sha: Sha)
    requires Intact(blob, start, d, tree, tsc) && Find(d, sha).Some?
    ensures IsChunkIn(blob, tree, d.id, sha, Find(d, sha).value)
  {
    hide ViewEntry, ReadContent, IsView, SizeSum, FileEntries, Resolve, ViewEntries, RacyAdjusted, Find, Strict,
         Meaning.Listed, FirstPlace;
    var es, files := tsc.entries, d.manifest.value.entries;
    var f, k := FindIsFirst(d, sha);
    assert Meaning.EntryAttests(blob, start, files[f], es, tree);
    LocatedBytes(blob, files[f], es, tree[files[f].path].content, k);
  }

  /** The location lies in a file of the tree and the bytes there have the digest. */
  ghost predicate IsChunkIn(blob: Digest, tree: Meaning.Tree, id: Bytes, sha: Sha, loc: Location) {
    && loc.sha == sha && loc.snap == id && loc.path in tree
    && loc.offset + loc.size <= |tree[loc.path].content|
    && blob(tree[loc.path].content[loc.offset..loc.offset + loc.size]) == sha
  }

  // ------------------------------------------------------- what can be found at all

  ghost predicate IsChunkOf(blob: Digest, tree: Meaning.Tree, q: Bytes, c: Bytes, sha: Sha) {
    q in tree && c in C.Chunks(tree[q].content) && blob(c) == sha
  }

  /** Every chunk of a listed file is named by its entry. */
  lemma {:induction false} FileNames(blob: Digest, start: int, d: Disk, tree: Meaning.Tree, tsc: TscFormat.Reader,
                                     i: nat, c: Bytes) returns (k: nat)
    requires Intact(blob, start, d, tree, tsc) && i < |d.manifest.value.entries|
    requires var fe := d.manifest.value.entries[i];
             fe.typ == FILE && fe.path in d.present && fe.path in tree && c in C.Chunks(tree[fe.path].content)
    ensures NamesAt(d, tsc.entries, d.manifest.value.entries[i], k, blob(c))
  {
    hide ReadContent, IsView, ViewEntries, Strict, Meaning.Listed, Resolve, FileEntries, C.Chunks, EntryOf,
         RacyAdjusted;
    var fe := d.manifest.value.entries[i];
    var content := tree[fe.path].content;
    assert Meaning.EntryAttests(blob, start, fe, tsc.entries, tree);
    RefsNameChunks(blob, fe.chunkRefs, tsc.entries, content);
    k :| 0 <= k < |C.Chunks(content)| && C.Chunks(content)[k] == c;
    RecordFields(blob, c);
  }

  /** A file of the tree that the manifest lists as such and that still exists has the
      chunk under this name. */
  ghost predicate KeepsChunk(blob: Digest, d: Disk, tree: Meaning.Tree, q: Bytes, c: Bytes, sha: Sha)
    requires d.manifest.Some?
  {
    && q in d.present && LookupPath(d.manifest.value, q).Some? && LookupPath(d.manifest.value, q).value.typ == FILE
    && IsChunkOf(blob, tree, q, c, sha)
  }

  /** In an intact snapshot, whatever has become of its files since, what can be found
      are exactly the chunks of the listed files that still exist. */
  lemma {:induction false} PresentIffChunk(blob: Digest, start: int, d: Disk, tree: Meaning.Tree, tsc: TscFormat.Reader,
                                           sha: Sha)
    requires Intact(blob, start, d, tree, tsc)
    ensures Present(d, sha) <==> exists q, c :: KeepsChunk(blob, d, tree, q, c, sha)
  {
    hide ReadContent, IsView, ViewEntries, ViewEntry, Strict, Meaning.Listed, Meaning.EntryAttests, C.Chunks, NamesAt,
         Resolve, FileEntries, Lookup;
    if q, c :| KeepsChunk(blob, d, tree, q, c, sha) {
      var i := Lookup(PathOf, d.manifest.value.entries, q).value;
      var k := FileNames(blob, start, d, tree, tsc, i, c);
      assert IsAt(d, sha, i, k);
    }
    if Present(d, sha) {
      var f: nat, k: nat :| IsAt(d, sha, f, k);
      var c := NamedChunk(blob, start, d, tree, tsc, sha, f, k);
      NamedFile(d, ViewEntries(ReadContent(d.tscFile).value), f, k, sha);
      LookupStrict(PathOf, d.manifest.value.entries, f);
      assert KeepsChunk(blob, d, tree, d.manifest.value.entries[f].path, c, sha);
    }
  }

  lemma {:induction false} NamedFile(d: Disk, es: seq<Tsc.Entry>, f: nat, k: nat, sha: Sha)
    requires d.manifest.Some? && f < |d.manifest.value.entries| && NamesAt(d, es, d.manifest.value.entries[f], k, sha)
    ensures d.manifest.value.entries[f].typ == FILE && d.manifest.value.entries[f].path in d.present
  {
  }

  /** With all files in place these are all chunks of the tree, hard links included. */
  lemma {:induction false} AllInPlace(blob: Digest, start: int, d: Disk, tree: Meaning.Tree, tsc: TscFormat.Reader,
                                      sha: Sha)
    requires Intact(blob, start, d, tree, tsc) && tree.Keys <= d.present
    ensures (exists q, c :: KeepsChunk(blob, d, tree, q, c, sha)) <==> exists q, c :: IsChunkOf(blob, tree, q, c, sha)
  {
    hide ReadContent, IsView, ViewEntries, ViewEntry, Strict, Meaning.EntryAttests, C.Chunks, Lookup;
    if q, c :| IsChunkOf(blob, tree, q, c, sha) {
      assert Meaning.Listed(d.manifest.value, tree, q);
      var es := d.manifest.value.entries;
      var i: nat := Lookup(PathOf, es, q).value;
      if es[i].typ == HARDLINK { i := es[i].linkIndex; }
      LookupStrict(PathOf, es, i);
      assert KeepsChunk(blob, d, tree, es[i].path, c, sha);
    }
  }

  lemma {:induction false} NamedChunk(blob: Digest, start: int, d: Disk, tree: Meaning.Tree, tsc: TscFormat.Reader,
                                      sha: Sha, f: nat, k: nat) returns (c: Bytes)
    requires Intact(blob, start, d, tree, tsc) && IsAt(d, sha, f, k)
    ensures IsChunkOf(blob, tree, d.manifest.value.entries[f].path, c, sha)
  {
    hide ReadContent, IsView, ViewEntries, ViewEntry, Strict, Meaning.Listed, C.Chunks, Resolve, FileEntries,
         RacyAdjusted, SizeSum;
    var fe := d.manifest.value.entries[f];
    assert Meaning.EntryAttests(blob, start, fe, tsc.entries, tree);
    LocatedBytes(blob, fe, tsc.entries, tree[fe.path].content, k);
    var off, e := SizeSum(fe.chunkRefs, tsc.entries, k), tsc.entries[fe.chunkRefs[k]];
    c := tree[fe.path].content[off..off + e.size];
  }

  // ------------------------------------------------- published snapshots are intact

  /** The snapshot directory as indexing leaves it. */
  ghost predicate IsPublished(sha256: Digest, d: Disk, st: State, creation: i64) {
    && d.tscFile == TscFile(sha256, st) && d.manifest.Some?
    && TsmFormat.Parse(sha256, TsmFile(sha256, st, creation)) == Ok(d.manifest.value)
  }

  /** What a walk of the whole tree publishes is intact. */
  lemma {:induction false} PublishedIsIntact(sha256: Digest, cfg: Config, s: set<Bytes>, d: Disk, st: State,
                                             tree: Meaning.Tree, creation: i64) returns (tsc: TscFormat.Reader)
    requires Meaning.Truthful(cfg, s, st, tree) && Meaning.Covers(s, tree) && Meaning.CollisionFree(cfg.blob, s)
    requires Meaning.Complete(st, tree) && Meaning.Coherent(tree) && Writable(st)
    requires IsPublished(sha256, d, st, creation)
    ensures Intact(cfg.blob, cfg.start, d, tree, tsc) && ReadValidated(sha256, d.tscFile).Some? && SortedView(d)
  {
    hide TscFormat.Parse, TsmFormat.Parse, TsmFile, ReadContent, ViewEntries, IsView, Meaning.Truthful, Meaning.Covers,
         Meaning.CollisionFree, Meaning.Complete, Meaning.Coherent, Meaning.Attests, RefTable, WritableEntry, SortBy,
         TscFormat.File, TscFormat.Content;
    var snap := Meaning.PublishedAttests(sha256, cfg, s, st, tree, creation);
    tsc := snap.tsc;
    ViewOfFile(sha256, SortedChunks(st), TscTotal(st));
    TscFormat.WriteParse(sha256, SortedChunks(st), TscTotal(st));
    SortStrict(Tsc.KeyOf, st.chunks);
  }
}
