/** Reassembling a file from local chunks and a peer (tsm/download.go:353-512,
    tsm/chunklookup.go). Local files may have rotted, moved or vanished and the
    peer may answer anything. */
module Download {
  import opened Bytes
  import opened Sorting
  import opened TsmEntry
  import opened Indexer
  import C = Chunking
  import Tsc
  import Locate
  import ChunkIndex
  import Meaning
  import Snapshot
  import TscFormat
  import TsmFormat

  /** What the peer answers to the n-th range request; None is any failure. */
  type Peer = (nat, nat, nat) -> Option<Bytes>

  /** What a local file holds when chunk n is copied from it; None if it cannot be
      opened any more. */
  type Files = (nat, Locate.Location) -> Option<Bytes>

  // ---------------------------------------------------------------- the output file

  /** Writing nothing does not extend a file. */
  function WriteAt(f: Bytes, pos: nat, d: Bytes): Bytes {
    if d == [] then f
    else if pos > |f| then f + Zeros(pos - |f|) + d
    else if pos + |d| >= |f| then f[..pos] + d
    else f[..pos] + d + f[pos + |d|..]
  }

  class OutFile {
    var content: Bytes
    var pos: nat

    constructor ()
      ensures content == [] && pos == 0
    {
      content, pos := [], 0;
    }

    method Truncate(n: nat)
      modifies this
      ensures content == (if n <= |old(content)| then old(content)[..n] else old(content) + Zeros(n - |old(content)|))
      ensures pos == old(pos)
    {
      content := if n <= |content| then content[..n] else content + Zeros(n - |content|);
    }

    method Skip(n: nat)
      modifies this
      ensures pos == old(pos) + n && content == old(content)
    {
      pos := pos + n;
    }

    method Write(d: Bytes)
      modifies this
      ensures content == WriteAt(old(content), old(pos), d) && pos == old(pos) + |d|
    {
      content, pos := WriteAt(content, pos, d), pos + |d|;
    }
  }

  /** What is put down for one chunk: bytes, or a hole of BLOB_MAX zeros. */
  datatype Part = Hole | Data(bytes: Bytes)

  function PartBytes(p: Part): Bytes { match p case Hole => Zeros(C.BLOB_MAX) case Data(d) => d }

  function PartsBytes(ps: seq<Part>): Bytes { Flatten(Map(PartBytes, ps)) }

  /** The output file after putting down the parts in order. */
  function Assemble(f: Bytes, pos: nat, ps: seq<Part>): (Bytes, nat)
    decreases |ps|
  {
    if ps == [] then (f, pos)
    else
      match ps[0]
      case Hole => Assemble(f, pos + C.BLOB_MAX, ps[1..])
      case Data(d) => Assemble(WriteAt(f, pos, d), pos + |d|, ps[1..])
  }

  lemma {:induction false} AssembleSnoc(f: Bytes, pos: nat, ps: seq<Part>, p: Part)
    ensures var (g, at) := Assemble(f, pos, ps);
            Assemble(f, pos, ps + [p])
            == match p { case Hole => (g, at + C.BLOB_MAX) case Data(d) => (WriteAt(g, at, d), at + |d|) }
    decreases |ps|
  {
    hide WriteAt;
    if ps == [] {
      assert ps + [p] == [p] && [p][1..] == [];
    } else {
      assert (ps + [p])[0] == ps[0] && (ps + [p])[1..] == ps[1..] + [p];
      match ps[0]
      case Hole => AssembleSnoc(f, pos + C.BLOB_MAX, ps[1..], p);
      case Data(d) => AssembleSnoc(WriteAt(f, pos, d), pos + |d|, ps[1..], p);
    }
  }

  lemma {:induction false} NothingDown(f: Bytes, pos: nat)
    ensures Assemble(f, pos, []) == (f, pos)
  {
  }

  lemma {:induction false} PartsCons(ps: seq<Part>)
    requires ps != []
    ensures PartsBytes(ps) == PartBytes(ps[0]) + PartsBytes(ps[1..])
  {
    assert Map(PartBytes, ps)[1..] == Map(PartBytes, ps[1..]);
  }

  lemma {:induction false} PartsNone()
    ensures PartsBytes([]) == []
  {
  }

  /** Where the last bytes that are really written end; 0 if there are none. */
  function Extent(pos: nat, ps: seq<Part>): (n: nat)
    ensures ps == [] ==> n == 0
    decreases |ps|
  {
    if ps == [] then 0
    else
      var next := pos + |PartBytes(ps[0])|;
      Max(if ps[0] == Hole || next == pos then 0 else next, Extent(next, ps[1..]))
  }

  /** b cut off, or filled up with zeros, at length n. */
  function Fitted(b: Bytes, n: nat): (r: Bytes)
    ensures |r| == n
  {
    if n <= |b| then b[..n] else b + Zeros(n - |b|)
  }

  /** f is b as far as it goes, and where either is longer it has zeros. */
  ghost predicate Holds(f: Bytes, b: Bytes) {
    f == Fitted(b, |f|) && forall i :: |f| <= i < |b| ==> b[i] == 0
  }

  lemma {:induction false} HoldsHole(f: Bytes, b: Bytes)
    requires Holds(f, b)
    ensures Holds(f, b + Zeros(C.BLOB_MAX))
  {
  }

  lemma {:induction false} HoldsData(f: Bytes, b: Bytes, d: Bytes)
    requires Holds(f, b)
    ensures Holds(WriteAt(f, |b|, d), b + d)
    ensures |WriteAt(f, |b|, d)| == if d == [] then |f| else Max(|f|, |b| + |d|)
  {
    if d == [] { assert b + d == b; }
  }

  /** Whatever is put down, the file is the parts one after another, holes reading as
      zeros, cut off or filled up to the longer of the length it had and the end of the
      last bytes written. */
  lemma {:induction false} AssembleIs(f: Bytes, b: Bytes, ps: seq<Part>)
    requires Holds(f, b)
    ensures Assemble(f, |b|, ps).0 == Fitted(b + PartsBytes(ps), Max(|f|, Extent(|b|, ps)))
    decreases |ps|
  {
    hide PartsBytes, Fitted, WriteAt, Holds;
    if ps == [] {
      PartsNone();
      assert b + [] == b;
      assert f == Fitted(b, |f|) by { HoldsIs(f, b); }
    } else {
      var c := PartBytes(ps[0]);
      PartsCons(ps);
      Assoc(b, c, PartsBytes(ps[1..]));
      match ps[0]
      case Hole =>
        HoldsHole(f, b);
        AssembleIs(f, b + c, ps[1..]);
      case Data(d) =>
        HoldsData(f, b, d);
        AssembleIs(WriteAt(f, |b|, d), b + c, ps[1..]);
    }
  }

  lemma {:induction false} HoldsIs(f: Bytes, b: Bytes)
    requires Holds(f, b)
    ensures f == Fitted(b, |f|)
  {
  }

  /** Exactly when a file preallocated at n bytes ends up as its parts, neither cut off
      nor filled up. */
  lemma {:induction false} AssembleExact(n: nat, ps: seq<Part>)
    ensures Assemble(Zeros(n), 0, ps).0 == Fitted(PartsBytes(ps), Max(n, Extent(0, ps)))
    ensures Assemble(Zeros(n), 0, ps).0 == PartsBytes(ps) <==> Max(n, Extent(0, ps)) == |PartsBytes(ps)|
  {
    hide PartsBytes, Assemble, Extent;
    assert Holds(Zeros(n), []);
    AssembleIs(Zeros(n), [], ps);
    assert [] + PartsBytes(ps) == PartsBytes(ps);
  }

  // ------------------------------------------------------------------ verified reads

  /** ReadData then the digest check. */
  method VerifyAndRead(file: Option<Bytes>, loc: Locate.Location, blob: Digest) returns (r: Option<Bytes>)
    ensures r.Some? ==> |r.value| == loc.size && blob(r.value) == loc.sha
    ensures r.Some? <==> file.Some? && loc.offset + loc.size <= |file.value|
                         && blob(file.value[loc.offset..loc.offset + loc.size]) == loc.sha
  {
    if file == None || loc.offset + loc.size > |file.value| { return None; }
    var data := file.value[loc.offset..loc.offset + loc.size];
    if blob(data) != loc.sha { return None; }
    r := Some(data);
  }

  datatype Range = Range(offset: nat, size: nat)

  /** A peer that serves the file, every time. */
  ghost predicate Honest(peer: Peer, remote: Bytes) {
    forall n: nat, off: nat, size: nat :: off + size <= |remote| ==> peer(n, off, size) == Some(remote[off..off + size])
  }

  /** fetchRanges: one request per range; any failure fails the whole batch. */
  method FetchRanges(peer: Peer, calls: nat, ranges: seq<Range>) returns (results: Option<seq<Bytes>>, next: nat)
    ensures results.Some? <==>
              forall i :: 0 <= i < |ranges| ==> peer(calls + i, ranges[i].offset, ranges[i].size).Some?
    ensures results.Some? ==> |results.value| == |ranges| && next == calls + |ranges|
    ensures results.Some? ==> forall i :: 0 <= i < |ranges| ==>
              peer(calls + i, ranges[i].offset, ranges[i].size) == Some(results.value[i])
    ensures |ranges| == 1 ==> next == calls + 1
  {
    var out: seq<Bytes> := [];
    next := calls;
    for i := 0 to |ranges|
      invariant next == calls + i && |out| == i
      invariant forall j :: 0 <= j < i ==> peer(calls + j, ranges[j].offset, ranges[j].size) == Some(out[j])
    {
      var data := peer(next, ranges[i].offset, ranges[i].size);
      next := next + 1;
      if data == None { return None, next; }
      out := out + [data.value];
    }
    results := Some(out);
  }

  // --------------------------------------------------------------- planning a file

  datatype Chunk = Chunk(sha: Sha, size: u32, remoteOffset: nat, local: Option<Locate.Location>)

  predicate IsHole(blob: Digest, c: Chunk) { c.size == C.BLOB_MAX && c.sha == ZeroSha(blob) }

  /** The chunk has to come from the peer from the start. */
  predicate NeedsPeer(blob: Digest, c: Chunk) { c.local == None && !IsHole(blob, c) }

  /** The digests that the first k references name. */
  function ShasOf(refs: seq<u32>, es: seq<Tsc.Entry>, k: nat): seq<Sha>
    requires k <= |refs| && forall j :: 0 <= j < k ==> refs[j] < |es|
  {
    if k == 0 then [] else ShasOf(refs, es, k - 1) + [es[refs[k - 1]].sha]
  }

  /** What a scan of the local snapshots gives for reference k, in the order that the
      lookups before it have left them in. */
  function Sought(ds: seq<Locate.Disk>, refs: seq<u32>, es: seq<Tsc.Entry>, k: nat): Option<Locate.Location>
    requires k < |refs| && forall j :: 0 <= j <= k ==> refs[j] < |es|
  {
    ChunkIndex.Scan(ChunkIndex.Order(ds, ShasOf(refs, es, k)), es[refs[k]].sha)
  }

  ghost predicate PlannedAt(ds: seq<Locate.Disk>, refs: seq<u32>, es: seq<Tsc.Entry>, c: Chunk, k: nat) {
    && k < |refs| && (forall j :: 0 <= j <= k ==> refs[j] < |es|)
    && c.sha == es[refs[k]].sha && c.size == es[refs[k]].size
    && c.remoteOffset == Locate.SizeSum(refs, es, k) && c.local == Sought(ds, refs, es, k)
  }

  ghost predicate Planned(ds: seq<Locate.Disk>, refs: seq<u32>, es: seq<Tsc.Entry>, cs: seq<Chunk>) {
    |cs| <= |refs| && forall k :: 0 <= k < |cs| ==> PlannedAt(ds, refs, es, cs[k], k)
  }

  lemma {:induction false} PlannedSnoc(ds: seq<Locate.Disk>, refs: seq<u32>, es: seq<Tsc.Entry>, cs: seq<Chunk>,
                                       c: Chunk)
    requires Planned(ds, refs, es, cs) && PlannedAt(ds, refs, es, c, |cs|)
    ensures Planned(ds, refs, es, cs + [c])
  {
    hide PlannedAt;
    assert |cs| < |refs| by { PlannedRange(ds, refs, es, c, |cs|); }
  }

  lemma {:induction false} PlannedRange(ds: seq<Locate.Disk>, refs: seq<u32>, es: seq<Tsc.Entry>, c: Chunk, k: nat)
    requires PlannedAt(ds, refs, es, c, k)
    ensures k < |refs| && refs[k] < |es|
  {
  }

  /** The first loop of downloadFile: resolve every reference and look for it here. */
  method PlanChunks(refs: seq<u32>, es: seq<Tsc.Entry>, ci: ChunkIndex.Index) returns (cs: seq<Chunk>, ok: bool)
    requires ci.Valid()
    modifies ci
    ensures ci.Valid() && Planned(old(ChunkIndex.Disks(ci.snaps)), refs, es, cs)
    ensures ok <==> |cs| == |refs|
    ensures ok <==> forall k :: 0 <= k < |refs| ==> refs[k] < |es|
  {
    hide ChunkIndex.Scan, ChunkIndex.Reordered, ChunkIndex.Order, Locate.SortedView, Locate.Present, Planned,
         ShasOf, Locate.PointsInto;
    ghost var ds := ChunkIndex.Disks(ci.snaps);
    cs := [];
    assert Planned(ds, refs, es, cs) by { NonePlanned(ds, refs, es); }
    var remoteOffset := 0;
    NoneSought(ds, refs, es);
    for i := 0 to |refs|
      invariant ci.Valid() && |cs| == i && Planned(ds, refs, es, cs)
      invariant forall k :: 0 <= k < i ==> refs[k] < |es|
      invariant remoteOffset == Locate.SizeSum(refs, es, i)
      invariant ChunkIndex.Disks(ci.snaps) == ChunkIndex.Order(ds, ShasOf(refs, es, i))
    {
      if refs[i] >= |es| { return cs, false; }
      var e := es[refs[i]];
      var local := ci.FindChunk(e.sha);
      SoughtNext(ds, refs, es, i);
      PlannedSnoc(ds, refs, es, cs, Chunk(e.sha, e.size, remoteOffset, local));
      cs := cs + [Chunk(e.sha, e.size, remoteOffset, local)];
      remoteOffset := remoteOffset + e.size;
    }
    ok := true;
  }

  lemma {:induction false} NoneSought(ds: seq<Locate.Disk>, refs: seq<u32>, es: seq<Tsc.Entry>)
    ensures ChunkIndex.Order(ds, ShasOf(refs, es, 0)) == ds
  {
  }

  lemma {:induction false} SoughtNext(ds: seq<Locate.Disk>, refs: seq<u32>, es: seq<Tsc.Entry>, k: nat)
    requires k < |refs| && forall j :: 0 <= j <= k ==> refs[j] < |es|
    ensures ChunkIndex.Order(ds, ShasOf(refs, es, k + 1))
            == ChunkIndex.Reordered(ChunkIndex.Order(ds, ShasOf(refs, es, k)), es[refs[k]].sha)
  {
    hide ChunkIndex.Reordered;
    var shas := ShasOf(refs, es, k + 1);
    assert shas[..|shas| - 1] == ShasOf(refs, es, k);
  }

  lemma {:induction false} NonePlanned(ds: seq<Locate.Disk>, refs: seq<u32>, es: seq<Tsc.Entry>)
    ensures Planned(ds, refs, es, [])
  {
  }

  lemma {:induction false} ScanSha(ds: seq<Locate.Disk>, sha: Sha)
    ensures ChunkIndex.Scan(ds, sha).Some? ==> ChunkIndex.Scan(ds, sha).value.sha == sha
  {
    hide ChunkIndex.FirstHit, Locate.ReadContent, Locate.FreshLocs, Locate.ViewEntries;
  }

  /** The chunks to fetch, in order. */
  function Wanted(blob: Digest, cs: seq<Chunk>): (todo: seq<nat>)
    ensures forall j :: 0 <= j < |todo| ==> todo[j] < |cs|
  {
    if cs == [] then []
    else Wanted(blob, cs[..|cs| - 1]) + if NeedsPeer(blob, cs[|cs| - 1]) then [|cs| - 1] else []
  }

  lemma {:induction false} WantedIs(blob: Digest, cs: seq<Chunk>)
    ensures forall j :: 0 <= j < |Wanted(blob, cs)| ==> NeedsPeer(blob, cs[Wanted(blob, cs)[j]])
    ensures forall k :: 0 <= k < |cs| && NeedsPeer(blob, cs[k]) ==> k in Wanted(blob, cs)
  {
    hide NeedsPeer;
    if cs != [] {
      var n := |cs| - 1;
      WantedIs(blob, cs[..n]);
      var w := Wanted(blob, cs[..n]);
      forall k | 0 <= k < n && NeedsPeer(blob, cs[k]) ensures k in Wanted(blob, cs) { assert cs[..n][k] == cs[k]; }
      if NeedsPeer(blob, cs[n]) { assert (w + [n])[|w|] == n; }
    }
  }

  method RemoteChunks(blob: Digest, cs: seq<Chunk>) returns (todo: seq<nat>)
    ensures todo == Wanted(blob, cs)
  {
    todo := [];
    for i := 0 to |cs|
      invariant todo == Wanted(blob, cs[..i])
    {
      assert cs[..i + 1][..i] == cs[..i];
      if cs[i].local == None {
        if !(cs[i].size == C.BLOB_MAX && cs[i].sha == ZeroSha(blob)) { todo := todo + [i]; }
      }
    }
    assert cs[..|cs|] == cs;
  }

  /** remote holds, where the plan says, bytes with the digest the plan says. */
  ghost predicate Serves(blob: Digest, remote: Bytes, cs: seq<Chunk>) {
    forall k :: 0 <= k < |cs| ==>
      && cs[k].remoteOffset + cs[k].size <= |remote|
      && blob(remote[cs[k].remoteOffset..cs[k].remoteOffset + cs[k].size]) == cs[k].sha
  }

  /** Fetched data is kept only under the digest it was asked for. */
  ghost predicate Checked(blob: Digest, cs: seq<Chunk>, data: map<nat, Bytes>) {
    forall i :: i in data ==> i < |cs| && blob(data[i]) == cs[i].sha
  }

  const BATCH := 16

  /** Request number n for the chunk is answered with bytes that have its digest. */
  predicate Answers(blob: Digest, peer: Peer, n: nat, c: Chunk) {
    var d := peer(n, c.remoteOffset, c.size);
    d.Some? && blob(d.value) == c.sha
  }

  /** Fetching in batches, every answer checked. */
  method FetchAll(blob: Digest, peer: Peer, cs: seq<Chunk>, todo: seq<nat>)
    returns (data: map<nat, Bytes>, ok: bool, calls: nat)
    requires forall j :: 0 <= j < |todo| ==> todo[j] < |cs|
    ensures Checked(blob, cs, data)
    ensures ok <==> forall j :: 0 <= j < |todo| ==> Answers(blob, peer, j, cs[todo[j]])
    ensures ok ==> calls == |todo| && forall j :: 0 <= j < |todo| ==> todo[j] in data
  {
    hide Answers;
    data, calls := map[], 0;
    var i := 0;
    while i < |todo|
      invariant 0 <= i && Checked(blob, cs, data) && calls == if i < |todo| then i else |todo|
      invariant forall j :: 0 <= j < i && j < |todo| ==> todo[j] in data && Answers(blob, peer, j, cs[todo[j]])
    {
      var end := if i + BATCH > |todo| then |todo| else i + BATCH;
      var good;
      data, good, calls := FetchBatch(blob, peer, calls, cs, todo[i..end], data);
      BatchAnswers(blob, peer, cs, todo, i, end);
      if !good { return data, false, calls; }
      i := i + BATCH;
    }
    ok := true;
  }

  lemma {:induction false} BatchAnswers(blob: Digest, peer: Peer, cs: seq<Chunk>, todo: seq<nat>, i: nat, end: nat)
    requires i <= end <= |todo| && forall j :: 0 <= j < |todo| ==> todo[j] < |cs|
    ensures forall j :: i <= j < end ==> todo[j] == todo[i..end][j - i]
    ensures (forall j :: 0 <= j < |todo[i..end]| ==> Answers(blob, peer, i + j, cs[todo[i..end][j]]))
            <==> forall j :: i <= j < end ==> Answers(blob, peer, j, cs[todo[j]])
  {
    hide Answers;
    if forall j :: 0 <= j < |todo[i..end]| ==> Answers(blob, peer, i + j, cs[todo[i..end][j]]) {
      forall j | i <= j < end ensures Answers(blob, peer, j, cs[todo[j]]) {
        assert Answers(blob, peer, i + (j - i), cs[todo[i..end][j - i]]);
      }
    }
  }

  method FetchBatch(blob: Digest, peer: Peer, calls: nat, cs: seq<Chunk>, batch: seq<nat>, have: map<nat, Bytes>)
    returns (data: map<nat, Bytes>, ok: bool, next: nat)
    requires forall j :: 0 <= j < |batch| ==> batch[j] < |cs|
    requires Checked(blob, cs, have)
    ensures Checked(blob, cs, data)
    ensures forall i :: i in have ==> i in data
    ensures ok <==> forall j :: 0 <= j < |batch| ==> Answers(blob, peer, calls + j, cs[batch[j]])
    ensures ok ==> next == calls + |batch| && forall j :: 0 <= j < |batch| ==> batch[j] in data
  {
    var ranges := seq(|batch|, j requires 0 <= j < |batch| => Range(cs[batch[j]].remoteOffset, cs[batch[j]].size));
    var results;
    results, next := FetchRanges(peer, calls, ranges);
    data := have;
    if results == None {
      assert exists j :: 0 <= j < |ranges| && peer(calls + j, ranges[j].offset, ranges[j].size).None?;
      return data, false, next;
    }
    for j := 0 to |batch|
      invariant Checked(blob, cs, data)
      invariant forall i :: i in have ==> i in data
      invariant forall k :: 0 <= k < j ==> batch[k] in data && Answers(blob, peer, calls + k, cs[batch[k]])
    {
      var idx := batch[j];
      assert peer(calls + j, ranges[j].offset, ranges[j].size) == Some(results.value[j]);
      if blob(results.value[j]) != cs[idx].sha { return data, false, next; }
      data := data[idx := results.value[j]];
    }
    ok := true;
  }

  // ------------------------------------------------------------------ writing it out

  /** What a part must be to stand for its chunk. */
  ghost predicate Stands(blob: Digest, c: Chunk, p: Part) {
    if IsHole(blob, c) then p == Hole else p.Data? && blob(p.bytes) == c.sha
  }

  /** The local file still has the bytes at the location. */
  predicate Verifies(blob: Digest, file: Option<Bytes>, loc: Locate.Location) {
    && file.Some? && loc.offset + loc.size <= |file.value|
    && blob(file.value[loc.offset..loc.offset + loc.size]) == loc.sha
  }

  /** Chunk n can be copied from here. */
  predicate LocalGood(blob: Digest, files: Files, n: nat, c: Chunk) {
    c.local.Some? && Verifies(blob, files(n, c.local.value), c.local.value)
  }

  /** Chunk n was found here but has to be fetched after all. */
  predicate FallsBack(blob: Digest, files: Files, n: nat, c: Chunk) {
    !IsHole(blob, c) && c.local.Some? && !LocalGood(blob, files, n, c)
  }

  function Fallbacks(blob: Digest, files: Files, cs: seq<Chunk>, k: nat): (n: nat)
    requires k <= |cs|
  {
    if k == 0 then 0 else Fallbacks(blob, files, cs, k - 1) + if FallsBack(blob, files, k - 1, cs[k - 1]) then 1 else 0
  }

  /** One chunk to write: the local copy if it verifies, else the peer's. */
  method Obtain(blob: Digest, peer: Peer, calls: nat, files: Files, n: nat, c: Chunk, fetched: Option<Bytes>)
    returns (d: Option<Bytes>, next: nat)
    requires !IsHole(blob, c) && (c.local.Some? ==> c.local.value.sha == c.sha)
    requires fetched.Some? ==> blob(fetched.value) == c.sha
    ensures d.Some? ==> blob(d.value) == c.sha
    ensures d.Some? <==> if c.local == None then fetched.Some?
                         else LocalGood(blob, files, n, c) || Answers(blob, peer, calls, c)
    ensures next == calls + if FallsBack(blob, files, n, c) then 1 else 0
  {
    next := calls;
    if c.local.Some? {
      d := VerifyAndRead(files(n, c.local.value), c.local.value, blob);
      if d == None {
        var ranges := [Range(c.remoteOffset, c.size)];
        var got;
        got, next := FetchRanges(peer, calls, ranges);
        if got == None {
          assert peer(calls + 0, ranges[0].offset, ranges[0].size).None?;
          return None, next;
        }
        assert peer(calls + 0, ranges[0].offset, ranges[0].size) == Some(got.value[0]);
        if |got.value| != 1 || blob(got.value[0]) != c.sha { return None, next; }
        d := Some(got.value[0]);
      }
    } else {
      d := fetched;
    }
  }

  lemma {:induction false} StandsSnoc(blob: Digest, cs: seq<Chunk>, ps: seq<Part>, p: Part)
    requires |ps| < |cs| && (forall k :: 0 <= k < |ps| ==> Stands(blob, cs[k], ps[k])) && Stands(blob, cs[|ps|], p)
    ensures forall k :: 0 <= k < |ps + [p]| ==> Stands(blob, cs[k], (ps + [p])[k])
  {
    hide Stands;
  }

  /** Chunk k is put down: a hole, fetched before, copied from here, or fetched now. */
  predicate Ready(blob: Digest, peer: Peer, files: Files, cs: seq<Chunk>, calls: nat, have: set<nat>, k: nat)
    requires k < |cs|
  {
    || IsHole(blob, cs[k])
    || (if cs[k].local == None then k in have
        else LocalGood(blob, files, k, cs[k])
             || Answers(blob, peer, calls + Fallbacks(blob, files, cs, k), cs[k]))
  }

  /** The write loop. */
  method WriteChunks(blob: Digest, peer: Peer, calls: nat, files: Files, cs: seq<Chunk>, data: map<nat, Bytes>,
                     out: OutFile)
    returns (ok: bool, next: nat, ghost ps: seq<Part>)
    requires Checked(blob, cs, data)
    requires forall k :: 0 <= k < |cs| ==> cs[k].local.Some? ==> cs[k].local.value.sha == cs[k].sha
    modifies out
    ensures ok ==> |ps| == |cs| && forall k :: 0 <= k < |cs| ==> Stands(blob, cs[k], ps[k])
    ensures ok ==> (out.content, out.pos) == Assemble(old(out.content), old(out.pos), ps)
    ensures ok <==> forall k :: 0 <= k < |cs| ==> Ready(blob, peer, files, cs, calls, data.Keys, k)
    ensures ok ==> next == calls + Fallbacks(blob, files, cs, |cs|)
  {
    hide WriteAt, Assemble, LocalGood, Answers;
    ps := [];
    NothingDown(out.content, out.pos);
    next := calls;
    for i := 0 to |cs|
      invariant |ps| == i && forall k :: 0 <= k < i ==> Stands(blob, cs[k], ps[k])
      invariant (out.content, out.pos) == Assemble(old(out.content), old(out.pos), ps)
      invariant next == calls + Fallbacks(blob, files, cs, i)
      invariant forall k :: 0 <= k < i ==> Ready(blob, peer, files, cs, calls, data.Keys, k)
    {
      var c := cs[i];
      if c.size == C.BLOB_MAX && c.sha == ZeroSha(blob) {
        AssembleSnoc(old(out.content), old(out.pos), ps, Hole);
        StandsSnoc(blob, cs, ps, Hole);
        out.Skip(c.size);
        ps := ps + [Hole];
      } else {
        var d;
        d, next := Obtain(blob, peer, next, files, i, c, if i in data then Some(data[i]) else None);
        if d == None {
          assert !Ready(blob, peer, files, cs, calls, data.Keys, i);
          return false, next, ps;
        }
        AssembleSnoc(old(out.content), old(out.pos), ps, Data(d.value));
        StandsSnoc(blob, cs, ps, Data(d.value));
        out.Write(d.value);
        ps := ps + [Data(d.value)];
      }
    }
    ok := true;
  }

  // ---------------------------------------------------------------- the whole file

  /** The record of a block of zeros, which is left as a hole. */
  predicate IsZeroBlock(blob: Digest, e: Tsc.Entry) { e.size == C.BLOB_MAX && e.sha == ZeroSha(blob) }

  /** A part that stands for a chunk record of the snapshot. */
  ghost predicate PartFor(blob: Digest, e: Tsc.Entry, p: Part) {
    if IsZeroBlock(blob, e) then p == Hole else p.Data? && blob(p.bytes) == e.sha
  }

  /** The parts written are, one for one, what the references name. */
  ghost predicate Delivered(blob: Digest, refs: seq<u32>, es: seq<Tsc.Entry>, ps: seq<Part>) {
    && |ps| == |refs|
    && forall k :: 0 <= k < |refs| ==> refs[k] < |es| && PartFor(blob, es[refs[k]], ps[k])
  }

  /** The peer's file holds, where the stated sizes put them, bytes with the digests
      referred to. */
  ghost predicate ServesRefs(blob: Digest, remote: Bytes, refs: seq<u32>, es: seq<Tsc.Entry>) {
    && (forall k :: 0 <= k < |refs| ==> refs[k] < |es|)
    && forall k :: 0 <= k < |refs| ==>
         var off, e := Locate.SizeSum(refs, es, k), es[refs[k]];
         off + e.size <= |remote| && blob(remote[off..off + e.size]) == e.sha
  }

  lemma {:induction false} PlanServes(blob: Digest, remote: Bytes, ds: seq<Locate.Disk>, refs: seq<u32>,
                                      es: seq<Tsc.Entry>, cs: seq<Chunk>)
    requires ServesRefs(blob, remote, refs, es) && Planned(ds, refs, es, cs)
    ensures Serves(blob, remote, cs)
  {
    hide Locate.SizeSum, Sought;
  }

  /** What a successful download leaves: the parts the references name, one after
      another, cut off or filled up as the recorded size has it. Nothing is fetched for
      an entry without chunks. */
  ghost predicate Outcome(blob: Digest, entry: Entry, es: seq<Tsc.Entry>, ps: seq<Part>, content: Bytes) {
    && (if entry.chunkCount == 0 then ps == [] else Delivered(blob, entry.chunkRefs, es, ps))
    && content == Fitted(PartsBytes(ps), Max(entry.size, Extent(0, ps)))
  }

  /** The entry attests a file of the tree, and no two of the chunks in play collide. */
  ghost predicate Genuine(blob: Digest, s: set<Bytes>, start: int, entry: Entry, es: seq<Tsc.Entry>, tree: Meaning.Tree,
                          ps: seq<Part>) {
    && entry.typ == FILE && Meaning.EntryAttests(blob, start, entry, es, tree)
    && Meaning.CollisionFree(blob, s) && Zeros(C.BLOB_MAX) in s
    && (forall c :: c in C.Chunks(tree[entry.path].content) ==> c in s)
    && InPlay(s, ps)
  }

  ghost predicate InPlay(s: set<Bytes>, ps: seq<Part>) {
    forall k :: 0 <= k < |ps| ==> ps[k].Data? ==> ps[k].bytes in s
  }

  /** The peer has the file that the entry attests. */
  ghost predicate HasFile(blob: Digest, start: int, entry: Entry, es: seq<Tsc.Entry>, tree: Meaning.Tree,
                          remote: Bytes) {
    && entry.typ == FILE && Meaning.EntryAttests(blob, start, entry, es, tree)
    && remote == tree[entry.path].content
  }

  /** Every request of the plan cs is met: first those for chunks found nowhere here,
      in order, then those for chunks that turn out unreadable here. */
  ghost predicate Succeeds(blob: Digest, peer: Peer, files: Files, cs: seq<Chunk>) {
    var todo := Wanted(blob, cs);
    && (forall j :: 0 <= j < |todo| ==> Answers(blob, peer, j, cs[todo[j]]))
    && (forall k :: 0 <= k < |cs| && FallsBack(blob, files, k, cs[k]) ==>
          Answers(blob, peer, |todo| + Fallbacks(blob, files, cs, k), cs[k]))
  }

  /** The requests that the plan takes. */
  ghost function Requests(blob: Digest, files: Files, cs: seq<Chunk>): nat {
    |Wanted(blob, cs)| + Fallbacks(blob, files, cs, |cs|)
  }

  /** downloadFile. It succeeds if and only if all references are in range and every
      request of the plan is met. Success means the chunks referred to, one after
      another, if and only if the recorded size agrees with them; for an entry that
      attests a tree it means the original bytes of the file, however the local files
      and the peer behaved. */
  method DownloadFile(blob: Digest, entry: Entry, es: seq<Tsc.Entry>, ci: ChunkIndex.Index, peer: Peer, files: Files)
    returns (out: OutFile, ok: bool, calls: nat, ghost ps: seq<Part>, ghost cs: seq<Chunk>)
    requires ci.Valid()
    modifies ci
    ensures ci.Valid() && fresh(out)
    ensures Planned(old(ChunkIndex.Disks(ci.snaps)), entry.chunkRefs, es, cs)
    ensures ok <==> entry.chunkCount == 0 || (|cs| == |entry.chunkRefs| && Succeeds(blob, peer, files, cs))
    ensures entry.chunkCount != 0 ==>
              (|cs| == |entry.chunkRefs|
               <==> forall k :: 0 <= k < |entry.chunkRefs| ==> entry.chunkRefs[k] < |es|)
    ensures ok ==> calls == if entry.chunkCount == 0 then 0 else Requests(blob, files, cs)
    ensures ok ==> Outcome(blob, entry, es, ps, out.content)
    ensures ok ==> (out.content == PartsBytes(ps) <==> Max(entry.size, Extent(0, ps)) == |PartsBytes(ps)|)
    ensures ok ==> forall s, start, tree: Meaning.Tree :: Genuine(blob, s, start, entry, es, tree, ps) ==>
                     out.content == tree[entry.path].content
    ensures forall remote :: Honest(peer, remote) && ServesRefs(blob, remote, entry.chunkRefs, es) ==> ok
    ensures forall start, tree: Meaning.Tree, remote ::
              Honest(peer, remote) && HasFile(blob, start, entry, es, tree, remote) ==> ok
  {
    hide Outcome, Extent, PartsBytes, Succeeds, Planned, Meaning.CollisionFree, C.Chunks, Resolve, FileEntries, Honest,
         ServesRefs, HasFile;
    ghost var ds := ChunkIndex.Disks(ci.snaps);
    out, ok, calls, ps, cs := Assembled(blob, entry, es, ci, peer, files);
    forall remote | Honest(peer, remote) && ServesRefs(blob, remote, entry.chunkRefs, es) ensures ok {
      InRange(blob, remote, entry.chunkRefs, es);
      if entry.chunkCount != 0 { HonestSucceeds(blob, ds, entry.chunkRefs, es, peer, files, remote, cs); }
    }
    forall start, tree: Meaning.Tree, remote |
      Honest(peer, remote) && HasFile(blob, start, entry, es, tree, remote)
      ensures ok
    {
      AttestedIsServed(blob, start, entry, es, tree, remote);
    }
    if ok {
      FittedExact(blob, entry, es, ps, out.content);
      forall s, start, tree: Meaning.Tree | Genuine(blob, s, start, entry, es, tree, ps)
        ensures out.content == tree[entry.path].content
      {
        OutcomeIsOriginal(blob, s, start, entry, es, tree, ps, out.content);
      }
    }
  }

  /** A peer that serves the references is enough, whatever the local files hold. */
  lemma {:induction false} HonestSucceeds(blob: Digest, ds: seq<Locate.Disk>, refs: seq<u32>, es: seq<Tsc.Entry>,
                                          peer: Peer, files: Files, remote: Bytes, cs: seq<Chunk>)
    requires Planned(ds, refs, es, cs) && Honest(peer, remote) && ServesRefs(blob, remote, refs, es)
    ensures Succeeds(blob, peer, files, cs)
  {
    hide Planned, ServesRefs, Fallbacks, FallsBack, Wanted;
    PlanServes(blob, remote, ds, refs, es, cs);
    forall k, n: nat | 0 <= k < |cs| ensures Answers(blob, peer, n, cs[k]) {
    }
  }

  /** Reference k is to a block of zeros, or the scan of the local snapshots finds it in a
      file that still has bytes with its digest where the location says. */
  ghost predicate IsHere(blob: Digest, ds: seq<Locate.Disk>, refs: seq<u32>, es: seq<Tsc.Entry>, files: Files, k: nat)
    requires k < |refs| && forall j :: 0 <= j <= k ==> refs[j] < |es|
  {
    var e := es[refs[k]];
    || (e.size == C.BLOB_MAX && e.sha == blob(Zeros(C.BLOB_MAX)))
    || (var r := ChunkIndex.Scan(ChunkIndex.Order(ds, ShasOf(refs, es, k)), e.sha);
        r.Some? && var loc := r.value; var f := files(k, loc);
        f.Some? && loc.offset + loc.size <= |f.value| && blob(f.value[loc.offset..loc.offset + loc.size]) == e.sha)
  }

  /** A file that is all here takes no request and no peer. */
  lemma {:induction false} LocalSucceeds(blob: Digest, ds: seq<Locate.Disk>, refs: seq<u32>, es: seq<Tsc.Entry>,
                                         peer: Peer, files: Files, cs: seq<Chunk>)
    requires (forall k :: 0 <= k < |refs| ==> refs[k] < |es|) && Planned(ds, refs, es, cs) && |cs| == |refs|
    requires forall k :: 0 <= k < |refs| ==> IsHere(blob, ds, refs, es, files, k)
    ensures Succeeds(blob, peer, files, cs) && Requests(blob, files, cs) == 0
  {
    hide ChunkIndex.Scan, ChunkIndex.Order, ShasOf, Locate.SizeSum, Wanted, Answers;
    forall k | 0 <= k < |cs| ensures !NeedsPeer(blob, cs[k]) && !FallsBack(blob, files, k, cs[k]) {
      assert IsHere(blob, ds, refs, es, files, k);
      ScanSha(ChunkIndex.Order(ds, ShasOf(refs, es, k)), es[refs[k]].sha);
    }
    NothingWanted(blob, cs);
    NoFallbacks(blob, files, cs, |cs|);
  }

  lemma {:induction false} NothingWanted(blob: Digest, cs: seq<Chunk>)
    requires forall k :: 0 <= k < |cs| ==> !NeedsPeer(blob, cs[k])
    ensures Wanted(blob, cs) == []
  {
    hide NeedsPeer;
    if cs != [] { NothingWanted(blob, cs[..|cs| - 1]); }
  }

  lemma {:induction false} NoFallbacks(blob: Digest, files: Files, cs: seq<Chunk>, k: nat)
    requires k <= |cs| && forall j :: 0 <= j < k ==> !FallsBack(blob, files, j, cs[j])
    ensures Fallbacks(blob, files, cs, k) == 0
  {
    hide FallsBack;
    if k > 0 { NoFallbacks(blob, files, cs, k - 1); }
  }

  /** The loops need what Succeeds asks for, no more and no less. */
  lemma {:induction false} ReadyIff(blob: Digest, peer: Peer, files: Files, cs: seq<Chunk>, have: set<nat>)
    requires forall j :: 0 <= j < |Wanted(blob, cs)| ==> Wanted(blob, cs)[j] in have
    ensures (forall k :: 0 <= k < |cs| ==> Ready(blob, peer, files, cs, |Wanted(blob, cs)|, have, k))
            <==> forall k :: 0 <= k < |cs| && FallsBack(blob, files, k, cs[k]) ==>
                   Answers(blob, peer, |Wanted(blob, cs)| + Fallbacks(blob, files, cs, k), cs[k])
  {
    hide IsHole, LocalGood, Answers, Wanted, Fallbacks;
    WantedIs(blob, cs);
    forall k | 0 <= k < |cs|
      ensures Ready(blob, peer, files, cs, |Wanted(blob, cs)|, have, k)
              <==> FallsBack(blob, files, k, cs[k]) ==>
                     Answers(blob, peer, |Wanted(blob, cs)| + Fallbacks(blob, files, cs, k), cs[k])
    {
      if NeedsPeer(blob, cs[k]) { assert k in Wanted(blob, cs); }
    }
  }

  lemma {:induction false} FittedExact(blob: Digest, entry: Entry, es: seq<Tsc.Entry>, ps: seq<Part>, content: Bytes)
    requires Outcome(blob, entry, es, ps, content)
    ensures content == PartsBytes(ps) <==> Max(entry.size, Extent(0, ps)) == |PartsBytes(ps)|
  {
    hide Delivered, Extent, PartsBytes;
  }

  /** The steps of downloadFile. */
  method Assembled(blob: Digest, entry: Entry, es: seq<Tsc.Entry>, ci: ChunkIndex.Index, peer: Peer, files: Files)
    returns (out: OutFile, ok: bool, calls: nat, ghost ps: seq<Part>, ghost cs: seq<Chunk>)
    requires ci.Valid()
    modifies ci
    ensures ci.Valid() && fresh(out)
    ensures Planned(old(ChunkIndex.Disks(ci.snaps)), entry.chunkRefs, es, cs)
    ensures ok <==> entry.chunkCount == 0 || (|cs| == |entry.chunkRefs| && Succeeds(blob, peer, files, cs))
    ensures entry.chunkCount != 0 ==>
              (|cs| == |entry.chunkRefs|
               <==> forall k :: 0 <= k < |entry.chunkRefs| ==> entry.chunkRefs[k] < |es|)
    ensures ok ==> calls == if entry.chunkCount == 0 then 0 else Requests(blob, files, cs)
    ensures ok ==> Outcome(blob, entry, es, ps, out.content)
  {
    hide Assemble, ChunkIndex.Index.Valid, Extent, PartsBytes, Fitted, Planned, Ready, FallsBack, Answers, Fallbacks,
         Wanted;
    ghost var ds := ChunkIndex.Disks(ci.snaps);
    out := new OutFile();
    out.Truncate(entry.size);
    assert out.content == Zeros(entry.size);
    ps, calls := [], 0;
    AssembleExact(entry.size, ps);
    NothingDown(out.content, 0);
    cs := [];
    NonePlanned(ds, entry.chunkRefs, es);
    if entry.chunkCount == 0 { return out, true, 0, ps, cs; }
    var plan, planned := PlanChunks(entry.chunkRefs, es, ci);
    cs := plan;
    if !planned { return out, false, calls, ps, cs; }
    var todo := RemoteChunks(blob, plan);
    var data, fetched;
    data, fetched, calls := FetchAll(blob, peer, plan, todo);
    if !fetched { return out, false, calls, ps, cs; }
    LocalShas(ds, entry.chunkRefs, es, cs);
    ReadyIff(blob, peer, files, cs, data.Keys);
    ok, calls, ps := WriteChunks(blob, peer, calls, files, plan, data, out);
    AssembleExact(entry.size, ps);
    if ok { StandIn(blob, ds, entry.chunkRefs, es, cs, ps); }
  }

  lemma {:induction false} InRange(blob: Digest, remote: Bytes, refs: seq<u32>, es: seq<Tsc.Entry>)
    requires ServesRefs(blob, remote, refs, es)
    ensures forall k :: 0 <= k < |refs| ==> refs[k] < |es|
  {
  }

  lemma {:induction false} LocalShas(ds: seq<Locate.Disk>, refs: seq<u32>, es: seq<Tsc.Entry>, cs: seq<Chunk>)
    requires Planned(ds, refs, es, cs)
    ensures forall k :: 0 <= k < |cs| ==> cs[k].local.Some? ==> cs[k].local.value.sha == cs[k].sha
  {
    hide Locate.SizeSum, ChunkIndex.Scan, ChunkIndex.Order, ShasOf;
    forall k | 0 <= k < |cs| && cs[k].local.Some? ensures cs[k].local.value.sha == cs[k].sha {
      ScanSha(ChunkIndex.Order(ds, ShasOf(refs, es, k)), es[refs[k]].sha);
    }
  }

  /** What stands for the planned chunks stands for what the references name. */
  lemma {:induction false} StandIn(blob: Digest, ds: seq<Locate.Disk>, refs: seq<u32>, es: seq<Tsc.Entry>,
                                   cs: seq<Chunk>, ps: seq<Part>)
    requires Planned(ds, refs, es, cs) && |cs| == |refs| == |ps|
    requires forall k :: 0 <= k < |cs| ==> Stands(blob, cs[k], ps[k])
    ensures Delivered(blob, refs, es, ps)
  {
    hide Locate.SizeSum, Sought;
    forall k | 0 <= k < |refs| ensures refs[k] < |es| && PartFor(blob, es[refs[k]], ps[k]) {
      assert PlannedAt(ds, refs, es, cs[k], k) && Stands(blob, cs[k], ps[k]);
    }
  }

  // ------------------------------------------------------ the chunks that are named

  /** cs are the bytes in play with the digests that the references name. */
  ghost predicate NamesChunks(blob: Digest, s: set<Bytes>, refs: seq<u32>, es: seq<Tsc.Entry>, cs: seq<Bytes>) {
    && Meaning.CollisionFree(blob, s) && Zeros(C.BLOB_MAX) in s && |cs| == |refs|
    && forall k :: 0 <= k < |refs| ==> refs[k] < |es| && cs[k] in s && blob(cs[k]) == es[refs[k]].sha
  }

  /** How the chunks are put down: only the record's size and digest decide about holes. */
  function Laid(blob: Digest, refs: seq<u32>, es: seq<Tsc.Entry>, cs: seq<Bytes>): (ps: seq<Part>)
    requires |cs| == |refs| && forall k :: 0 <= k < |refs| ==> refs[k] < |es|
    ensures |ps| == |cs|
    ensures forall k :: 0 <= k < |ps| ==> ps[k] == if IsZeroBlock(blob, es[refs[k]]) then Hole else Data(cs[k])
  {
    seq(|cs|, k requires 0 <= k < |cs| => if IsZeroBlock(blob, es[refs[k]]) then Hole else Data(cs[k]))
  }

  /** A part is the chunk its record names, whatever size the record states; so its
      length is the stated one if and only if the chunk's is. */
  lemma {:induction false} PartIsNamed(blob: Digest, s: set<Bytes>, e: Tsc.Entry, c: Bytes, p: Part)
    requires Meaning.CollisionFree(blob, s) && c in s && Zeros(C.BLOB_MAX) in s && (p.Data? ==> p.bytes in s)
    requires blob(c) == e.sha && PartFor(blob, e, p)
    ensures PartBytes(p) == c && p == if IsZeroBlock(blob, e) then Hole else Data(c)
    ensures |PartBytes(p)| == e.size <==> |c| == e.size
  {
  }

  lemma {:induction false} PartsAreNamed(blob: Digest, s: set<Bytes>, refs: seq<u32>, es: seq<Tsc.Entry>,
                                         cs: seq<Bytes>, ps: seq<Part>)
    requires NamesChunks(blob, s, refs, es, cs) && Delivered(blob, refs, es, ps) && InPlay(s, ps)
    ensures ps == Laid(blob, refs, es, cs) && PartsBytes(ps) == Flatten(cs)
  {
    hide PartFor, IsZeroBlock, Meaning.CollisionFree, PartBytes, Flatten;
    forall k | 0 <= k < |cs|
      ensures PartBytes(ps[k]) == cs[k] && ps[k] == Laid(blob, refs, es, cs)[k]
    {
      PartIsNamed(blob, s, es[refs[k]], cs[k], ps[k]);
    }
    assert Map(PartBytes, ps) == cs;
  }

  /** What any successful download leaves, stated sizes true or not: the named chunks,
      cut off or filled up. It is exactly them if and only if the recorded size and the
      end of the last chunk that is no hole reach their length and no further. */
  lemma {:induction false} OutcomeIs(blob: Digest, s: set<Bytes>, entry: Entry, es: seq<Tsc.Entry>, cs: seq<Bytes>,
                                     ps: seq<Part>, content: Bytes)
    requires Outcome(blob, entry, es, ps, content) && entry.chunkCount == |entry.chunkRefs|
    requires NamesChunks(blob, s, entry.chunkRefs, es, cs) && InPlay(s, ps)
    ensures var end := Max(entry.size, Extent(0, Laid(blob, entry.chunkRefs, es, cs)));
            && content == Fitted(Flatten(cs), end)
            && (content == Flatten(cs) <==> end == |Flatten(cs)|)
  {
    hide Delivered, PartsBytes, Extent, Meaning.CollisionFree, Flatten;
    if entry.chunkCount == 0 {
      assert Delivered(blob, entry.chunkRefs, es, ps) by { NoneDelivered(blob, entry.chunkRefs, es); }
    }
    PartsAreNamed(blob, s, entry.chunkRefs, es, cs, ps);
  }

  lemma {:induction false} NoneDelivered(blob: Digest, refs: seq<u32>, es: seq<Tsc.Entry>)
    requires refs == []
    ensures Delivered(blob, refs, es, [])
  {
  }

  // ------------------------------------------------------------ read off before the call

  /** The last reference that states any bytes is no hole. */
  predicate EndsInData(blob: Digest, refs: seq<u32>, es: seq<Tsc.Entry>)
    requires forall k :: 0 <= k < |refs| ==> refs[k] < |es|
  {
    refs != [] &&
    var e := es[refs[|refs| - 1]];
    if e.size == 0 then EndsInData(blob, refs[..|refs| - 1], es) else !IsZeroBlock(blob, e)
  }

  lemma {:induction false} ExtentSnoc(pos: nat, ps: seq<Part>, p: Part)
    ensures Extent(pos, ps + [p])
            == if p == Hole || PartBytes(p) == [] then Extent(pos, ps)
               else pos + |PartsBytes(ps)| + |PartBytes(p)|
    ensures Extent(pos, ps) <= pos + |PartsBytes(ps)|
    decreases |ps|
  {
    hide PartsBytes;
    if ps == [] {
      PartsNone();
      assert ps + [p] == [p] && [p][1..] == [];
    } else {
      PartsCons(ps);
      assert (ps + [p])[0] == ps[0] && (ps + [p])[1..] == ps[1..] + [p];
      ExtentSnoc(pos + |PartBytes(ps[0])|, ps[1..], p);
    }
  }

  /** The records state the lengths of the chunks they name. */
  ghost predicate StatesSizes(refs: seq<u32>, es: seq<Tsc.Entry>, cs: seq<Bytes>) {
    |cs| == |refs| && forall k :: 0 <= k < |refs| ==> refs[k] < |es| && |cs[k]| == es[refs[k]].size
  }

  lemma {:induction false} StatedTotal(refs: seq<u32>, es: seq<Tsc.Entry>, cs: seq<Bytes>, k: nat)
    requires StatesSizes(refs, es, cs) && k <= |refs|
    ensures Locate.SizeSum(refs, es, k) == |Flatten(cs[..k])|
  {
    if k == 0 {
      assert cs[..0] == [];
    } else {
      StatedTotal(refs, es, cs, k - 1);
      TakeSnoc(cs, k - 1);
      FlattenSnoc(cs[..k - 1], cs[k - 1]);
    }
  }

  lemma {:induction false} ExtentReaches(blob: Digest, refs: seq<u32>, es: seq<Tsc.Entry>, cs: seq<Bytes>)
    requires StatesSizes(refs, es, cs)
    ensures var ps := Laid(blob, refs, es, cs);
            && |PartsBytes(ps)| == |Flatten(cs)| && Extent(0, ps) <= |Flatten(cs)|
            && (Extent(0, ps) == |Flatten(cs)| <==> |Flatten(cs)| == 0 || EndsInData(blob, refs, es))
    decreases |refs|
  {
    hide PartsBytes, Flatten, IsZeroBlock, Extent;
    var ps := Laid(blob, refs, es, cs);
    if refs == [] {
      PartsNone();
      FlattenNone();
      ExtentSnoc(0, [], Hole);
    } else {
      var n := |refs| - 1;
      ExtentReaches(blob, refs[..n], es, cs[..n]);
      LaidSnoc(blob, refs, es, cs);
      var init := Laid(blob, refs[..n], es, cs[..n]);
      ExtentSnoc(0, init, ps[n]);
      PartsSnoc(init, ps[n]);
      FlattenSnoc(cs[..n], cs[n]);
      TakeSnoc(cs, n);
      assert cs[..n + 1] == cs;
    }
  }

  lemma {:induction false} LaidSnoc(blob: Digest, refs: seq<u32>, es: seq<Tsc.Entry>, cs: seq<Bytes>)
    requires StatesSizes(refs, es, cs) && refs != []
    ensures var n, ps := |refs| - 1, Laid(blob, refs, es, cs);
            && ps == Laid(blob, refs[..n], es, cs[..n]) + [ps[n]] && |PartBytes(ps[n])| == |cs[n]|
            && (ps[n] == Hole <==> IsZeroBlock(blob, es[refs[n]]))
  {
  }

  lemma {:induction false} PartsSnoc(ps: seq<Part>, p: Part)
    ensures PartsBytes(ps + [p]) == PartsBytes(ps) + PartBytes(p)
  {
    assert Map(PartBytes, ps + [p]) == Map(PartBytes, ps) + [PartBytes(p)];
    FlattenSnoc(Map(PartBytes, ps), PartBytes(p));
  }

  /** Where the records state true sizes, success means the named chunks exactly if the
      recorded size is the sum of theirs, or is less and the last of them is no hole. */
  lemma {:induction false} SizesDecide(blob: Digest, s: set<Bytes>, entry: Entry, es: seq<Tsc.Entry>, cs: seq<Bytes>,
                                       ps: seq<Part>, content: Bytes)
    requires Outcome(blob, entry, es, ps, content) && entry.chunkCount == |entry.chunkRefs|
    requires NamesChunks(blob, s, entry.chunkRefs, es, cs) && InPlay(s, ps)
    requires StatesSizes(entry.chunkRefs, es, cs)
    ensures var total := Locate.SizeSum(entry.chunkRefs, es, |entry.chunkRefs|);
            content == Flatten(cs)
            <==> entry.size == total || (entry.size < total && EndsInData(blob, entry.chunkRefs, es))
  {
    hide Outcome, NamesChunks, Extent, Flatten, EndsInData, Locate.SizeSum, InPlay, Laid;
    OutcomeIs(blob, s, entry, es, cs, ps, content);
    ExtentReaches(blob, entry.chunkRefs, es, cs);
    StatedTotal(entry.chunkRefs, es, cs, |entry.chunkRefs|);
    assert cs[..|cs|] == cs;
  }

  /** A file entry with one reference. */
  function OneChunk(path: Bytes, size: u64): Entry {
    BaseEntry(path, Stat(0, 0, 0, size, 0, 0, 0), FILE).(chunkRefs := [0], chunkCount := 1)
  }

  /** A recorded size beyond the data: a peer that has the data makes the download
      succeed, and the file ends in zeros that nobody referred to. */
  lemma {:induction false} Overstated(blob: Digest, s: set<Bytes>, path: Bytes, d: Bytes, size: u64, ps: seq<Part>,
                                      content: Bytes)
    requires |d| < size && |d| <= C.BLOB_READ_SIZE && blob(d) != ZeroSha(blob)
    requires Meaning.CollisionFree(blob, s) && d in s && Zeros(C.BLOB_MAX) in s && InPlay(s, ps)
    requires Outcome(blob, OneChunk(path, size), [EntryOf(blob, d)], ps, content)
    ensures ServesRefs(blob, d, [0], [EntryOf(blob, d)])
    ensures content == d + Zeros(size - |d|) && content != d
  {
    hide Outcome, EntryOf, Meaning.CollisionFree;
    Locate.RecordFields(blob, d);
    FlattenOne(d);
    OutcomeIs(blob, s, OneChunk(path, size), [EntryOf(blob, d)], [d], ps, content);
    assert Laid(blob, [0], [EntryOf(blob, d)], [d]) == [Data(d)];
    assert d[0..|d|] == d;
  }

  /** A recorded size short of a hole at the end: the file ends early. */
  lemma {:induction false} Understated(blob: Digest, s: set<Bytes>, path: Bytes, size: u64, ps: seq<Part>,
                                       content: Bytes)
    requires size < C.BLOB_MAX && Meaning.CollisionFree(blob, s) && Zeros(C.BLOB_MAX) in s && InPlay(s, ps)
    requires Outcome(blob, OneChunk(path, size), [EntryOf(blob, Zeros(C.BLOB_MAX))], ps, content)
    ensures ServesRefs(blob, Zeros(C.BLOB_MAX), [0], [EntryOf(blob, Zeros(C.BLOB_MAX))])
    ensures content == Zeros(size) && content != Zeros(C.BLOB_MAX)
  {
    hide Outcome, EntryOf, Meaning.CollisionFree;
    var z := Zeros(C.BLOB_MAX);
    Locate.RecordFields(blob, z);
    FlattenOne(z);
    OutcomeIs(blob, s, OneChunk(path, size), [EntryOf(blob, z)], [z], ps, content);
    assert Laid(blob, [0], [EntryOf(blob, z)], [z]) == [Hole];
    assert z[0..|z|] == z;
  }

  // -------------------------------------------------------------- attested files

  /** What was delivered for an attested file is the file: local deduplication, holes
      and fallbacks leave no trace. */
  lemma {:induction false} DeliveredIsOriginal(blob: Digest, s: set<Bytes>, start: int, entry: Entry,
                                               es: seq<Tsc.Entry>, tree: Meaning.Tree, ps: seq<Part>)
    requires Genuine(blob, s, start, entry, es, tree, ps) && Delivered(blob, entry.chunkRefs, es, ps)
    ensures PartsBytes(ps) == tree[entry.path].content
    ensures Assemble(Zeros(entry.size), 0, ps).0 == tree[entry.path].content
  {
    hide Delivered, Assemble, PartsBytes, Extent, NamesChunks, C.Chunks, Flatten;
    var cs := C.Chunks(tree[entry.path].content);
    AttestedNames(blob, s, start, entry, es, tree, ps);
    PartsAreNamed(blob, s, entry.chunkRefs, es, cs, ps);
    C.ChunksTile(tree[entry.path].content);
    ExtentSnoc(0, ps, Hole);
    AssembleExact(entry.size, ps);
  }

  lemma {:induction false} AttestedNames(blob: Digest, s: set<Bytes>, start: int, entry: Entry, es: seq<Tsc.Entry>,
                                         tree: Meaning.Tree, ps: seq<Part>)
    requires Genuine(blob, s, start, entry, es, tree, ps)
    ensures NamesChunks(blob, s, entry.chunkRefs, es, C.Chunks(tree[entry.path].content))
    ensures InPlay(s, ps) && entry.size == |tree[entry.path].content| && entry.chunkCount == |entry.chunkRefs|
  {
    hide Resolve, FileEntries, C.Chunks, EntryOf, Meaning.CollisionFree, RacyAdjusted;
    var cs := C.Chunks(tree[entry.path].content);
    Locate.RefsNameChunks(blob, entry.chunkRefs, es, tree[entry.path].content);
    forall k | 0 <= k < |cs| ensures blob(cs[k]) == es[entry.chunkRefs[k]].sha { Locate.RecordFields(blob, cs[k]); }
  }

  /** A successful download of an attested file is that file, empty or not. */
  lemma {:induction false} OutcomeIsOriginal(blob: Digest, s: set<Bytes>, start: int, entry: Entry, es: seq<Tsc.Entry>,
                                             tree: Meaning.Tree, ps: seq<Part>, content: Bytes)
    requires Genuine(blob, s, start, entry, es, tree, ps) && Outcome(blob, entry, es, ps, content)
    ensures content == tree[entry.path].content
  {
    hide Genuine, Delivered, PartsBytes, Extent, NamesChunks, C.Chunks, Flatten;
    AttestedNames(blob, s, start, entry, es, tree, ps);
    if entry.chunkCount == 0 { NoneDelivered(blob, entry.chunkRefs, es); }
    DeliveredIsOriginal(blob, s, start, entry, es, tree, ps);
    ExtentSnoc(0, ps, Hole);
  }

  /** From the tree that was walked to the file that is downloaded: success on any
      file entry of the published manifest, parsed again, gives the bytes the tree
      held under its path. */
  lemma {:induction false} DownloadOfPublished(sha256: Digest, cfg: Config, s: set<Bytes>, st: State,
                                               tree: Meaning.Tree, creation: i64, snap: Parent, i: nat, ps: seq<Part>,
                                               content: Bytes)
    requires Meaning.Truthful(cfg, s, st, tree) && Meaning.Complete(st, tree) && Meaning.Coherent(tree)
    requires Meaning.Covers(s, tree) && Meaning.CollisionFree(cfg.blob, s) && Snapshot.Writable(st)
    requires TscFormat.Parse(sha256, Snapshot.TscFile(sha256, st)) == Ok(snap.tsc)
    requires TsmFormat.Parse(sha256, Snapshot.TsmFile(sha256, st, creation)) == Ok(snap.tsm)
    requires i < |snap.tsm.entries| && snap.tsm.entries[i].typ == FILE
    requires Outcome(cfg.blob, snap.tsm.entries[i], snap.tsc.entries, ps, content)
    requires Zeros(C.BLOB_MAX) in s && InPlay(s, ps)
    ensures snap.tsm.entries[i].path in tree && content == tree[snap.tsm.entries[i].path].content
  {
    hide TscFormat.Parse, TsmFormat.Parse, Snapshot.TscFile, Snapshot.TsmFile, Meaning.Truthful, Meaning.Complete,
         Meaning.Coherent, Meaning.CollisionFree, Snapshot.Writable, Outcome, Meaning.Listed, C.Chunks, Resolve,
         FileEntries, RacyAdjusted, Strict;
    var again := Meaning.PublishedAttests(sha256, cfg, s, st, tree, creation);
    assert again == snap;
    var entry := snap.tsm.entries[i];
    assert Meaning.EntryAttests(cfg.blob, cfg.start, entry, snap.tsc.entries, tree);
    OutcomeIsOriginal(cfg.blob, s, cfg.start, entry, snap.tsc.entries, tree, ps, content);
  }

  /** A peer that has the tree serves every listed file of it. */
  lemma {:induction false} AttestedIsServed(blob: Digest, start: int, entry: Entry, es: seq<Tsc.Entry>,
                                            tree: Meaning.Tree, remote: Bytes)
    requires HasFile(blob, start, entry, es, tree, remote)
    ensures ServesRefs(blob, remote, entry.chunkRefs, es)
  {
    hide Resolve, FileEntries, RacyAdjusted, Locate.SizeSum, C.Chunks;
    Locate.ResolvedRefs(entry.chunkRefs, es);
    forall k | 0 <= k < |entry.chunkRefs|
      ensures var off, e := Locate.SizeSum(entry.chunkRefs, es, k), es[entry.chunkRefs[k]];
              off + e.size <= |remote| && blob(remote[off..off + e.size]) == e.sha
    {
      Locate.LocatedBytes(blob, entry, es, remote, k);
    }
  }
}
