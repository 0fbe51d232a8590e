/** What the identity digest of a manifest binds (tsm/tsm.go:180-290, 312-411): all of
    it but the times, and the chunk file through eight bytes of its digest. */
module Identity {
  import opened Bytes
  import opened Sorting
  import opened TsmEntry
  import opened TsmFormat
  import opened Indexer
  import opened Meaning
  import C = Chunking
  import Incremental
  import Listing
  import Snapshot
  import Tsc
  import TscFormat
  import TsmWriter

  // ------------------------------------------------- what was decoded encodes again

  lemma {:induction false} DecodedFixed(path: Bytes, b: Bytes)
    requires |b| == 54
    ensures var e := DecodeFixed(path, b);
            && e.path == path && e.typ < 16 && e.flags % 16 == 0
            && Strip(e) == e && e.linkTarget == [] && e.linkIndex == 0 && e.devMajor == 0 && e.devMinor == 0
  {
    hide Get16, Get32, Get64;
  }

  lemma {:induction false} DecodedTypeData(e: Entry, b: Bytes)
    requires e.linkTarget == [] && e.linkIndex == 0 && e.devMajor == 0 && e.devMinor == 0 && e.chunkRefs == []
    ensures match WithTypeData(e, b)
            case Err(_) => true
            case Ok(r) =>
              && r.path == e.path && r.typ == e.typ && r.flags == e.flags
              && Strip(r) == r && |TypeData(r)| <= |b|
  {
    hide Get16, Get32;
  }

  /** A decoded entry is one that can be written. */
  lemma {:induction false} DecodedIs(b: Bytes)
    requires 58 <= |b| < 0x1_0000 && Decode(b).Ok?
    ensures Encodable(Decode(b).value) && Strip(Decode(b).value) == Decode(b).value
  {
    hide DecodeFixed, WithTypeData, Get16, TypeData, Strip;
    var n := Get16(b[2..4]);
    DecodedFixed(b[4..4 + n], b[4 + n..58 + n]);
    var e := DecodeFixed(b[4..4 + n], b[4 + n..58 + n]);
    assert e.chunkRefs == [] by { StripsRefs(e); }
    DecodedTypeData(e, b[58 + n..]);
  }

  lemma {:induction false} StripsRefs(e: Entry)
    requires Strip(e) == e
    ensures e.chunkRefs == []
  {
  }

  ghost predicate Writes(es: seq<Entry>) {
    forall i :: 0 <= i < |es| ==> Encodable(es[i]) && Strip(es[i]) == es[i]
  }

  lemma {:induction false} ParsedEntries(s: Bytes, n: nat)
    requires ParseEntries(s, n).Ok?
    ensures |ParseEntries(s, n).value.0| == n && Writes(ParseEntries(s, n).value.0)
    decreases n
  {
    hide Get16, Decode, Encodable, Strip;
    if n > 0 {
      ParseUncons(s, n);
      var len := Get16(s[..2]);
      ParsedEntries(s[len..], n - 1);
      DecodedIs(s[..len]);
    }
  }

  // ------------------------------------------------------------- what the digest covers

  /** header is what this manifest was hashed under. */
  ghost predicate HashedAs(sha256: Digest, r: Reader, header: Bytes) {
    && |header| == HEADER_SIZE && r.header == DecodeHeader(header) && r.header.fileCount == |r.entries|
    && r.sha == sha256(HashInput(header, r.entries, r.table))
    && forall i :: 0 <= i < |r.entries| ==>
         Encodable(r.entries[i]) && r.entries[i] == WithRefs(Strip(r.entries[i]), r.table)
  }

  lemma {:induction false} AttachedIs(e: Entry, table: seq<u32>)
    requires Encodable(e) && Strip(e) == e
    ensures var r := WithRefs(e, table);
            Encodable(r) && Strip(r) == e && r == WithRefs(Strip(r), table) && EncodeForHash(r) == EncodeForHash(e)
  {
    var r := WithRefs(e, table);
    EncodeStrip(r);
  }

  /** Every manifest that parses was hashed under its own header. */
  lemma {:induction false} ParsedIsHashed(sha256: Digest, data: Bytes)
    requires Parse(sha256, data).Ok?
    ensures HashedAs(sha256, Parse(sha256, data).value, data[..HEADER_SIZE])
  {
    hide ParseEntries, DecodeHeader, RefsOf, Encodable, Strip, WithRefs, EncodeForHash, RefBytes;
    var header, end := data[..HEADER_SIZE], |data| - FOOTER_SIZE;
    HeaderPrefix(data, header);
    var (es, rest) := ParseEntries(data[HEADER_SIZE..end], DecodeHeader(data).fileCount).value;
    ParsedEntries(data[HEADER_SIZE..end], DecodeHeader(data).fileCount);
    var table := RefsOf(rest);
    var all := AllWithRefs(es, table);
    forall i | 0 <= i < |es|
      ensures Encodable(all[i]) && all[i] == WithRefs(Strip(all[i]), table)
      ensures EncodeForHash(all[i]) == EncodeForHash(es[i])
    {
      AttachedIs(es[i], table);
    }
    assert Map(EncodeForHash, all) == Map(EncodeForHash, es);
  }

  /** An entry without its times and its references, as the digest sees it. */
  function Hashed(e: Entry): Entry { Strip(e.(ctime := 0, atime := 0)) }

  lemma {:induction false} HashedWrites(e: Entry)
    requires Encodable(e)
    ensures Encodable(e.(ctime := 0, atime := 0)) && Encode(e.(ctime := 0, atime := 0)) == EncodeForHash(e)
  {
  }

  /** The digest's input can be taken apart again. */
  lemma {:induction false} InputParses(header: Bytes, es: seq<Entry>, table: seq<u32>)
    requires |header| == HEADER_SIZE && forall i :: 0 <= i < |es| ==> Encodable(es[i])
    ensures var x := HashInput(header, es, table);
            && |x| >= HEADER_SIZE && x[..HEADER_SIZE] == header
            && ParseEntries(x[HEADER_SIZE..], |es|) == Ok((Map(Hashed, es), RefBytes(table)))
  {
    hide EncodeForHash, Encode, Encodable, RefBytes, ParseEntries, Strip;
    var blank := Map(Timeless, es);
    forall i | 0 <= i < |es| ensures Encodable(blank[i]) && Encode(blank[i]) == EncodeForHash(es[i]) {
      HashedWrites(es[i]);
    }
    assert Map(Encode, blank) == Map(EncodeForHash, es);
    assert Map(Strip, blank) == Map(Hashed, es);
    TsmWriter.BodyParses(blank, RefBytes(table));
    var x := HashInput(header, es, table);
    Assoc(header, TsmWriter.Body(blank), RefBytes(table));
    assert x == header + (TsmWriter.Body(blank) + RefBytes(table));
  }

  /** Manifests, as parsed, that say the same but for their times. */
  ghost predicate SaysSame(a: Reader, b: Reader) {
    a.table == b.table && Map(Timeless, a.entries) == Map(Timeless, b.entries)
  }

  lemma {:induction false} HashedTells(a: Entry, b: Entry, table: seq<u32>)
    requires a == WithRefs(Strip(a), table) && b == WithRefs(Strip(b), table) && Hashed(a) == Hashed(b)
    ensures Timeless(a) == Timeless(b)
  {
  }

  lemma {:induction false} SameInput(header: Bytes, a: Reader, b: Reader)
    requires SaysSame(a, b)
    ensures HashInput(header, a.entries, a.table) == HashInput(header, b.entries, b.table)
  {
    hide Encode, RefBytes, Flatten;
    var x, y := Map(EncodeForHash, a.entries), Map(EncodeForHash, b.entries);
    assert |x| == |Map(Timeless, a.entries)| == |Map(Timeless, b.entries)| == |y|;
    forall i | 0 <= i < |x| ensures x[i] == y[i] {
      assert Map(Timeless, a.entries)[i] == Map(Timeless, b.entries)[i];
    }
    assert x == y;
  }

  lemma {:induction false} InputTells(sha256: Digest, a: Reader, ha: Bytes, b: Reader, hb: Bytes)
    requires HashedAs(sha256, a, ha) && HashedAs(sha256, b, hb)
    requires HashInput(ha, a.entries, a.table) == HashInput(hb, b.entries, b.table)
    ensures ha == hb && SaysSame(a, b)
  {
    hide HashInput, ParseEntries, Encodable, WithRefs, Strip, DecodeHeader, RefBytes, RefsOf, Hashed, Timeless;
    InputParses(ha, a.entries, a.table);
    InputParses(hb, b.entries, b.table);
    RefsRoundTrip(a.table);
    RefsRoundTrip(b.table);
    assert Map(Hashed, a.entries) == Map(Hashed, b.entries);
    forall i | 0 <= i < |a.entries| ensures Timeless(a.entries[i]) == Timeless(b.entries[i]) {
      assert Map(Hashed, a.entries)[i] == Map(Hashed, b.entries)[i];
      HashedTells(a.entries[i], b.entries[i], a.table);
    }
    assert Map(Timeless, a.entries) == Map(Timeless, b.entries);
  }

  /** Short of a collision on the two inputs, two manifests have the same identity if
      and only if they have the same header and say the same but for their times. */
  lemma {:induction false} IdentityExact(sha256: Digest, a: Bytes, b: Bytes)
    requires Parse(sha256, a).Ok? && Parse(sha256, b).Ok?
    requires var x, y := Parse(sha256, a).value, Parse(sha256, b).value;
             NoCollision(sha256, HashInput(a[..HEADER_SIZE], x.entries, x.table),
                         HashInput(b[..HEADER_SIZE], y.entries, y.table))
    ensures var x, y := Parse(sha256, a).value, Parse(sha256, b).value;
            x.sha == y.sha <==> a[..HEADER_SIZE] == b[..HEADER_SIZE] && SaysSame(x, y)
  {
    hide Parse, HashInput, SaysSame;
    var x, y := Parse(sha256, a).value, Parse(sha256, b).value;
    assert |a| >= HEADER_SIZE && |b| >= HEADER_SIZE by { LongEnough(sha256, a); LongEnough(sha256, b); }
    ParsedIsHashed(sha256, a);
    ParsedIsHashed(sha256, b);
    if x.sha == y.sha { InputTells(sha256, x, a[..HEADER_SIZE], y, b[..HEADER_SIZE]); }
    if SaysSame(x, y) { SameInput(a[..HEADER_SIZE], x, y); }
  }

  lemma {:induction false} LongEnough(sha256: Digest, data: Bytes)
    requires Parse(sha256, data).Ok?
    ensures |data| >= HEADER_SIZE
  {
  }

  ghost predicate NoCollision(sha256: Digest, x: Bytes, y: Bytes) { sha256(x) == sha256(y) ==> x == y }

  // --------------------------------------------------- the same identity, the same files

  /** No two different inputs of the digests involved were given the same digest; of the
      chunk file's digest, eight bytes are involved. */
  ghost predicate ToldApart(sha256: Digest, a: Parent, b: Parent) {
    a.tsm.sha == b.tsm.sha ==>
      && (exists ha, hb :: InputsAgree(sha256, a.tsm, ha, b.tsm, hb))
      && (a.tsc.sha[..8] == b.tsc.sha[..8] ==> a.tsc.entries == b.tsc.entries)
  }

  ghost predicate InputsAgree(sha256: Digest, a: Reader, ha: Bytes, b: Reader, hb: Bytes) {
    && HashedAs(sha256, a, ha) && HashedAs(sha256, b, hb)
    && HashInput(ha, a.entries, a.table) == HashInput(hb, b.entries, b.table)
  }

  /** What has the same identity says the same of any tree. */
  lemma {:induction false} SameIdentity(sha256: Digest, blob: Digest, a: Parent, b: Parent, tree: Tree)
    requires a.tsm.sha == b.tsm.sha && ToldApart(sha256, a, b) && Bound(a) && Bound(b)
    requires Holds(blob, a, tree)
    ensures SaysSame(a.tsm, b.tsm) && a.tsc.entries == b.tsc.entries
    ensures Holds(blob, b, tree)
  {
    hide HashedAs, HashInput, SaysSame, Holds;
    var ha, hb :| InputsAgree(sha256, a.tsm, ha, b.tsm, hb);
    InputTells(sha256, a.tsm, ha, b.tsm, hb);
    assert a.tsm.header == b.tsm.header by { SameHeader(sha256, a.tsm, b.tsm, ha); }
    SaysSameHolds(blob, a, b, tree);
  }

  lemma {:induction false} SameHeader(sha256: Digest, a: Reader, b: Reader, header: Bytes)
    requires HashedAs(sha256, a, header) && HashedAs(sha256, b, header)
    ensures a.header == b.header
  {
  }

  lemma {:induction false} SaysSameAt(a: Reader, b: Reader, i: nat)
    requires SaysSame(a, b) && i < |a.entries|
    ensures |b.entries| == |a.entries| && Timeless(a.entries[i]) == Timeless(b.entries[i])
  {
    assert |a.entries| == |Map(Timeless, a.entries)| == |Map(Timeless, b.entries)| == |b.entries|;
    assert Map(Timeless, a.entries)[i] == Map(Timeless, b.entries)[i];
  }

  lemma {:induction false} SaysSameLength(a: Reader, b: Reader)
    requires SaysSame(a, b)
    ensures |b.entries| == |a.entries|
  {
    assert |a.entries| == |Map(Timeless, a.entries)| == |Map(Timeless, b.entries)| == |b.entries|;
  }

  lemma {:induction false} SaysSameHolds(blob: Digest, a: Parent, b: Parent, tree: Tree)
    requires SaysSame(a.tsm, b.tsm) && a.tsc.entries == b.tsc.entries && Holds(blob, a, tree)
    ensures Holds(blob, b, tree)
  {
    hide SaysSame, EntryHolds, Listed, Strict, Map;
    var x, y := a.tsm.entries, b.tsm.entries;
    SaysSameLength(a.tsm, b.tsm);
    forall i | 0 <= i < |x| ensures x[i].path == y[i].path && EntryHolds(blob, y[i], b.tsc.entries, tree) {
      SaysSameAt(a.tsm, b.tsm, i);
      assert EntryHolds(blob, x[i], a.tsc.entries, tree);
      TimelessHolds(blob, x[i], y[i], a.tsc.entries, tree);
    }
    Listing.SamePaths(x, y);
    forall q | q in tree ensures Listed(b.tsm, tree, q) { SaysSameListed(blob, a, b, tree, q); }
  }

  lemma {:induction false} TimelessHolds(blob: Digest, a: Entry, b: Entry, es: seq<Tsc.Entry>, tree: Tree)
    requires Timeless(a) == Timeless(b) && EntryHolds(blob, a, es, tree)
    ensures EntryHolds(blob, b, es, tree)
  {
    hide Resolve, FileEntries;
  }

  lemma {:induction false} SaysSameListed(blob: Digest, a: Parent, b: Parent, tree: Tree, q: Bytes)
    requires SaysSame(a.tsm, b.tsm) && Holds(blob, a, tree) && Strict(PathOf, b.tsm.entries) && q in tree
    ensures Listed(b.tsm, tree, q)
  {
    hide SaysSame, EntryHolds, Lookup, Strict, Timeless;
    var x, y := a.tsm.entries, b.tsm.entries;
    assert Listed(a.tsm, tree, q);
    var i := Lookup(PathOf, x, q).value;
    SaysSameAt(a.tsm, b.tsm, i);
    SameButTimes(x[i], y[i]);
    LookupStrict(PathOf, y, i);
    if x[i].typ == HARDLINK {
      var j := x[i].linkIndex;
      SaysSameAt(a.tsm, b.tsm, j);
      SameButTimes(x[j], y[j]);
    }
  }

  lemma {:induction false} SameButTimes(a: Entry, b: Entry)
    requires Timeless(a) == Timeless(b)
    ensures a.path == b.path && a.typ == b.typ && a.linkIndex == b.linkIndex
  {
  }

  /** One manifest cannot hold two trees that differ where both have a file. */
  lemma {:induction false} HoldsOne(blob: Digest, s: set<Bytes>, snap: Parent, a: Tree, b: Tree, q: Bytes)
    requires Holds(blob, snap, a) && Holds(blob, snap, b) && q in a && q in b
    requires CollisionFree(blob, s) && Covers(s, a) && Covers(s, b)
    ensures a[q].content == b[q].content
  {
    hide CollisionFree, Covers, Strict, Lookup, Resolve, FileEntries, C.Chunks;
    assert Listed(snap.tsm, a, q) && Listed(snap.tsm, b, q);
    var es := snap.tsm.entries;
    var i: nat := Lookup(PathOf, es, q).value;
    var j: nat := if es[i].typ == HARDLINK then es[i].linkIndex else i;
    assert EntryHolds(blob, es[j], snap.tsc.entries, a) && EntryHolds(blob, es[j], snap.tsc.entries, b);
    var p := es[j].path;
    CoversFile(s, a, p);
    CoversFile(s, b, p);
    Incremental.EntriesTell(blob, s, a[p].content, b[p].content);
  }

  lemma {:induction false} CoversFile(s: set<Bytes>, tree: Tree, q: Bytes)
    requires Covers(s, tree) && q in tree
    ensures forall c :: c in C.Chunks(tree[q].content) ==> c in s
  {
    hide C.Chunks;
  }

  /** Manifests that parse are told apart if neither digest collides on them. */
  lemma {:induction false} Told(sha256: Digest, a: Bytes, b: Bytes, x: Parent, y: Parent)
    requires Parse(sha256, a) == Ok(x.tsm) && Parse(sha256, b) == Ok(y.tsm)
    requires |a| >= HEADER_SIZE && |b| >= HEADER_SIZE
    requires NoCollision(sha256, HashInput(a[..HEADER_SIZE], x.tsm.entries, x.tsm.table),
                         HashInput(b[..HEADER_SIZE], y.tsm.entries, y.tsm.table))
    requires x.tsc.sha[..8] == y.tsc.sha[..8] ==> x.tsc.entries == y.tsc.entries
    ensures ToldApart(sha256, x, y)
  {
    hide Parse, HashInput;
    ParsedIsHashed(sha256, a);
    ParsedIsHashed(sha256, b);
    if x.tsm.sha == y.tsm.sha {
      assert InputsAgree(sha256, x.tsm, a[..HEADER_SIZE], y.tsm, b[..HEADER_SIZE]);
    }
  }

  // ------------------------------------------------- the chunk file, by eight bytes only

  /** The manifests of two runs differ at most in what they say of their chunk files. */
  ghost predicate AlikeButChunks(a: State, b: State) {
    && |a.entries| == |b.entries| && TsmWriter.FileTotal(a.entries) == TsmWriter.FileTotal(b.entries)
    && Map(Timeless, TsmWriter.Placed(Snapshot.SortedEntries(a), 0))
       == Map(Timeless, TsmWriter.Placed(Snapshot.SortedEntries(b), 0))
    && Snapshot.RefTable(a) == Snapshot.RefTable(b)
  }

  function InputOf(sha256: Digest, st: State, creation: i64): Bytes {
    HashInput(HeaderBytes(Snapshot.ManifestHeader(sha256, st, creation)),
              TsmWriter.Placed(Snapshot.SortedEntries(st), 0), Snapshot.RefTable(st))
  }

  /** Where only the chunk files differ, it is the first eight bytes of their digests
      that the identities tell them apart by. */
  lemma {:induction false} EightBytes(sha256: Digest, a: State, b: State, creation: i64)
    requires AlikeButChunks(a, b)
    requires NoCollision(sha256, InputOf(sha256, a, creation), InputOf(sha256, b, creation))
    ensures Snapshot.SnapId(sha256, a, creation) == Snapshot.SnapId(sha256, b, creation)
            <==> Snapshot.TscSha(sha256, a)[..8] == Snapshot.TscSha(sha256, b)[..8]
  {
    hide TsmWriter.Placed, Snapshot.RefTable, Snapshot.SortedEntries, Snapshot.TscSha, HashInput, HeaderBytes,
         TsmWriter.FileTotal;
    var x, y := Snapshot.ManifestHeader(sha256, a, creation), Snapshot.ManifestHeader(sha256, b, creation);
    var es, fs := TsmWriter.Placed(Snapshot.SortedEntries(a), 0), TsmWriter.Placed(Snapshot.SortedEntries(b), 0);
    assert x.chunkFileRef == y.chunkFileRef ==> x == y;
    HashTimeless(HeaderBytes(x), es, fs, Snapshot.RefTable(a));
    HeaderRoundTrip(x);
    HeaderRoundTrip(y);
    InputStarts(HeaderBytes(x), es, Snapshot.RefTable(a));
    InputStarts(HeaderBytes(y), fs, Snapshot.RefTable(b));
  }

  lemma {:induction false} InputStarts(header: Bytes, es: seq<Entry>, table: seq<u32>)
    ensures |HashInput(header, es, table)| >= |header| && HashInput(header, es, table)[..|header|] == header
  {
    hide EncodeForHash, RefBytes, Flatten;
    var x, y := Flatten(Map(EncodeForHash, es)), RefBytes(table);
    Assoc(header, x, y);
  }

  // ------------------------------------------------------- the same identity, the same tree

  /** What indexing a whole tree published, parsed again. */
  ghost predicate IsSnapshotOf(sha256: Digest, cfg: Config, s: set<Bytes>, st: State, tree: Tree, creation: i64,
                               snap: Parent)
  {
    && Truthful(cfg, s, st, tree) && Covers(s, tree) && Complete(st, tree) && Coherent(tree) && Snapshot.Writable(st)
    && TscFormat.Parse(sha256, Snapshot.TscFile(sha256, st)) == Ok(snap.tsc)
    && Parse(sha256, Snapshot.TsmFile(sha256, st, creation)) == Ok(snap.tsm)
  }

  /** A name in the manifest is a name in the tree. */
  ghost predicate NamesTree(tsm: Reader, tree: Tree) {
    forall i :: 0 <= i < |tsm.entries| && (tsm.entries[i].typ == FILE || tsm.entries[i].typ == HARDLINK) ==>
      tsm.entries[i].path in tree
  }

  lemma {:induction false} SnapshotNames(sha256: Digest, cfg: Config, s: set<Bytes>, st: State, tree: Tree,
                                         creation: i64, snap: Parent)
    requires IsSnapshotOf(sha256, cfg, s, st, tree, creation, snap) && CollisionFree(cfg.blob, s)
    ensures Holds(cfg.blob, snap, tree) && Bound(snap) && NamesTree(snap.tsm, tree)
  {
    hide TscFormat.Parse, Parse, Snapshot.TscFile, Snapshot.TsmFile, Truthful, Covers, CollisionFree, Attests, Holds,
         Coherent, Snapshot.Writable, Strict, Bound, Snapshot.SnapId;
    var again := PublishedAttests(sha256, cfg, s, st, tree, creation);
    assert again == snap;
    AttestsHolds(cfg.blob, cfg.start, snap, tree);
    forall i | 0 <= i < |snap.tsm.entries| && snap.tsm.entries[i].typ == HARDLINK
      ensures snap.tsm.entries[i].path in tree
    {
      assert FoundAt(snap.tsm, Snapshot.SortedEntries(st)[i], i);
      FoundPath(snap.tsm, st.entries[i], i);
    }
    forall i | 0 <= i < |snap.tsm.entries| && snap.tsm.entries[i].typ == FILE
      ensures snap.tsm.entries[i].path in tree
    {
      HoldsAt(cfg.blob, snap, tree, i);
    }
  }

  lemma {:induction false} FoundPath(tsm: Reader, e: Entry, i: nat)
    requires FoundAt(tsm, e, i)
    ensures tsm.entries[i].path == e.path && tsm.entries[i].typ == e.typ
  {
  }

  lemma {:induction false} HoldsAt(blob: Digest, snap: Parent, tree: Tree, i: nat)
    requires Holds(blob, snap, tree) && i < |snap.tsm.entries| && snap.tsm.entries[i].typ == FILE
    ensures snap.tsm.entries[i].path in tree
  {
    hide Listed, Strict, Resolve, FileEntries;
    assert EntryHolds(blob, snap.tsm.entries[i], snap.tsc.entries, tree);
  }

  lemma {:induction false} NamedBoth(blob: Digest, a: Parent, b: Parent, t: Tree, u: Tree, q: Bytes)
    requires SaysSame(a.tsm, b.tsm) && Holds(blob, a, t) && NamesTree(b.tsm, u) && q in t
    ensures q in u
  {
    hide SaysSame, EntryHolds, Strict, Lookup, Timeless;
    assert Listed(a.tsm, t, q);
    var i := Lookup(PathOf, a.tsm.entries, q).value;
    SaysSameAt(a.tsm, b.tsm, i);
    SameButTimes(a.tsm.entries[i], b.tsm.entries[i]);
  }

  /** Snapshots with one identity were taken of trees with the same files: the same
      names, each with the same bytes. */
  lemma {:induction false} SameTree(sha256: Digest, s: set<Bytes>, ca: Config, a: State, t: Tree, x: Parent, cb: Config,
                                    b: State, u: Tree, y: Parent, creation: i64)
    requires ca.blob == cb.blob && CollisionFree(ca.blob, s)
    requires IsSnapshotOf(sha256, ca, s, a, t, creation, x) && IsSnapshotOf(sha256, cb, s, b, u, creation, y)
    requires x.tsm.sha == y.tsm.sha && ToldApart(sha256, x, y)
    ensures t.Keys == u.Keys && forall q :: q in t ==> t[q].content == u[q].content
  {
    hide CollisionFree, Holds, NamesTree, Bound, ToldApart, SaysSame, Truthful, Complete, Coherent, Snapshot.Writable,
         Parse, TscFormat.Parse, Snapshot.TscFile, Snapshot.TsmFile, Covers;
    SnapshotNames(sha256, ca, s, a, t, creation, x);
    SnapshotNames(sha256, cb, s, b, u, creation, y);
    SameIdentity(sha256, ca.blob, x, y, t);
    forall q | q in t ensures q in u && t[q].content == u[q].content {
      NamedBoth(ca.blob, x, y, t, u, q);
      HoldsOne(ca.blob, s, y, t, u, q);
    }
    SaysSameBack(x.tsm, y.tsm);
    forall q | q in u ensures q in t { NamedBoth(ca.blob, y, x, u, t, q); }
  }

  lemma {:induction false} SaysSameBack(a: Reader, b: Reader)
    requires SaysSame(a, b)
    ensures SaysSame(b, a)
  {
  }
}
