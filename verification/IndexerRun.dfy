/** The indexer as it runs: an object that feeds its two writers (tsm/indexer.go:110-453). */
module IndexerRun {
  import opened Bytes
  import opened Sorting
  import opened TsmEntry
  import opened Indexer
  import C = Chunking
  import Tsc
  import TsmWriter

  class Run {
    const cfg: Config
    const tsc: Tsc.Writer
    const tsm: TsmWriter.Writer
    var hardlinks: map<u64, u32>
    var entryIndex: u32

    ghost predicate Valid()
      reads this, tsc, tsm
    {
      tsc.Valid() && tsm.Valid()
    }

    ghost function View(): State
      reads this, tsc, tsm
    {
      State(tsc.chunks, tsm.entries, hardlinks, entryIndex)
    }

    constructor (cfg: Config, creationTime: i64)
      ensures Valid() && View() == INITIAL && this.cfg == cfg && tsm.creationTime == creationTime
      ensures fresh(tsc) && fresh(tsm)
    {
      this.cfg := cfg;
      tsc := new Tsc.Writer();
      tsm := new TsmWriter.Writer(creationTime);
      hardlinks, entryIndex := map[], 0;
    }

    /** The AddChunk calls of one file, in order. */
    method AddChunks(es: seq<Tsc.Entry>) returns (refs: seq<u32>)
      requires Valid()
      modifies tsc
      ensures Valid() && tsc.chunks == Tsc.AddedAll(old(tsc.chunks), es)
      ensures refs == RefsIn(tsc.chunks, es)
    {
      hide Tsc.Find, Tsc.Has, Tsc.Added, Tsc.AddedAll, RefsIn, Wrap32;
      refs := [];
      assert es[0..] == es;
      NoRefs(tsc.chunks, es);
      for i := 0 to |es|
        invariant Valid() && tsm.entries == old(tsm.entries)
        invariant Tsc.AddedAll(tsc.chunks, es[i..]) == Tsc.AddedAll(old(tsc.chunks), es)
        invariant RefsTo(tsc.chunks, es, refs) && |refs| == i
      {
        ghost var before := tsc.chunks;
        AddedNext(before, es, i);
        var idx := tsc.AddChunk(es[i].sha, es[i].size, es[i].level, es[i].flags);
        MoreRefs(before, es, refs);
        refs := refs + [idx];
      }
      AddedNone(tsc.chunks, es);
      AllRefs(tsc.chunks, es, refs);
    }

    /** reuseParentChunks: stops at a reference out of range, keeping what it added. */
    method ReuseParentChunks(e: Entry) returns (refs: seq<u32>, ok: bool)
      requires Valid()
      modifies tsc
      ensures Valid()
      ensures tsc.chunks == Tsc.AddedAll(old(tsc.chunks), Reuse(cfg.parent, e).0)
      ensures ok == Reuse(cfg.parent, e).1
      ensures ok ==> refs == RefsIn(tsc.chunks, Reuse(cfg.parent, e).0)
    {
      hide Tsc.Added;
      if cfg.parent == None { return [], false; }
      var parent := cfg.parent.value;
      var found := Search(PathOf, parent.tsm.entries, e.path);
      if found == None { return [], false; }
      var p := parent.tsm.entries[found.value];
      if !(p.typ == FILE && p.size == e.size && p.ctime == e.ctime) { return [], false; }
      var known := Resolve(p.chunkRefs, parent.tsc.entries);
      refs := AddChunks(known);
      ok := |known| == |p.chunkRefs|;
    }

    /** processFileChunks on a file that can be read: whatever way it is read. */
    method ProcessFileChunks(content: Bytes, plan: seq<nat>) returns (refs: seq<u32>)
      requires Valid()
      modifies tsc
      ensures Valid()
      ensures tsc.chunks == Tsc.AddedAll(old(tsc.chunks), FileEntries(cfg.blob, content))
      ensures refs == RefsIn(tsc.chunks, FileEntries(cfg.blob, content))
    {
      var r := new C.Reader(content, plan, C.EofAlone);
      var records, ok;
      ghost var cs;
      records, ok, cs := C.ChunkStream(r, cfg.blob);
      var es := seq(|records|, i requires 0 <= i < |records| => EntryFor(cfg.blob, records[i]));
      assert es == FileEntries(cfg.blob, content);
      refs := AddChunks(es);
    }

    method AddEntry(e: Entry)
      requires Valid()
      modifies this`entryIndex, tsm
      ensures Valid() && View() == Append(old(View()), e)
    {
      tsm.AddEntry(e);
      entryIndex := Wrap32(entryIndex + 1);
    }

    /** The regular-file branch of processEntry; false when the run is abandoned. */
    method ProcessFile(e: Entry, reading: Reading, links: map<u64, u32>) returns (ok: bool)
      requires Valid() && links == hardlinks
      modifies this`entryIndex, tsc, tsm
      ensures Valid() && hardlinks == links
      ensures forall before: State :: before.(links := links) == old(View()) ==>
                StepFile(cfg, before, e, links, reading) == if ok then Some(View()) else None
    {
      hide Tsc.AddedAll, RefsIn, Reuse, FileEntries, RacyAdjusted, Wrap32;
      var refs, reused := ReuseParentChunks(e);
      if !reused {
        if e.size == 0 {
          refs := [];
          AddedNothing(tsc.chunks);
        } else {
          match reading
          case Denied => return true;
          case Broken => return false;
          case Readable(content, plan) => refs := ProcessFileChunks(content, plan);
        }
      }
      AddEntry(e.(chunkRefs := refs, chunkCount := Wrap32(|refs|), ctime := RacyAdjusted(e.ctime, cfg.start)));
      ok := true;
    }

    /** One path of the entry loop: processEntry and what Index does with it. */
    method ProcessItem(it: Item) returns (ok: bool)
      requires Valid()
      modifies this, tsc, tsm
      ensures Valid()
      ensures Step(cfg, old(View()), it) == if ok then Some(View()) else None
    {
      hide StepFile, BaseEntry, Wrap64, Append;
      ok := true;
      match it
      case StatDenied => return true;
      case StatBroken => return false;
      case Found(path, s, kind) =>
        match kind
        case Dir => AddEntry(BaseEntry(path, s, DIR));
        case Fifo => AddEntry(BaseEntry(path, s, FIFO));
        case Other =>
        case Symlink(target) =>
          if target == None { return false; }
          AddEntry(BaseEntry(path, s, SYMLINK).(linkTarget := target.value, size := Wrap64(|target.value|)));
        case Device(isChar, major, minor) =>
          AddEntry(BaseEntry(path, s, if isChar then CHARDEV else BLOCKDEV).(devMajor := major, devMinor := minor));
        case Regular(nlink, inode, reading) =>
          var e := BaseEntry(path, s, FILE);
          if nlink > 1 && inode in hardlinks {
            AddEntry(e.(typ := HARDLINK, linkIndex := hardlinks[inode]));
          } else {
            ghost var before := View();
            if nlink > 1 { hardlinks := hardlinks[inode := entryIndex]; }
            assert before.(links := hardlinks) == View();
            ok := ProcessFile(e, reading, hardlinks);
            return;
          }
    }

    /** The entry loop of Index. */
    method Index(items: seq<Item>) returns (ok: bool)
      requires Valid()
      modifies this, tsc, tsm
      ensures Valid()
      ensures Walk(cfg, old(View()), items) == if ok then Some(View()) else None
    {
      hide Step;
      assert items[0..] == items;
      for i := 0 to |items|
        invariant Valid()
        invariant Walk(cfg, View(), items[i..]) == Walk(cfg, old(View()), items)
      {
        assert items[i..][0] == items[i] && items[i..][1..] == items[i + 1..];
        var fine := ProcessItem(items[i]);
        if !fine { return false; }
      }
      ok := true;
    }
  }

  /** refs are the positions of the first records. */
  ghost predicate RefsTo(chunks: seq<Tsc.Entry>, es: seq<Tsc.Entry>, refs: seq<u32>) {
    && |refs| <= |es|
    && forall k :: 0 <= k < |refs| ==>
         Tsc.Has(chunks, es[k].sha) && refs[k] == Wrap32(Tsc.Find(chunks, es[k].sha))
  }

  lemma {:induction false} NoRefs(chunks: seq<Tsc.Entry>, es: seq<Tsc.Entry>)
    ensures RefsTo(chunks, es, [])
  {
  }

  lemma {:induction false} AddedNext(chunks: seq<Tsc.Entry>, es: seq<Tsc.Entry>, i: nat)
    requires i < |es|
    ensures Tsc.AddedAll(chunks, es[i..]) == Tsc.AddedAll(Tsc.Added(chunks, es[i]), es[i + 1..])
  {
    hide Tsc.Added;
    assert es[i..][0] == es[i] && es[i..][1..] == es[i + 1..];
  }

  lemma {:induction false} AddedNone(chunks: seq<Tsc.Entry>, es: seq<Tsc.Entry>)
    ensures Tsc.AddedAll(chunks, es[|es|..]) == chunks
  {
  }

  /** Adding one more record moves none of the earlier ones. */
  lemma {:induction false} MoreRefs(before: seq<Tsc.Entry>, es: seq<Tsc.Entry>, refs: seq<u32>)
    requires DistinctKeys(Tsc.KeyOf, before) && RefsTo(before, es, refs) && |refs| < |es|
    ensures var e := es[|refs|];
            RefsTo(Tsc.Added(before, e), es, refs + [Wrap32(Tsc.Find(Tsc.Added(before, e), e.sha))])
  {
    hide Tsc.Find, Tsc.Has, Tsc.Added, Wrap32, DistinctKeys;
    var e := es[|refs|];
    var after := Tsc.Added(before, e);
    Tsc.AddedKeeps(before, e);
    forall k | 0 <= k < |refs|
      ensures Tsc.Has(after, es[k].sha) && Tsc.Find(after, es[k].sha) == Tsc.Find(before, es[k].sha)
    {
      Tsc.PrefixHas(before, after, es[k].sha);
    }
  }

  lemma {:induction false} AllRefs(chunks: seq<Tsc.Entry>, es: seq<Tsc.Entry>, refs: seq<u32>)
    requires RefsTo(chunks, es, refs) && |refs| == |es|
    ensures refs == RefsIn(chunks, es)
  {
    hide Tsc.Find, Tsc.Has, Wrap32;
  }

  lemma {:induction false} AddedNothing(chunks: seq<Tsc.Entry>)
    ensures Tsc.AddedAll(chunks, []) == chunks && RefsIn(chunks, []) == []
  {
  }
}
