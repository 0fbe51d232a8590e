/** Downloaded snapshots as parents and as trees (tsm/download.go:198-240, 287-356,
    518-561): never reused, and without their hard links. */
module Fetched {
  import opened Bytes
  import opened Sorting
  import opened TsmEntry
  import opened Indexer
  import opened Meaning
  import opened History
  import opened Incremental
  import Tsc
  import TscFormat
  import TsmFormat

  // ------------------------------------------------------- a parent that never matches

  /** Everything was stamped within the racy window of the start, so every stored ctime
      is one off. */
  lemma {:induction false} RacyParent(blob: Digest, start: int, files: Parent, tree: Tree, q: Bytes, f: File)
    requires Attests(blob, start, files, tree) && Trusts(files, q, f)
    requires forall r :: r in tree ==> start - tree[r].ctime < RACY_WINDOW && -0x8000_0000_0000_0000 < tree[r].ctime
    ensures q in tree && f.ctime == tree[q].ctime - 1
  {
    hide EntryHolds, Listed, Strict;
    var i := Lookup(PathOf, files.tsm.entries, q).value;
    assert EntryAttests(blob, start, files.tsm.entries[i], files.tsc.entries, tree);
    HoldsPath(blob, files.tsm.entries[i], files.tsc.entries, tree);
  }

  lemma {:induction false} HoldsPath(blob: Digest, p: Entry, es: seq<Tsc.Entry>, tree: Tree)
    requires EntryHolds(blob, p, es, tree) && p.typ == FILE
    ensures p.path in tree
  {
  }

  /** Only a file whose ctime is just below that of the extracted one could match a
      downloaded parent. */
  lemma {:induction false} DownloadMatches(p: Params, w: World, start: int, o: Offer, local: Tree, q: Bytes, f: File)
    requires Fetching(p, w, start, o, local).Some? && p.granularity <= RACY_WINDOW
    requires Trusts(Downloaded(p, o, local, start).value, q, f)
    ensures q in local && f.ctime == local[q].ctime - 1
  {
    hide Downloaded, HonestOffer, Attests, Trusts, WithId;
    DownloadAttests(p, w, o, local, start);
    RacyParent(p.blob, start, Downloaded(p, o, local, start).value, local, q, f);
  }

  /** No file has an earlier ctime than the snapshot has under the same name. */
  ghost predicate NotBefore(snap: Snap, tree: Tree) {
    forall q :: q in tree && q in snap.tree ==> snap.tree[q].ctime <= tree[q].ctime
  }

  /** What leaves files their names. */
  ghost predicate Stays(acts: seq<Action>) {
    forall i :: 0 <= i < |acts| ==> !acts[i].Checkout? && !acts[i].Rename?
  }

  lemma {:induction false} AfterRestamps(w: World, a: Action)
    requires a.Create? || ((a.Write? || a.Touch? || a.Link? || a.Remove?) && a.path in w.tree)
    ensures Restamped(w.tree, TreeAfter(w, a), w.coarse)
  {
  }

  lemma {:induction false} StepNotBefore(p: Params, w: World, a: Action, n: nat)
    requires n < |w.snaps| && StampedBy(w.snaps[n].tree, w.coarse) && NotBefore(w.snaps[n], w.tree)
    requires !a.Checkout? && !a.Rename? && Apply(p, w, a).Some?
    ensures var next := Apply(p, w, a).value;
            && w.snaps <= next.snaps && StampedBy(next.snaps[n].tree, next.coarse)
            && NotBefore(next.snaps[n], next.tree)
  {
    hide TreeAfter, Index, WalksTree, ParentOk, HonestOffer, Extracted, Downloaded, WithId;
    if a.Create? || a.Write? || a.Touch? || a.Link? || a.Remove? {
      FileAction(p, w, a);
      AfterRestamps(w, a);
    }
  }

  lemma {:induction false} PlayNotBefore(p: Params, w: World, acts: seq<Action>, n: nat)
    requires n < |w.snaps| && StampedBy(w.snaps[n].tree, w.coarse) && NotBefore(w.snaps[n], w.tree)
    requires Stays(acts) && Play(p, w, acts).Some?
    ensures w.snaps <= Play(p, w, acts).value.snaps
    ensures NotBefore(w.snaps[n], Play(p, w, acts).value.tree)
    decreases |acts|
  {
    hide Apply, StampedBy, NotBefore;
    if acts != [] {
      StepNotBefore(p, w, acts[0], n);
      assert forall i :: 0 <= i < |acts| - 1 ==> acts[1..][i] == acts[i + 1];
      PlayNotBefore(p, Apply(p, w, acts[0]).value, acts[1..], n);
    }
  }

  /** The tree that has just been extracted. */
  function Extraction(w: World): World
    requires w.snaps != []
  {
    var n := |w.snaps| - 1;
    w.(tree := w.snaps[n].tree, line := w.snaps[n].line + {n})
  }

  /** However a tree grows from a downloaded snapshot, no file of it ever passes the
      change check against that snapshot: all of it is read again. */
  lemma {:induction false} NeverReused(p: Params, w: World, start: int, o: Offer, local: Tree, acts: seq<Action>)
    requires p.granularity <= RACY_WINDOW && Fetching(p, w, start, o, local).Some? && Stays(acts)
    requires Play(p, Extraction(Fetching(p, w, start, o, local).value), acts).Some?
    ensures var last := Play(p, Extraction(Fetching(p, w, start, o, local).value), acts).value;
            && |last.snaps| > |w.snaps|
            && forall q :: q in last.tree ==> !Trusts(last.snaps[|w.snaps|].files, q, last.tree[q])
  {
    hide Downloaded, HonestOffer, Trusts, WithId, Play;
    var next := Extraction(Fetching(p, w, start, o, local).value);
    var n := |w.snaps|;
    assert next.snaps[n].tree == local == next.tree;
    LocalStamps(p, w, start, o, local);
    PlayNotBefore(p, next, acts, n);
    var last := Play(p, next, acts).value;
    forall q | q in last.tree ensures !Trusts(last.snaps[n].files, q, last.tree[q]) {
      if Trusts(last.snaps[n].files, q, last.tree[q]) {
        DownloadMatches(p, w, start, o, local, q, last.tree[q]);
      }
    }
  }

  lemma {:induction false} LocalStamps(p: Params, w: World, start: int, o: Offer, local: Tree)
    requires Fetching(p, w, start, o, local).Some?
    ensures StampedBy(local, w.coarse)
  {
    hide HonestOffer, Downloaded, WithId, IsListedFile, Coherent, Bound, Attests;
  }

  // --------------------------------------------------------- a tree without hard links

  ghost predicate IsHardlinked(m: TsmFormat.Reader, q: Bytes) {
    LookupPath(m, q).Some? && LookupPath(m, q).value.typ == HARDLINK
  }

  lemma {:induction false} ListedFileIs(m: TsmFormat.Reader, q: Bytes)
    requires Strict(PathOf, m.entries)
    ensures IsListedFile(m, q) <==> LookupPath(m, q).Some? && LookupPath(m, q).value.typ == FILE
  {
    hide Lookup, Strict;
    if IsListedFile(m, q) {
      var i :| 0 <= i < |m.entries| && m.entries[i].typ == FILE && m.entries[i].path == q;
      LookupStrict(PathOf, m.entries, i);
    }
  }

  /** Extraction makes a file for every file entry and nothing for a hard link: the
      extracted tree has the peer's names if and only if none of them is listed as a
      hard link. */
  lemma {:induction false} ExtractedWhole(p: Params, w: World, start: int, o: Offer, local: Tree)
    requires HonestOffer(p, o) && Extracted(p, w, start, TsmFormat.Parse(p.sha256, o.tsm).value, o.tree, local)
    ensures local.Keys <= o.tree.Keys
    ensures local.Keys == o.tree.Keys
            <==> forall q :: q in o.tree ==> !IsHardlinked(TsmFormat.Parse(p.sha256, o.tsm).value, q)
  {
    hide TsmFormat.Parse, TscFormat.Parse, Strict, EntryAttests, Bound, IsListedFile, LookupPath;
    var m := TsmFormat.Parse(p.sha256, o.tsm).value;
    forall q | q in o.tree ensures q in local <==> !IsHardlinked(m, q) {
      assert Listed(m, o.tree, q);
      ListedFileIs(m, q);
    }
  }
}
