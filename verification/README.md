# Thundersnap: a verified model of its snapshot pipeline and its two locking protocols

Thundersnap turns a directory tree into two files. A `.tsc` file lists the tree's
content-defined chunks in digest order. A `.tsm` manifest lists its entries in path
order and refers to those chunks. The model follows that pipeline from bytes to bytes:
the rolling checksum and the chunker, the chunk writer and the manifest writer, the two
parsers, the indexer with its ctime shortcut, the lookup cache, and the download that
puts a file together again. Next to the pipeline are two protocols, as machines whose
steps interleave freely (namespace lifecycle, background jobs), and two small codecs
(the log tail, the hash spelling).

Code that the program writes as loops over mutable state is written that way here, as
classes and methods with invariants. Each method is tied to a function of its inputs or
of the old state, and the theorems are about those functions.

| module | what it models |
|---|---|
| `Rollsum`, `Chunking` | the rolling checksum; cutting a stream into chunks through a reused buffer |
| `Tsc`, `TscFormat`, `Sorting` | the chunk list, its sort and index map, its file |
| `TsmEntry`, `TsmFormat`, `TsmWriter` | entry encoding, manifest parsing and patching, manifest writing |
| `Indexer`, `IndexerRun` | one walk over a tree, as a function and as the object that does it |
| `Listing`, `Capacity` | which entries a walk leaves, none missing; when its files can be written without loss |
| `Snapshot`, `Meaning` | both files of a snapshot; what they say about the whole tree |
| `Incremental` | exactly when one incremental snapshot is right, against any parent |
| `Identity` | what the identity digest of a manifest binds |
| `History`, `HistoryTight`, `Renames`, `Fetched` | file actions, snapshots, downloads and checkouts in any order; when the ctime shortcut is sound |
| `Bloom`, `Locate`, `ChunkIndex` | the filter, one snapshot's lookup tables, the cached search over all of them |
| `Download` | reassembly from local files, holes and a peer |
| `ContainerNs` | the namespace manager's locked sections and their interleavings |
| `Polling`, `Jobs`, `JobRuns` | one poll of a log, the job list's locked sections, their interleavings |
| `Tail`, `SnapHash` | the last n lines of a file; the shifted base64url spelling of a hash |
| `Bytes`, `Bits` | big-endian integers, sequences, bit operations |

## Assumptions

- Digests are uninterpreted functions into 32 bytes. No injectivity is assumed of them.
  Where a result needs it, `CollisionFree(blob, s)` asks for it over the finite set `s`
  of chunks in play. Where two manifests meet, `Identity.ToldApart` asks that equal
  identities are of equal inputs, and that the first eight bytes of their chunk files'
  digests tell these apart; `Identity.Told` derives it for manifests that parse.
- A reader is a stream, any plan of read sizes, and one of four endings: end of file or
  an error, either on a read of no bytes (as files and byte readers end) or together with
  the last bytes.
- uint32 and uint64 arithmetic wraps explicitly. Index remapping is stated up to 2^32
  chunks, which is what a uint32 index can name.
- Names of regular files with the same hard link key (`dev << 32 | ino`,
  tsm/indexer.go:255) are names of one file. That holds for inode numbers below 2^32.
- A walk meets its paths in strict path order, fewer than 2^32 of them, and every regular
  file of the captured tree is among them and can be read (`Meaning.WalksTree`).
- The parent of a snapshot in `History` is one that the tree has grown from, indexed
  earlier; `HistoryTight.OffLine` shows that this is needed. A renamed directory arrives
  under names that are new to those snapshots, or with files stamped since; `Renames.OldName`
  shows that this is needed. `Incremental.IncrementalExact` is free of both: it says for
  any parent and any change exactly when the result is right.
- The clock of `History` never goes back, and a change of content stamps a ctime that
  lags the clock by less than `granularity`. Indexing starts at most `delay` after the
  capture. `ShortcutSoundIff` says exactly which delays are safe.
- While a chunk index is open, the snapshot files it opened do not change. What the
  indexed directories hold may change at will: `Download` reads from any file contents.
- A collector's writes to its log file succeed.

## Where the code departs from what is written about it

- Racy ctime: the adjustment compares with the start of indexing (tsm/indexer.go:113,
  295), but the bytes were captured earlier. The shortcut is sound exactly if
  `delay <= RACY_WINDOW - granularity`; `HistoryTight.Overrun` is the history that breaks
  it otherwise.
- Chunk size: if a reader reports end of file together with its last bytes, the branch
  at tsm/chunking.go:160-163 takes the whole remainder as one chunk, whatever its size.
  `Chunking.EofWithDataExact` says for exactly which streams this makes a difference, and
  `Chunking.SizeBoundExact` that just these can give chunks beyond the bound.
- Namespaces: if an init dies by itself, the reference count of its successor no longer
  counts the sessions that are out. `ContainerNs.CountedIff` says which steps keep the
  count and `ContainerNs.DeathLosesASession` shows the loss.
- Change check: it compares path, type, size and ctime only (tsm/indexer.go:425-427). After
  checking out an older snapshot, or renaming a directory onto a name that the parent
  knows, an unread file can be given another file's chunks.
- Download: no size is compared with the data (tsm/download.go:470-512). A record's stated
  size decides nothing but what is asked of the peer and whether the record is a hole. The
  recorded size of the file decides its length: success leaves exactly the chunks referred
  to if and only if that size and the end of the last data reach their total and no further
  (`Download.OutcomeIs`, and from stated sizes alone `Download.SizesDecide`). A size that is
  too large leaves zeros at the end (`Download.Overstated`), one that is too small cuts off
  a hole at the end (`Download.Understated`).
- Downloaded parents: the ctimes patched into a downloaded manifest are meant for later
  change detection (tsm/download.go:198-203), but each is stored one off, since extraction
  follows the start it is compared with. No file that grows from the extracted tree is ever
  found unchanged against it (`Fetched.NeverReused`).
- Hard links: extraction makes nothing for them (tsm/download.go:287-292, 518-561), so a
  downloaded tree has all names of the original if and only if none is listed as a hard
  link (`Fetched.ExtractedWhole`).
- Refused files: the index of a hard link is recorded before the read that may be refused
  (tsm/indexer.go:270-290). The next name of a file refused under its first name is then
  listed as a hard link to itself (`Meaning.RefusedMislinks`); every link leads to its file
  exactly as long as no such file is met (`Meaning.StepLinkedIff`).
- Identity: of the chunk file it covers eight bytes of the digest (tsm/tsm.go:232). The
  full digest stands in the footer, outside the identity. `Identity.IdentityExact` says
  what equal identities mean, and `HistoryTight.OneByteApart` gives two trees that only
  those eight bytes tell apart.
- Polling: a running job's line longer than 16000 bytes cannot be polled past, even once
  its line break has been written (`Polling.LongLineStalls`).

## Model

| member | source | states |
|---|---|---|
| Rollsum.Sum.Add | tsm/chunking.go:31-34 | Each uint32 operation wraps; the new sums are given modulo 2^32 |
| Rollsum.Sum.Roll | tsm/chunking.go:37-41 | An object that has read s has, after rolling in a byte, read s plus that byte: ring window, position and both sums included |
| Rollsum.AddIsExact | tsm/chunking.go:31-41 | The wrapping update is the closed form over the last 64 bytes: wrapping inside a step never shows |
| Rollsum.SumsSlide | tsm/chunking.go:31-34 | Sliding a window changes the plain sum and the weighted sum by exactly the terms the update uses |
| Rollsum.Bounds | tsm/chunking.go:14-41 | After any bytes s1 is in 1984..18304 and s2 in 60512..655392 |
| Rollsum.Local | tsm/chunking.go:22-46 | Both sums depend on the last 64 bytes only |
| Bytes.LessIs | tsm/tsm.go:74-78 | The order of paths and digests: a proper prefix, or the first byte that differs is less |
| Chunking.FindSplitPoint | tsm/chunking.go:57-76 | The offset is the least prefix length whose digest hits the mask, 0 if there is none, with the level of that digest |
| Chunking.SplitsIff | tsm/chunking.go:49-62 | A stream splits exactly where the low 13 bits of the weighted sum are all ones |
| Chunking.DigestBits | tsm/chunking.go:44-46 | Bit by bit, the digest is the weighted sum's low half below the plain sum's |
| Chunking.LevelBound | tsm/chunking.go:153-156 | The level of a split never exceeds 4, so the uint16 conversion never truncates |
| Chunking.LevelIs | tsm/chunking.go:63-76 | The level is a quarter of the run of ones in the digest from bit 14 on, rounded down |
| Chunking.CutLevel | tsm/chunking.go:139-172 | A chunk's level can be read off its own bytes, whether it was split, forced or left over |
| Chunking.CutIsFinal | tsm/chunking.go:139-172 | A chunk splits at its own end exactly when it was cut there by the checksum |
| Chunking.NextCut | tsm/chunking.go:141-172 | The next chunk of a buffer: how much is taken, when more input is needed, which level |
| Chunking.CutBuffer | tsm/chunking.go:139-192 | The loop over one buffer emits its decided chunks and leaves exactly the undecided rest |
| Chunking.Reader.Read | tsm/chunking.go:123-137 | A read returns the next bytes of the stream, never more than asked for, and the status of its ending: end of file or an error, alone or with the last bytes |
| Chunking.ChunkStream | tsm/chunking.go:123-217 | Over one reused buffer, what is emitted is what the pure run emits; with end of file alone it is the chunking of the stream, and only a read error makes it fail |
| Chunking.ChunksTile | tsm/chunking.go:123-217 | Chunks concatenate back to the stream and each has 1..BLOB_MAX bytes |
| Chunking.Restart | tsm/chunking.go:123-217 | Chunking restarted at any boundary gives the remaining chunks |
| Chunking.SharedTail | tsm/chunking.go:123-217 | Two streams that agree from some boundary of each on have the same chunks from there on |
| Chunking.WindowDecides | tsm/chunking.go:22-46 | Whether a chunk may end somewhere depends on the last 64 bytes alone |
| Chunking.SplitIsBoundary | tsm/chunking.go:57-76 | A splitting window that lies inside one chunk is the end of that chunk |
| Chunking.Resync | tsm/chunking.go:123-217 | Two streams that share a splitting window, inside one chunk of each, and all that follows have the same chunks from there on, whatever came before |
| Chunking.RunIsChunks | tsm/chunking.go:123-217 | However a reader fragments the stream, the buffered loop emits the chunks of one recursive cut |
| Chunking.FailureIsPrefix | tsm/chunking.go:194-217 | What was emitted before a read error, alone or with data, is a prefix of the chunks of whatever the stream would have been |
| Chunking.EofWithDataExact | tsm/chunking.go:160-163 | With end of file on the last bytes, every fragmentation gives the same chunks if and only if no boundary leaves an unsplittable run longer than BLOB_MAX within one read |
| Chunking.SizeBoundExact | tsm/chunking.go:160-163 | With end of file on the last bytes, every fragmentation keeps chunks within BLOB_MAX if and only if the stream is no such stream |
| Chunking.ZerosNeverSplit | tsm/chunking.go:160-163 | Zero bytes never split, so long zero streams are in the failing family |
| Sorting.SortIs | tsm/tsc.go:75-99 | Any strictly ordered arrangement of the elements is the one the sort gives, so a sort is known by its result |
| Sorting.SortOrder | tsm/tsm.go:74-78 | After a sort no element is before one to its left, in those terms |
| Sorting.StrictIs | tsm/tsc.go:75-99 | Strict order is ascending order in those terms |
| Sorting.Search | tsm/tsc.go:242-251 | The binary search loop computes the search function, on any input |
| Sorting.LookupStrict | tsm/tsc.go:242-251 | In a strictly ordered list the search finds every key that is there, at its place |
| Sorting.LookupAbsent | tsm/tsc.go:242-251 | In a strictly ordered list the search fails exactly for keys that are not there |
| Tsc.Writer.AddChunk | tsm/tsc.go:33-48 | A new digest is appended, a known one changes nothing, and the index returned is its place (modulo 2^32); list, map and total stay in step |
| Tsc.AddedAllKeeps | tsm/tsc.go:33-48 | Adding any chunks moves nothing, repeats no digest and leaves every digest present |
| Tsc.Writer.SortChunks | tsm/tsc.go:75-99 | The entries are the chunks in lexicographic order of their digests and the map sends each chunk to its place among them |
| Tsc.Place | tsm/tsc.go:84-96 | The filling loop puts chunk indices[j] at j and j at indices[j] |
| Tsc.PlaceRemaps | tsm/tsc.go:84-96 | For every permutation the tables so filled are inverse: each chunk is found where the map sends it |
| TscFormat.Write | tsm/tsc.go:102-165 | The file is header, sorted entries and the digest of both, and the index map fits that order |
| TscFormat.EntryInFileAt | tsm/tsc.go:120-140 | Record i of a written file stands at 64 + 40i: digest, size, level, flags |
| TscFormat.FrameOfFile | tsm/tsc.go:102-165 | Header fields and footer of a written chunk file by position |
| TscFormat.ParseTsc | tsm/tsc.go:185-238 | The parser's result on every input, errors in the source's order |
| TscFormat.ParseTells | tsm/tsc.go:185-238 | Exactly which bytes parse, which error the others give, and from which bytes each field of each entry is read |
| TscFormat.WriteParse | tsm/tsc.go:102-238 | Parsing a written chunk file gives its header, every entry in order and its digest |
| TscFormat.LookupChunk | tsm/tsc.go:242-251 | A hit carries the digest asked for; in a strictly sorted file exactly the digests present are found |
| TsmEntry.EncodeEntry | tsm/tsm.go:81-174 | The buffer filled at a running offset is the encoding of the entry, length fields truncated to uint16 |
| TsmEntry.Layout | tsm/tsm.go:81-174 | Every field of an encoded entry by position, in big-endian bytes |
| TsmEntry.RoundTrip | tsm/tsm.go:81-174 | Decoding an encoded entry gives everything an entry keeps on disk, and its length field is its length |
| TsmEntry.DecodesIff | tsm/tsm.go:413-507 | Exactly which bytes decode to an entry |
| Bytes.BigEndian | tsm/tsm.go:81-174 | The integers so written, byte by byte |
| TsmEntry.EncodeStrip | tsm/tsm.go:81-186 | What is not kept on disk reaches neither the encoding nor the identity |
| TsmWriter.Writer.AddEntry | tsm/tsm.go:55-61 | The entry is appended and the running total stays in step |
| TsmWriter.Writer.PlaceRefs | tsm/tsm.go:190-290 | Entries get consecutive ranges of one table of remapped references |
| TsmWriter.Writer.Write | tsm/tsm.go:190-290 | The manifest is header, entries in lexicographic order of their paths, table and footer; the identity covers entries with their times blanked |
| TsmWriter.PlacedRefs | tsm/tsm.go:190-290 | Every entry, looked up in the table, names its own references remapped, whatever comes before and after it |
| TsmWriter.PlaceIs | tsm/tsm.go:196-212 | An entry without chunks is written as it is; any other gets the place and the number of its references, which stand there in the table |
| TsmWriter.WriteParse | tsm/tsm.go:190-411 | Parsing a written manifest gives back header, entries with their references, table and identity |
| TsmWriter.ParseTsm | tsm/tsm.go:312-411 | The parser's result on every input, errors in the source's order |
| TsmFormat.HeaderFields | tsm/tsm.go:226-241 | Every header field by position |
| TsmFormat.ParseTells | tsm/tsm.go:312-411 | What an accepted manifest has been checked for and from which bytes header, digests and references come |
| TsmFormat.ParsesIff | tsm/tsm.go:312-411 | Exactly which byte strings parse |
| TsmFormat.ParseFails | tsm/tsm.go:312-411 | Which reason the others give, the first one counting |
| TsmFormat.ParseStops | tsm/tsm.go:335-350 | Where the entry loop gives up before it decodes an entry |
| TsmFormat.PatchEntryCtimes | tsm/tsm.go:516-562 | Overwriting bytes in place gives the patch function's result, including where it gives up |
| TsmFormat.TurnStops | tsm/tsm.go:528-552 | Exactly where the patching loop gives up and why |
| TsmFormat.PatchKeepsIdentity | tsm/tsm.go:516-562 | For every manifest that parses and every ctime map, the patched bytes parse with the same identity, table and entries, but for the ctimes of exactly the mapped paths |
| IndexerRun.Run.AddChunks | tsm/indexer.go:352-365 | The chunks of one file are added in order and the references name them |
| IndexerRun.Run.ReuseParentChunks | tsm/indexer.go:409-453 | The parent's chunks are copied up to the first reference out of range, which ends the shortcut and keeps what was added |
| IndexerRun.Run.ProcessFileChunks | tsm/indexer.go:345-372 | However the file is read, the writer gains the records of its chunking with the zero-block flag set where it belongs |
| IndexerRun.Run.ProcessFile | tsm/indexer.go:262-295 | The regular-file branch: shortcut or read, then the ctime adjustment, as one step of the walk |
| IndexerRun.Run.ProcessItem | tsm/indexer.go:219-341 | Every kind of entry: root times blanked, hardlinks, links, devices, sockets skipped, permission errors passed over; Listing states the entry of each kind field by field |
| IndexerRun.Run.Index | tsm/indexer.go:112-196 | The entry loop performs the walk function, or abandons it where that does |
| Indexer.SameStep | tsm/indexer.go:219-341 | If an unchanged file matches its parent entry, one incremental step and one full step lead to the same writer state |
| Indexer.IncrementalIsFull | tsm/indexer.go:345-453 | Over a whole walk, incremental and full indexing leave the chunk writer in the same state and the entries the same but for ctimes |
| Indexer.CopiedStay | tsm/indexer.go:436-453 | The chunks a matching parent entry names before its first bad reference stay in the chunk list, even if the shortcut gives up and the bytes are then refused |
| Listing.WalkLists | tsm/indexer.go:112-341 | A walk lists its items in order, each at most once, and passes over none but those it may: refused paths, unreadable files, sockets; each entry has its item's mode, owner, group, size and times (0 for the root), its type number, and nothing that its kind does not have |
| Listing.ManifestLists | tsm/indexer.go:112-216 | Whatever must be listed is found in the parsed manifest under its path, with the fields of its item |
| Capacity.WalkRuns | tsm/indexer.go:112-341 | A walk without failing paths and with readable files runs to its end |
| Capacity.WalkFits | tsm/tsm.go:81-290 | If every entry fits its length field and all chunks together a uint32, the walk's files can be written without loss |
| Snapshot.Publish | tsm/indexer.go:198-212 | Both writers run on the walk's result give the two files and the identity as functions of it |
| Snapshot.RemapsIsIndexMap | tsm/tsc.go:75-99 | The index map is the only one that sends each chunk to its place |
| Snapshot.WriteParse | tsm/tsm.go:190-411 | Both files parse, paths and digests in ascending lexicographic order; each file's references resolve through the parsed chunk file to its own records in order, despite sort and remap |
| Snapshot.FindsPath | tsm/tsm.go:566-575 | In a manifest whose paths ascend, every entry is found by its path |
| Meaning.SameFiles | tsm/tsm.go:180-290 | States that differ in ctimes only have the same chunk file and the same identity |
| Meaning.IncrementalPublishesFull | tsm/indexer.go:345-453 | If files that match their parent entries are unchanged, an incremental snapshot has the chunk file and the identity of a full one |
| Meaning.RecordsAgree | tsm/indexer.go:352-365 | Level, size and flags are functions of a chunk's bytes: two records have the same digest if and only if they are the same record |
| Meaning.RecordSays | tsm/indexer.go:352-365 | A record has its chunk's digest, length and level, and flag 1 exactly for BLOB_MAX zeros |
| Meaning.DedupAgrees | tsm/tsc.go:33-48 | Keeping the first record of a digest never keeps one that disagrees with another occurrence in size, level or flags |
| Meaning.WalkTrue | tsm/indexer.go:112-196 | A walk whose matches are unchanged records, for each file entry, the chunking of its bytes |
| Meaning.TotalIsLength | tsm/tsm.go:55-61 | The total a manifest states is the length of all files listed as such |
| Meaning.ChunkTotal | tsm/tsc.go:33-48 | The total a chunk file states is the length of its chunks |
| Meaning.WalkLinked | tsm/indexer.go:253-270 | If every file can be read, every hard link entry carries the index of the file entry of the same file |
| Meaning.StepLinkedIff | tsm/indexer.go:253-290 | One step keeps every link leading to its file if and only if it does not meet, as the first name of a file with several, one that may not be read |
| Meaning.RefusedMislinks | tsm/indexer.go:253-290 | After such a first name the next name is listed as a hard link to itself |
| Meaning.WalkComplete | tsm/indexer.go:112-341 | A walk of the whole tree gives each of its files an entry, in path order, well linked |
| Meaning.PublishedAttests | tsm/indexer.go:112-216 | The parsed snapshot is the tree: every file of the tree can be looked up, as a file or as a hard link to a listed file with the same bytes, and each file entry's references resolve to the chunks of its bytes |
| Incremental.FirstNames | tsm/indexer.go:253-270 | A walk gives a path a file entry exactly if it meets that file first under this path |
| Incremental.IncrementalExact | tsm/indexer.go:409-453 | Against any parent that attests some tree, whatever happened since, the new snapshot attests the present tree if and only if no file first met passes the change check with other bytes than the parent's tree held there |
| Incremental.IncrementalFits | tsm/indexer.go:198-216 | A mistaken run is written out like any other |
| Identity.ParsedIsHashed | tsm/tsm.go:312-411 | Whatever manifest parses, its identity is the digest of its own header, entries without times, and table, and its entries can be written again |
| Identity.IdentityExact | tsm/tsm.go:180-290 | Short of a collision, two manifests that parse have the same identity if and only if their headers are the same and their entries and references are, but for times |
| Identity.EightBytes | tsm/tsm.go:226-241 | Runs that differ in their chunk files only have the same identity if and only if the digests of these begin with the same eight bytes |
| Identity.SameIdentity | cmd/thundersnapd/snapqueue.go:269-302 | A snapshot with the same identity holds every tree that the other one holds |
| Identity.SameTree | cmd/thundersnapd/snapqueue.go:269-302 | Snapshots with one identity were taken of trees with the same names and, under each, the same bytes |
| History.MatchMeansUnchanged | tsm/indexer.go:61-66 | If a stored, adjusted ctime equals a later ctime, the content at that later time is the captured content |
| History.ItemUnchanged | tsm/indexer.go:409-427 | In every reachable world, a file that matches its entry in any earlier snapshot has unchanged bytes |
| History.TakeAttests | tsm/indexer.go:112-216 | In every reachable world, what a capture publishes attests the tree it captured |
| History.TakeHappens | tsm/indexer.go:112-216 | A capture of a tree that fits the format always becomes a snapshot: its walk ends and its files parse |
| History.KnownKeeps | cmd/thundersnapd/snapqueue.go:269-302 | Answering a capture with an older snapshot of the same identity keeps the invariant: the older manifest holds the captured tree and is a sound parent for what becomes of it, whatever ctimes it has |
| History.PlayUnique | cmd/thundersnapd/snapqueue.go:269-302 | No run ever keeps two snapshots with one identity |
| History.RenameKeeps | tsm/indexer.go:409-432 | A directory renamed to names that are new to the snapshots of the tree's line, or with files stamped since, keeps the invariant though no file is stamped |
| History.DownloadAttests | tsm/download.go:205-234 | The manifest kept after a download, with the ctimes stamped locally, attests the extracted tree and names its chunk file as before |
| History.PlayKeeps | tsm/indexer.go:43-66 | Every creation, write, touch, link, removal, directory rename, tick, snapshot new or known, download and checkout keeps the invariant on stamps and parsed snapshots |
| History.ShortcutSound | tsm/indexer.go:276-295 | Over every history, each snapshot attests its tree, and each capture is answered with a snapshot that holds it: every file listed, each with the chunking of its bytes at capture, even where the read was skipped or an older snapshot kept |
| HistoryTight.Overrun | tsm/indexer.go:61-66 | With a longer delay, write, capture, overwrite within one coarse tick and index again later answers the second capture with the snapshot of the first |
| HistoryTight.ShortcutSoundIff | tsm/indexer.go:61-66 | The shortcut is sound over all histories if and only if the delay is at most the racy window less the granularity |
| HistoryTight.OffLine | tsm/indexer.go:409-432 | However short the delay, a parent that the tree has not grown from can give a file the wrong chunks, unless the identities of the two snapshots are the same |
| HistoryTight.OneByteApart | tsm/tsm.go:226-241 | Two trees of one file with one byte each, the bytes different, have the same identity if and only if the digests of their chunk files begin with the same eight bytes |
| Renames.OldName | tsm/indexer.go:409-432 | However short the delay, a directory renamed onto a captured name can give its file the chunks of the file it replaced |
| Fetched.DownloadMatches | tsm/download.go:198-240 | Only a file whose ctime is one below that of the extracted file could match a downloaded parent |
| Fetched.NeverReused | tsm/download.go:198-240 | However a tree grows from a downloaded snapshot, no file of it passes the change check against that snapshot |
| Fetched.ExtractedWhole | tsm/download.go:287-292 | The extracted tree has the original's names if and only if none of them is listed as a hard link |
| Bloom.Filter.SetOne | tsm/bloom.go:66-75 | One bit of one word is set and no other changes |
| Bloom.Filter.Add | tsm/bloom.go:66-75 | The digest is held from now on, nothing held before is lost, and only probed bits are set |
| Bloom.Filter.Test | tsm/bloom.go:79-91 | The answer is whether all probed bits are set, so a refusal is definitive |
| Bloom.ProbeIs | tsm/bloom.go:66-91 | Probe i is the first eight digest bytes plus i times the next eight (1 for 0), modulo 2^64 and the number of bits |
| Locate.LookupView | tsm/chunkindex.go:469-492 | Binary search on the raw bytes gives the size that the entries give |
| Locate.ViewOfFile | tsm/chunkindex.go:453-601 | The raw view of a written chunk file shows exactly the entries written |
| Locate.BuildLocMap | tsm/chunkindex.go:341-381 | The loop over entries and references builds the fresh map, whose contents FreshIs states |
| Locate.FreshIs | tsm/chunkindex.go:341-381 | The map has exactly the digests that a file entry with chunks names whose path is on disk, each at the first place that names it: path, and the sum of the sizes before it |
| Locate.FindIff | tsm/chunkindex.go:264-296 | A lookup in one snapshot succeeds if and only if both files can be read and a file entry with chunks, its path on disk, has the digest among its references with all before it in range |
| Locate.FindIsFirst | tsm/chunkindex.go:341-381 | Of all places that name the digest, the lookup gives the first in manifest order, with its size |
| Locate.FindPoints | tsm/chunkindex.go:341-381 | A location returned names the snapshot, and a listed file with chunks whose path is on disk |
| Locate.PublishedIsIntact | tsm/indexer.go:198-216 | A snapshot directory as indexing a whole tree leaves it is intact, valid and sorted |
| Locate.PresentIffChunk | tsm/chunkindex.go:264-296 | In an intact snapshot, whatever has vanished from its directory, what can be found are exactly the chunks of the listed files that are still there |
| Locate.AllInPlace | tsm/chunkindex.go:264-296 | With nothing vanished these are the chunks of the tree's files |
| Locate.ReadValidatedIs | tsm/chunkindex.go:553-620 | A chunk file is taken exactly if it has magic and matching count and ends in the digest of all before it |
| Locate.ReadContentIs | tsm/chunkindex.go:553-577 | Without the digest check: magic and matching count |
| Locate.LocationIsChunk | tsm/chunklookup.go:17-43 | For an intact snapshot, the bytes at every location returned are exactly a chunk with the digest asked for |
| ChunkIndex.Index.constructor | tsm/chunkindex.go:141-236 | Opening gives the list that OpenedIff and OpenedOrder describe, nothing loaded, and the filter covers all its chunks |
| ChunkIndex.OpenedIff | tsm/chunkindex.go:141-236 | A snapshot is opened if and only if its name is final, its manifest and directory exist and its chunk file has magic, matching count and, last, the digest of all before it |
| ChunkIndex.OpenedOrder | tsm/chunkindex.go:141-236 | What is opened is in the order of its names, no snapshot twice |
| ChunkIndex.RejectedIsNowhere | tsm/chunkindex.go:244-262 | A digest the filter rejects is in no snapshot |
| ChunkIndex.Index.EvictLRU | tsm/chunkindex.go:386-438 | Both eviction loops end and do what the eviction function does |
| ChunkIndex.EvictIs | tsm/chunkindex.go:386-438 | After eviction the cap is met, the snapshot being searched keeps what it holds, the other cache and the order are untouched |
| ChunkIndex.Index.SearchSnap | tsm/chunkindex.go:264-296 | The answer for one snapshot is what its files say, whatever was loaded, built or evicted before |
| ChunkIndex.Index.ScanSnaps | tsm/chunkindex.go:264-305 | The search loop gives the first snapshot's answer and moves that snapshot to the front |
| ChunkIndex.Index.FindChunk | tsm/chunkindex.go:244-305 | Filter, negative cache and loop give the plain scan's answer and the hit moves to the front; the chunk is found if and only if some snapshot names it in a file still there, and the location points into such a file; caches stay within their caps and equal to fresh loads |
| ChunkIndex.FindAll | tsm/chunkindex.go:244-305 | Over any sequence of lookups and any caps, every answer is the plain scan's, and a chunk is found if and only if some opened snapshot has it |
| ChunkIndex.OrderPermutes | tsm/chunkindex.go:442-449 | The snapshot list always is a permutation of the opened one |
| ChunkIndex.OrderIsByLastHit | tsm/chunkindex.go:442-449 | After any lookups the list is ordered by last hit, never-hit snapshots behind in their first order |
| ChunkIndex.ScanIsOrderFree | tsm/chunkindex.go:244-305 | After any lookups a scan finds a chunk if and only if an opened snapshot's readable files name it |
| ChunkIndex.FindsExactly | tsm/chunkindex.go:244-305 | Over a directory of published snapshots, whatever has vanished from it since, after any lookups, a chunk is found if and only if a listed file that is still there has it, and the location is in such a file, at bytes with its digest |
| Download.VerifyAndRead | tsm/chunklookup.go:26-59 | Data is returned exactly when the file reaches that far and the bytes there have the digest, and then it is those bytes |
| Download.FetchRanges | tsm/download.go:584-620 | All answers, in order, if and only if the peer answers every range; what it costs in requests |
| Download.PlanChunks | tsm/download.go:386-423 | The location planned for a reference is the scan of the opened snapshots, in the order that the lookups before it leave; its offset in the remote file is the sum of the sizes before it; it fails exactly on a reference out of range |
| Download.FetchAll | tsm/download.go:425-468 | Succeeds if and only if the peer answers every wanted chunk with data of its digest, whatever the batches; then all are there |
| Download.WriteChunks | tsm/download.go:470-512 | Succeeds if and only if each chunk is a hole, good on disk, fetched, or answered when asked for on its own; each one written stands for its digest and the file is their assembly |
| Download.DownloadFile | tsm/download.go:369-513 | For any peer: succeeds if and only if all references are in range and every chunk that is neither a hole nor good where the lookup puts it is answered with data of its digest, and asks exactly for these; success leaves the chunks referred to, cut off or filled up as the recorded size has it, and the original bytes for an entry that attests a tree; a peer that serves the references, or has the file, is enough |
| Download.LocalSucceeds | tsm/download.go:470-490 | If every chunk is a hole or lies where the lookup puts it, a download succeeds without one request, whatever the peer |
| Download.HonestSucceeds | tsm/download.go:425-512 | With an honest peer that serves the references a download succeeds, whatever is on disk |
| Download.PartIsNamed | tsm/download.go:470-512 | A part is the chunk its record names, whatever size the record states; its length is the stated one if and only if the chunk's is |
| Download.OutcomeIs | tsm/download.go:369-513 | Whatever the sizes stated, success leaves the named chunks cut off or filled up, and exactly them if and only if the recorded size and the end of the last data reach their total and no further |
| Download.SizesDecide | tsm/download.go:369-513 | Where the records state true sizes, success leaves the named chunks if and only if the recorded size is their sum, or is less and the last of them is no hole |
| Download.Overstated | tsm/download.go:376-383 | A recorded size beyond the data: a download from a peer that has the data succeeds and ends in zeros |
| Download.Understated | tsm/download.go:466-474 | A recorded size short of a hole at the end: the download succeeds and ends early |
| Download.AttestedIsServed | tsm/download.go:386-423 | A peer that has the attested file serves, where the stated sizes put them, bytes with every digest referred to |
| Download.AssembleExact | tsm/download.go:470-512 | Writing and skipping over a preallocated file leaves the parts one after another, holes reading as zeros, cut off or filled up to the longer of its length and the end of the last data; and exactly the parts if and only if that is their length |
| Download.DeliveredIsOriginal | tsm/download.go:369-513 | What is delivered for an attested file with chunks is its original bytes |
| Download.OutcomeIsOriginal | tsm/download.go:369-513 | Any successful download of an attested file is its original bytes, files without chunks included |
| Download.DownloadOfPublished | tsm/download.go:369-513 | From the walked tree to the downloaded file: success on a file entry of the published, parsed manifest gives the bytes the tree held under its path |
| ContainerNs.Locked.GetSection | containerns/containerns.go:84-130 | The locked part of GetOrCreate as a function of the table |
| ContainerNs.Locked.ReleaseSection | containerns/containerns.go:296-320 | The locked part of Release as a function of the table |
| ContainerNs.Locked.FinishSection | containerns/containerns.go:355-365 | The locked end of stopEntry: the entry leaves the map only if it still is the current one, and its channel is closed |
| ContainerNs.ApplyKeeps | containerns/containerns.go:84-365 | Every step of any caller keeps the invariant on entries and callers |
| ContainerNs.OneInit | containerns/containerns.go:84-252 | In every reachable world a root file system has at most one un-reaped init |
| ContainerNs.OneStopper | containerns/containerns.go:324-365 | An entry marked as stopping is being stopped by exactly the caller who marked it until its channel is closed, and by nobody afterwards; it is closed at most once |
| ContainerNs.MarksAreFinal | containerns/containerns.go:296-365 | No step un-marks an entry, changes who stops it, counts on it again or re-opens its channel |
| ContainerNs.FinishNeverPanics | containerns/containerns.go:355-365 | A caller at the end of stopEntry always finds the channel open |
| ContainerNs.HandedIsLive | containerns/containerns.go:84-130 | What is handed out is current, un-reaped and not stopping |
| ContainerNs.WaiterIsServed | containerns/containerns.go:88-100 | A waiter can go on, or the one who will close its channel can |
| ContainerNs.GetGoesOn | containerns/containerns.go:84-130 | After each of its steps a caller in GetOrCreate still is, with no session gained or lost, or it has one session more on a live current namespace, or the start failed and the key has no entry |
| ContainerNs.MovesOne | containerns/containerns.go:84-365 | A step moves no other caller |
| ContainerNs.EachMoves | containerns/containerns.go:84-365 | Where each step takes its caller: no step is made in place |
| ContainerNs.GetEnds | containerns/containerns.go:84-130 | Over any run, a GetOrCreate call ends only in one of the last two ways |
| ContainerNs.CallBegins | containerns/containerns.go:84-320 | A call changes nothing but its caller's place; a release gives up one session of its key |
| ContainerNs.ReleaseGoesOn | containerns/containerns.go:296-365 | A caller in Release stays in it for that key until it is done, and no session is gained or lost |
| ContainerNs.WokenIsPast | containerns/containerns.go:92-96 | What a waiter is woken by is reaped, out of the map, and closed once |
| ContainerNs.CountedIff | containerns/containerns.go:110-130 | A step keeps every reference count equal to the sessions outstanding if and only if no live init fails its probe and only holders release |
| ContainerNs.RefCountIsSessions | containerns/containerns.go:110-320 | Over every run of such steps, reference counts are the sessions outstanding |
| ContainerNs.DeathLosesASession | containerns/containerns.go:110-130 | The run in which an init dies: the next session's namespace is stopped by the release of the first |
| Polling.Poll | cmd/thundersnapd/mcp_jobs.go:226-264 | The slice is the log from the offset to the next offset, which the scan finds |
| Polling.NextExactly | cmd/thundersnapd/mcp_jobs.go:226-264 | The next offset is the one just after the last line break in sight, or the horizon once the job is over, and no other |
| Polling.ProgressIff | cmd/thundersnapd/mcp_jobs.go:226-264 | A poll moves on if and only if the job is over with bytes left or 16000 bytes ahead hold a line break |
| Polling.LongLineStalls | cmd/thundersnapd/mcp_jobs.go:246-260 | A running line longer than the cap is never polled past |
| Polling.DrainsExactly | cmd/thundersnapd/mcp_jobs.go:226-264 | A finished log is at its end after k polls if and only if k is at least the rest divided by 16000, rounded up |
| Jobs.JobList.NotifyLocked | cmd/thundersnapd/mcp_jobs.go:87-92 | The revision grows, the current channel is closed and a new one takes its place |
| Jobs.JobList.TakeID | cmd/thundersnapd/mcp_jobs.go:523-526 | The next number is taken |
| Jobs.JobList.Launch | cmd/thundersnapd/mcp_jobs.go:489-498 | A running job is listed under its number and waiters are told |
| Jobs.JobList.WriteLog | cmd/thundersnapd/mcp_jobs.go:573 | Bytes appended to the log file, outside the lock, are not yet counted or announced |
| Jobs.JobList.RequestStop | cmd/thundersnapd/mcp_jobs.go:543-556 | Only the first reason on a live job is recorded and announced; the connection is closed exactly then |
| Jobs.JobList.Publish | cmd/thundersnapd/mcp_jobs.go:574-578 | The byte count grows by the payload and waiters are told |
| Jobs.JobList.RecordExit | cmd/thundersnapd/mcp_jobs.go:579-586 | The exit code is recorded and nobody is told |
| Jobs.JobList.Finish | cmd/thundersnapd/mcp_jobs.go:595-606 | The stop reason, else a clean exit, else loss becomes the state; the connection is dropped and waiters are told |
| Jobs.JobList.Statuses | cmd/thundersnapd/mcp_jobs.go:226-264 | A row for each job asked for, or none at all if some offset is outside its log; the last offset given for a job counts |
| Jobs.JobList.Look | cmd/thundersnapd/mcp_jobs.go:683-740 | One pass of the wait loop: unknown job, bad offset, satisfied with all rows, or the channel to wait on |
| Jobs.LookFromRows | cmd/thundersnapd/mcp_jobs.go:713-733 | The rows reported decide the condition: output, any exit, all exits |
| Jobs.RowTells | cmd/thundersnapd/mcp_jobs.go:226-264 | A row has its job's recorded state and exit code, and the log from the offset to the next offset |
| Jobs.PickedIff | cmd/thundersnapd/mcp_jobs.go:172-199 | The jobs asked for are those named, or all |
| Jobs.OffsetIs | cmd/thundersnapd/mcp_jobs.go:230-233 | The last offset given for a job counts, and 0 if none is |
| Jobs.RefusedIff | cmd/thundersnapd/mcp_jobs.go:683-712 | A wait is turned down exactly for a job not listed, or else for an offset outside of what its job has published |
| Jobs.MetIff | cmd/thundersnapd/mcp_jobs.go:713-733 | What a wait waits for, on the jobs themselves: a job over or with a line break within the cap, one job over, all over |
| JobRuns.ApplyKeeps | cmd/thundersnapd/mcp_jobs.go:543-607 | Every step of launches, collectors, stops and waiters keeps the invariant |
| JobRuns.NoMissedWakeup | cmd/thundersnapd/mcp_jobs.go:683-754 | While a waiter's channel is open, looking again would only block on the same channel |
| JobRuns.KillIsWoken | cmd/thundersnapd/mcp_jobs.go:786-804 | A waiting kill can leave its wait if and only if none of its jobs runs any more |
| JobRuns.AnyExitIsWoken | cmd/thundersnapd/mcp_jobs.go:713-733 | A wait for any exit can end if and only if one of its jobs runs no more |
| JobRuns.OutputIsWoken | cmd/thundersnapd/mcp_jobs.go:713-733 | A wait for output can end if and only if one of its jobs is over or has a line break in sight of its offset |
| JobRuns.LaunchBegins | cmd/thundersnapd/mcp_jobs.go:489-541 | A launched job runs, with no reason, exit code, byte or news |
| JobRuns.OwnSteps | cmd/thundersnapd/mcp_jobs.go:511-541 | Taking a number, giving it back and giving up a wait concern nobody else |
| JobRuns.QuietLook | cmd/thundersnapd/mcp_jobs.go:683-740 | A blocked look stays blocked as long as no state, byte count or published byte changes |
| JobRuns.RevisionTells | cmd/thundersnapd/mcp_jobs.go:87-92 | Revisions never fall, and between two moments with the same revision no job appeared, changed state or stop reason, or published a byte |
| JobRuns.StepRecords | cmd/thundersnapd/mcp_jobs.go:543-606 | What each collector step and stop request does to its job: log, byte count, exit code, reason, state, and nothing else of these; the last output and the end carry the revision of the step that made them |
| JobRuns.RunGrows | cmd/thundersnapd/mcp_jobs.go:543-607 | Over every run logs and byte counts only grow, the first stop reason stays, and an ended job never changes again |
| JobRuns.EndingIs | cmd/thundersnapd/mcp_jobs.go:595-606 | An ended job has published its whole log, its end is its last news, and its state is its first stop reason, else exited if an exit frame came, else lost |
| JobRuns.OneEnding | cmd/thundersnapd/mcp_jobs.go:558-607 | Over every run each job makes its way out of running at most once |
| JobRuns.LaunchIsFresh | cmd/thundersnapd/mcp_jobs.go:511-541 | A number held by a launch is in no list and held by no other launch |
| JobRuns.PollsTile | cmd/thundersnapd/mcp_jobs.go:226-264 | Over any run, the slices a client polls are the log from its first offset to its last, without gap or overlap |
| JobRuns.PollsBreakAtLines | cmd/thundersnapd/mcp_jobs.go:226-264 | Each slice fits the cap and, while the job runs, ends just after a line break |
| JobRuns.EndedLogIsDelivered | cmd/thundersnapd/mcp_jobs.go:226-264 | Once a job has ended, polls return the whole rest of its log if and only if there are enough of them |
| Tail.TailLines | cmd/thundersnapd/mcp.go:405-425 | The backward scan in memory gives the tail |
| Tail.ReadTail | cmd/thundersnapd/mcp.go:440-498 | Reading backwards in chunks of any size gives the same tail |
| Tail.TailIsLastLines | cmd/thundersnapd/mcp.go:405-425 | The tail is the concatenation of the last n lines, a final newline ending the last of them |
| Tail.LinesAre | cmd/thundersnapd/mcp.go:405-425 | What lines are: together the text, each without a line feed but for its last byte, each but the last ending in one |
| SnapHash.Encode | snaphash/snaphash.go:82-96 | The bit loop gives the spelling whose letters are the shifted sextets |
| SnapHash.Decode | snaphash/snaphash.go:123-160 | The bit loop gives the hash, or an error for a wrong length, letter, or unused bit |
| SnapHash.DecodeEncode | snaphash/snaphash.go:82-160 | Decoding an encoded hash gives the hash |
| SnapHash.EncodeDecode | snaphash/snaphash.go:82-160 | Every accepted string is the spelling of what it decodes to |
| SnapHash.DecodeInjective | snaphash/snaphash.go:123-160 | No two accepted strings name the same hash |
| SnapHash.FirstCharacter | snaphash/snaphash.go:82-96 | The first letter has a value of 0..31, never '-' or '_' |

## Left out

- SHA-256, HTTP, SSH, the file system, btrfs, cgroups and namespaces themselves: foreign. Digests are function parameters, a peer is any function from requests to answers, files are maps of bytes, and whether an init starts or answers is any choice.
- Sizing the Bloom filter from an error rate in floating point (tsm/bloom.go:36-63): any number of words and of probes.
- Directory scanning in OpenChunkIndexWith (tsm/chunkindex.go:156-170): the files ending in `.tsc` are an argument; which of them are opened is modelled. A missing filter is one without bits.
- ChunkIndex.Index.FindChunk: snapshot records are values in the list rather than shared pointers; nothing else in the source keeps one across lookups.
- The absent cache's size limit is kept, but its contents are modelled only as a set.
- TsmEntry.RoundTrip: encodings below 65536 bytes and flags with a zero low nibble, because the length field is a uint16 and type and flags share a byte pair; longer entries are encoded, truncated length and all, but nothing is promised of decoding them.
- Tsc.Writer.SortChunks: the index map is stated for at most 2^32 chunks; the writer's positions wrap beyond that.
- Callbacks that return errors, progress counters, statistics and their output.
- History.ShortcutSound: regular files that can be read; refused reads during a walk are in the indexer but not in the histories. Replacing a file by renaming another onto it is a removal and a creation, as file systems stamp it. A capture whose files do not fit the format is no action; History.TakeHappens says when there is none.
- Meaning.WalkLinked: files that can be read (`Meaning.StepLinkedIff` says what a refused one does), and inode numbers whose hard link keys do not collide.
- TsmWriter.ParseTsm: an entry whose fixed fields overrun its length is an error of its own; the source reads on into what follows or stops there with a run-time error.
- Taints and stamps of snapshots, and their intersection when a capture is answered with an older snapshot (cmd/thundersnapd/snapqueue.go:264-285).
- Download of whole trees file by file, with its temporary names and progress reports, and the creation of directories and symbolic links (tsm/download.go:67-356, 518-561); the histories model its outcome. A target directory that starts as a clone of a parent is not part of it.
- UTF-8 cleanup of tails and slices: results are stated on raw bytes. The wait condition is not affected, since a slice of a running job ends in a line break.
- JobRuns.NoMissedWakeup: time-outs are any step at which a waiter gives up; signals sent before waiting, request cancellation, job labels and timestamps are not represented, and job numbers stand for the strings made of them.
- Jobs.JobList.Look: the order of the rows in a reply; rows are a map by job.
- The server around these parts: control servers, NBD, port mapping, NFS, SSH and MCP handlers, virtual machines, image extraction, metrics and policy.
