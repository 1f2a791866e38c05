# A verified model of an inode file system and its Huffman codec

The repository is a small file system in C. Files are stored in 4096-byte clusters behind 12 direct pointers and
single, double and triple indirect trees; directories are files of sorted, serialised entries; each open file has a
write-back cache of four clusters; a bitmap and an inode table are kept in memory and flushed on unmount. The command
line adds a defragmenter, a recursive directory removal and a Huffman compressor. The Dafny modules model this code and
prove what it is for.

- Huffman codec: HuffmanTree (node array), HuffmanShape (depth bound), HuffmanCost (size bound), HuffmanSource,
  HuffmanLengths, CanonicalCode and CanonicalTables (the canonical codes of section 3.2.2 of RFC 1951), BitIO,
  HuffmanCodec, HuffmanFormat (the bytes of a compressed file), DeepSource.
- Storage: Bitmap, Clusters, Inodes, Ownership (who owns which cluster), FileViews, AllocationSteps, Truncation,
  Occupancy (how many), FlatFile (one flat byte sequence), Storage (the allocator and the inode table).
- Open files: CachePages, CacheTouches (which clusters are cached), OpenFiles, PlainFiles (what a plain byte sequence
  promises), Interleaving (what one file's work leaves of another).
- Defragmenter: PointerTrees, Rebuild, PointerCounts (how many clusters it takes), Defragment.
- Directories and names: Entries, Directories, FailedInsertions, FailedRenames, Namespace, Calls (the calls as steps of
  a value), Paths (where paths lead), CallPaths (what calls do to them), Vfs, Subtrees, RecursiveRemove.
- Names and open files together: Actions (names, contents, descriptors and positions as one value), Descriptors (any
  number of open files with pages not yet written back, while names come and go around them).
- Layout: TableImage, Format. Steps is what a caller sees of everything that can be done, as steps of a value, and
  StepPaths what these steps mean; Lifetime puts all layers together and proves that they do just that.

Code that changes things in place is modelled by classes and loops proved against specifications on values; what the
specifications promise is proved by lemmas. The source's hypotheses are stated in contracts: disk reads and writes of
existing clusters succeed, writes start within the file, logical clusters stay below 12 + 1024 + 1024^2 + 1024^3, one
descriptor per file, and at most 32768 clusters where the layout matters.

## Findings

What the model shows about the code where it does not do what one might expect; each has its exact condition.

- Deep trees (cli/src/commands/file_compress_commands.c:161-163, 482-484): compress and decompress do not give back a
  source whose Huffman tree is deeper than 16, because bytes without a code are skipped on output.
  `HuffmanCodec.RoundTripExactly` is the exact condition, `DeepSource.DoublingIsLost` a family of inputs,
  `DeepSource.DeepSourceExists` one of 262143 bytes. Below 4181 bytes it cannot happen.
- The bit writer (cli/src/commands/file_compress_commands.c:281-294) drops the last, partly filled byte without an
  error when the output is full; this is why the room for the payload appears in `HuffmanCodec.RoundTripExactly`.
- Layout (src/storage/format.c:173-185): above 32768 clusters the bitmap takes more than one cluster and, being written
  last, overwrites the start of the inode table; `Format.FormatDisk` states that the formatted disk reads back exactly
  up to 32768 clusters.
- Failed insertion (src/logical/dir.c:163-178): a directory that needs more clusters than are free is left with a prefix
  of its new bytes, and every cluster that was free is marked used. It keeps its names exactly when the new name sorts
  after all of them (`FailedInsertions.FailedDirectory`); otherwise it names a freed inode and loses names, as
  `FailedInsertions.CrowdLosesName` shows on a directory of 341 entries.
- Failed renaming (src/logical/dir.c:713-724): a longer name that does not fit leaves a prefix in the same way, and here
  the directory is never what it was (`FailedRenames.FailedRename`); `FailedRenames.CrowdLosesTwo` loses two names.
- Making a directory (src/vfs/operations.c:398-401) whose name is refused or finds no space leaks the new inode
  (`Vfs.Vfs.CreateDirectory`).
- Removing an empty directory (src/vfs/operations.c:441-460) frees the inode without its clusters, which stay marked
  used and belong to nobody, and the call takes any closed file that parses to at most two entries for a directory
  (`Vfs.Vfs.RemoveDirectory`).
- Opening (src/vfs/context.c:101-161) creates and empties the file before it finds that no descriptor is free
  (`Vfs.Vfs.Open`).
- Recursive removal (cli/src/commands/directory_commands.c:148-151) does not look at open descriptors: they are left on
  freed inodes exactly when one was open below the directory (`RecursiveRemove.RemoveTree`). Its copy of the directory's
  inode is out of date by the time it is truncated; the pointers in it still agree, so exactly the right clusters become
  free (`RecursiveRemove.Reclaim`).
- Defragmentation that fails (cli/src/commands/defrag_command.c:426-435) gives back the run but not the pointer clusters
  it took: exactly when the run is found and the free clusters do not suffice for the second copy, every cluster that
  was free outside the run is marked used and belongs to nobody (`Defragment.Defragmenter.MoveTo`).
- Defragmentation that succeeds (cli/src/commands/defrag_command.c:439-457) keeps the number of used clusters exactly
  when the file owned no more than its clusters need; files written through descriptors always do
  (`OpenFiles.OpenFile.Session`), files whose writing ran out of space may not.
- Writing past the end (src/alloc/alloc.c:401-403) leaves unreadable holes exactly when a whole cluster is skipped
  (`FlatFile.DenseAfterWrite`).

## Model

| member | source | states |
|---|---|---|
| HuffmanCodec.RoundTripExactly | cli/src/commands/file_compress_commands.c:428-559 | for every source of at most 2^32 - 1 bytes and any two capacities, decompressing the compressed source gives it back if and only if the source is not empty, its tree is at most 16 deep, the first capacity holds header and payload and the second the source |
| HuffmanCodec.CommandRoundTrip | cli/src/commands/file_compress_commands.c:635-649 | with the capacities the commands give, compressing never fails, and the source survives if and only if it is not empty and its tree is at most 16 deep |
| HuffmanCodec.ShortRoundTrip | cli/src/commands/file_compress_commands.c:428-559 | every non-empty source of fewer than 4181 bytes survives |
| DeepSource.DeepSourceExists | cli/src/commands/file_compress_commands.c:143-175 | there is a source of 262143 bytes whose tree is deeper than 16, and it survives with no capacities at all |
| DeepSource.DoublingIsLost | cli/src/commands/file_compress_commands.c:143-175 | 18 to 32 byte values, each twice as frequent as the one before: the tree is deeper than 16 and the source survives with no capacities at all |
| DeepSource.DoublingIsDeep | cli/src/commands/file_compress_commands.c:67-141 | k byte values, each twice as frequent as the one before, make a tree of height at least k - 1 |
| HuffmanSource.ShortSourcesAreShallow | cli/src/commands/file_compress_commands.c:44-175 | a source of fewer than Fib(19) = 4181 bytes has a tree at most 16 deep |
| HuffmanShape.FibonacciWeight | cli/src/commands/file_compress_commands.c:67-141 | a node of height h weighs at least Fib(h + 2), for every array of two-smallest merges |
| HuffmanShape.SiblingIsHeavier | cli/src/commands/file_compress_commands.c:67-141 | of two siblings each weighs at least as much as the children of the other, the sibling property behind the depth bound |
| HuffmanCodec.PayloadBound | cli/src/commands/file_compress_commands.c:477-494 | the encoded bits are at most ceil(log2 k) per byte for k distinct values, so the payload is never longer than the source |
| HuffmanCost.TreeCostBound | cli/src/commands/file_compress_commands.c:67-141 | the tree built over k leaves costs at most ceil(log2 k) times its weight |
| HuffmanCost.SourceDepthBound | cli/src/commands/file_compress_commands.c:67-141 | the summed leaf depths of all bytes of a source are at most ceil(log2 k) times its length |
| HuffmanTree.BuildTree | cli/src/commands/file_compress_commands.c:67-141 | the node array filled in place is the greedy forest: one leaf for each occurring symbol in symbol order, then merges of the two lightest free nodes, lowest index first |
| HuffmanTree.MergesLightest | cli/src/commands/file_compress_commands.c:67-141 | every inner node joins the lightest free node and the lightest of the others, the earlier one of two equally light ones, and there is one inner node less than leaves |
| HuffmanTree.FindMinimumFrequency | cli/src/commands/file_compress_commands.c:44-65 | the lowest index among the lightest unused nodes of positive weight below 2^32 - 1, and -1 if and only if there is none |
| HuffmanTree.LeavesFacts | cli/src/commands/file_compress_commands.c:67-90 | the leaves stand in increasing symbol order, each with the frequency of its symbol |
| HuffmanTree.ActiveWeight | cli/src/commands/file_compress_commands.c:92-138 | the weight of the free nodes stays the weight of the leaves through all merges |
| HuffmanTree.CountFrequencies | cli/src/commands/file_compress_commands.c:31-42 | the table holds for each byte value how often it occurs in the source |
| HuffmanSource.FrequencyTreeFacts | cli/src/commands/file_compress_commands.c:67-141 | the tree has exactly one leaf for each occurring symbol, carrying its frequency |
| HuffmanLengths.ComputeCodeLengths | cli/src/commands/file_compress_commands.c:143-190 | the table written by the recursive pass is each symbol's leaf depth, at least 1, and 0 for symbols deeper than 16 or without a leaf |
| HuffmanLengths.TreeKraft | cli/src/commands/file_compress_commands.c:143-175 | the leaves below a node at depth d take at most the code space of depth d |
| HuffmanLengths.SourceLengthsDecodable | cli/src/commands/file_compress_commands.c:143-190 | the code lengths of every source satisfy the Kraft inequality, cut symbols included |
| HuffmanLengths.DeepByteWithoutCode | cli/src/commands/file_compress_commands.c:161-163 | a tree deeper than 16 leaves some byte of the source without a code |
| CanonicalCode.CodeFits | cli/src/commands/file_compress_commands.c:192-229 | a canonical code fits its length whenever the Kraft sum is at most 1 |
| CanonicalCode.PrefixFree | cli/src/commands/file_compress_commands.c:192-229 | no codeword is a prefix of another symbol's |
| CanonicalCode.CodesStart | cli/src/commands/file_compress_commands.c:192-229 | the first coded symbol, by length and then by symbol, has the code 0 |
| CanonicalCode.CodesFollow | cli/src/commands/file_compress_commands.c:192-229 | of two neighbours in that order the second has the next code, shifted left by as many bits as it is longer |
| CanonicalCode.DecodeCodeword | cli/src/commands/file_compress_commands.c:391-426 | the decoder, given a codeword and anything after it, returns its symbol and consumes exactly its bits |
| CanonicalTables.GenerateCanonicalCodes | cli/src/commands/file_compress_commands.c:192-229 | the table built with counters is first code of the length plus rank among the symbols of that length |
| CanonicalTables.BuildDecodeTable | cli/src/commands/file_compress_commands.c:334-389 | the decoder's first codes equal the encoder's, and the sorted symbols hold each coded symbol at the place its length and rank give |
| HuffmanCodec.DecodeSymbol | cli/src/commands/file_compress_commands.c:391-426 | the table decoder over the bit reader computes the specified decoding of one symbol, with the 32-bit unsigned difference of the source |
| HuffmanCodec.DecodeEncoded | cli/src/commands/file_compress_commands.c:482-559 | decoding the encoded bits, whatever follows them, gives the source back when every byte has a code |
| HuffmanCodec.DecodedFits | cli/src/commands/file_compress_commands.c:497-559 | whatever the decoder returns consists of coded bytes whose encoding is no longer than the bits read |
| BitIO.BitWriter.WriteBits | cli/src/commands/file_compress_commands.c:250-279 | the given bits are appended, most significant first, if and only if there is room, and nothing before the payload changes |
| BitIO.BitWriter.Finalize | cli/src/commands/file_compress_commands.c:281-294 | the bytes out are the bits written, zero-padded, or the whole bytes alone when the padded one has no room |
| BitIO.BitReader.ReadBit | cli/src/commands/file_compress_commands.c:315-332 | the next bit of the input, and -1 at its end |
| HuffmanCodec.Compress | cli/src/commands/file_compress_commands.c:428-495 | the destination buffer holds magic, size, lengths and payload as specified, or the call returns 0 |
| HuffmanCodec.Decompress | cli/src/commands/file_compress_commands.c:497-559 | the destination buffer holds the decoded bytes, and the call returns 0 for anything else than `HuffmanFormat.AcceptedExactly` says |
| HuffmanFormat.AcceptedExactly | cli/src/commands/file_compress_commands.c:497-559 | an input is accepted if and only if it has 264 bytes or more, starts with the bytes 48 55 46 31 (hexadecimal), says a size that is not zero and has room, and its payload decodes under its lengths to that many bytes; the result has just that size |
| HuffmanFormat.CompressedHeader | cli/src/commands/file_compress_commands.c:428-470 | every compressed file starts with the bytes 48 55 46 31, the size of the source in four bytes, low byte first, and the 256 code lengths |
| HuffmanFormat.PayloadBits | cli/src/commands/file_compress_commands.c:250-294 | compress succeeds if and only if header and all bits but those of a last byte that is not full have room; the payload then reads as the encoded bits filled up with zeros, or as all whole bytes of them |
| HuffmanFormat.ByteBits | cli/src/commands/file_compress_commands.c:315-332 | the bits of a byte are read from the most significant one down |
| Bitmap.Bitmap.MarkUsed | src/alloc/bitmap.c:98-115 | exactly the bit of the cluster is set, and an out-of-range cluster is refused |
| Bitmap.Bitmap.MarkFree | src/alloc/bitmap.c:118-135 | exactly the bit of the cluster is cleared, and an out-of-range cluster is refused |
| Bitmap.FlagIsBit | src/alloc/bitmap.c:98-135 | the flag of cluster c is bit c % 8, counted from the lowest, of byte c / 8 |
| Bitmap.Bitmap.FindFree | src/alloc/bitmap.c:60-95 | the lowest free cluster, and NoSpace if and only if all are used, though whole bytes are skipped |
| Bitmap.Bitmap.FindContiguous | src/alloc/bitmap.c:224-257 | the first run of free clusters that is long enough, and NoSpace if and only if there is none |
| Bitmap.Bitmap.CountUsedClusters | src/alloc/bitmap.c:273-295 | the number of set bits |
| Storage.Storage.AllocateAndZeroCluster | src/alloc/alloc.c:11-44 | the lowest free cluster is marked used and zeroed, nothing else changes, and NoSpace means all are used |
| Storage.Storage.ResolveCluster | src/alloc/alloc.c:83-407 | through direct, single, double and triple pointers: without allocation nothing changes and a hole is reported; with it the missing clusters on the way are taken lowest first and every position not on the way keeps its cluster |
| Inodes.LookupByLevel | src/alloc/alloc.c:83-407 | which pointers lead to a logical cluster: 12 direct ones, 1024 behind one pointer cluster, 1024^2 behind two levels, 1024^3 behind three |
| Storage.Storage.ReadData | src/alloc/alloc.c:409-478 | the bytes at the offset, up to count or the end of file; fails if and only if a cluster in the range is not mapped |
| Storage.Storage.WriteData | src/alloc/alloc.c:480-561 | bytes in the range are the source, all other bytes and all other inodes' files are unchanged, the size is the maximum, and on a full disk exactly a whole-cluster prefix has been written |
| FlatFile.WriteIsSplice | src/alloc/alloc.c:480-561 | writing into a dense file at an offset within it splices the bytes into one flat sequence and keeps the file dense |
| FlatFile.DenseAfterWrite | src/alloc/alloc.c:480-561 | writing anywhere leaves the file dense if and only if the first cluster written is at most one after its last |
| FlatFile.ReadIsSlice | src/alloc/alloc.c:409-478 | what a read returns is that slice of the flat sequence |
| FlatFile.ContentByCluster | src/alloc/alloc.c:409-478 | byte i of logical cluster l of a file is byte i of the cluster its pointers lead to |
| Ownership.GainsSound | src/alloc/alloc.c:83-407 | one more position with a data cluster that nobody owned: every cluster is still owned at most once, marked used, and outside the file system's own clusters |
| Storage.Storage.WriteChunk | src/alloc/alloc.c:480-561 | resolving and writing one chunk: the volume stays sound, every other inode keeps what it owns and reads, and clusters are taken lowest first, for this file only |
| Ownership.LinkChild | src/alloc/alloc.c:83-407 | hanging a fresh cluster below an open pointer gives exactly that one position a cluster and keeps all ownership sound |
| Storage.Storage.FreeIndirectBlocks | src/alloc/alloc.c:563-602 | exactly the clusters at or below the pointer cluster become free |
| Storage.Storage.TruncateFile | src/alloc/alloc.c:604-650 | exactly the clusters the inode owns become free, pointer clusters included, and no other file changes |
| Truncation.TruncatedFrees | src/alloc/alloc.c:604-650 | after truncation the data and pointer clusters of that inode are free, and those of every other inode are marked used |
| Truncation.WriteThenTruncateRestores | src/alloc/alloc.c:480-650 | a file that owned nothing, grown and written in any way and then truncated, leaves the bitmap as it was |
| Occupancy.PositionsSize | src/alloc/alloc.c:83-407 | a file of n clusters has n + PointerClusters(n) positions: 0, 1, 1 + 1 + ceil((n - 1036) / 1024) pointer clusters, and the triple-level form |
| Occupancy.PointerClusterNumbers | src/alloc/alloc.c:83-407 | in numbers: 0 up to 12 clusters, 1 up to 1036, then 2 and one for each 1024 more, and beyond 1049612 the triple-level form |
| Occupancy.WriteCount | src/alloc/alloc.c:480-561 | writing n clusters from empty takes exactly n + PointerClusters(n) clusters |
| Occupancy.TruncateCount | src/alloc/alloc.c:604-650 | truncating a file of n clusters gives back exactly n + PointerClusters(n) |
| FlatFile.WriteKeepsOccupies | src/alloc/alloc.c:480-561 | a dense file that owns exactly the clusters its size needs still does after a write |
| Occupancy.FilledCount | src/alloc/alloc.c:11-44 | a write takes exactly one cluster for each position it fills |
| Occupancy.WholeCount | src/alloc/alloc.c:480-561 | a write that leaves its first n clusters mapped has taken exactly the clusters that were missing for them, in a file that owned any part of them before |
| Occupancy.PartCount | src/alloc/alloc.c:480-561 | a write that leaves one of them unmapped has taken fewer than were missing |
| Occupancy.MissingOfNew | src/alloc/alloc.c:480-561 | a file that owns nothing misses n data clusters and PointerClusters(n) pointer clusters |
| Storage.Storage.WriteInode | src/metadata/index.c:118-131 | the table entry is replaced and the table marked dirty, or the id refused |
| Storage.Storage.AllocateInode | src/metadata/index.c:133-166 | the first unused inode, reset and marked used, and NoSpace if and only if all are used |
| Storage.Storage.FreeInode | src/metadata/index.c:168-180 | the entry is reset, or the id refused |
| OpenFiles.OpenFile.Session | src/vfs/context.c:72-241 | open, any allowed reads, writes and seeks, close: unless the disk fills up the replies are those of a plain byte sequence and the clusters on disk hold the sequence that results; no other file changes, and a file that owned just what it needed still does |
| PlainFiles.LastBytes | src/vfs/context.c:243-306 | on a plain sequence: seeking to n before the end and reading n bytes gives the last n bytes |
| PlainFiles.Appends | src/vfs/context.c:243-306 | on a plain sequence: seeking to the end and writing appends |
| PlainFiles.SeeksAdd | src/vfs/context.c:243-306 | on a plain sequence: a seek from the start and one from there are one seek by the sum |
| PlainFiles.SeeksRefused | src/vfs/context.c:243-306 | on a plain sequence: a seek to before the start, or from an unknown origin, is refused and moves nothing |
| PlainFiles.Reads | src/vfs/io.c:98-184 | on a plain sequence: a read gives as many bytes from the position on as asked for and there are, and moves behind them |
| PlainFiles.WritesRead | src/vfs/io.c:186-278 | on a plain sequence: what was written reads back, and every other byte stays |
| OpenFiles.OpenFile.Run | src/vfs/io.c:98-278 | any run of operations on one descriptor gives the replies of the plain byte sequence, or a prefix of them and a full disk |
| OpenFiles.OpenFile.Read | src/vfs/io.c:98-184 | the bytes and count of the plain sequence at the position; only a full disk, when a page must be written back, cuts it short, and never while nothing is dirty; the clusters touched are exactly each one read and, while a slot is free, the next |
| OpenFiles.OpenFile.Write | src/vfs/io.c:186-278 | the bytes are spliced into the sequence at the position, and the inode carries the new size at once; exactly the clusters written are touched, and each one written to its end is written back |
| OpenFiles.OpenFile.Seek | src/vfs/context.c:243-306 | position and status of the plain sequence, or, when pages must be written back first, a full disk and no move; a seek to another cluster writes everything back and empties the cache, any other leaves cache and disk alone |
| OpenFiles.OpenFile.Close | src/vfs/context.c:206-241 | everything is on disk, dense, with its cluster count; for want of space the descriptor stays open |
| OpenFiles.OpenFile.Open | src/vfs/context.c:101-182 | a regular file stands for its bytes, for none when truncated; anything else is refused |
| OpenFiles.OpenFile.LoadCluster | src/vfs/cache.c:110-202 | the page wanted is in a slot, loaded over the least recently used one when no slot is free; this never fails for a missing cluster |
| OpenFiles.OpenFile.FlushSlot | src/vfs/cache.c:40-87 | a dirty slot is written to disk and clean afterwards, the file's bytes and all other files unchanged; a clean slot changes nothing; for want of space nothing is lost, no cluster is free and the page has none |
| OpenFiles.OpenFile.PrefetchNextCluster | src/vfs/io.c:24-96 | the next cluster is touched and one more slot used if and only if a slot was free and the cluster not cached; nothing cached is dropped |
| OpenFiles.OpenFile.FindLeastRecentlyUsedSlot | src/vfs/cache.c:19-38 | a slot with the smallest time stamp |
| CachePages.MissReadsPage | src/vfs/cache.c:161-189 | every cluster of the file that is not cached is mapped, and reading it gives its zero-padded page |
| CachePages.CacheHoldsLatest | src/vfs/cache.c:19-38 | a full cache holds exactly the four most recently used distinct clusters since it was last emptied |
| CacheTouches.CachedAfterReading | src/vfs/io.c:98-184 | reading clusters a to b - 1 through an empty cache leaves exactly them and the next one cached while these are at most four, else the last four read |
| CacheTouches.WrittenIsOnDisk | src/vfs/io.c:186-278 | after a write its bytes in completed clusters are on disk, and the last cluster, when not full, waits in a dirty slot |
| CacheTouches.TouchedIsCached | src/vfs/cache.c:110-202 | as many clusters are cached as were touched since the cache was empty, at most four; while a slot is free all of them are |
| Interleaving.HoldsElsewhere | src/vfs/cache.c:110-202 | what is done to one file leaves what cache and disk together hold of another |
| Interleaving.Interleave | src/vfs/io.c:98-278 | two descriptors on different files, used in any order, each give the replies of their own plain sequence |
| Interleaving.HoldsStill | src/vfs/io.c:98-278 | work elsewhere that leaves a file's inode and stored clusters leaves what cache and disk together hold of it |
| Descriptors.HeldWorked | src/vfs/cache.c:40-87 | while pages of open files wait in caches, work on one of them leaves the tree on disk, the names, and the contents of all other files as they are shown |
| Descriptors.HeldNoMore | src/vfs/context.c:206-241 | once an open file's bytes are all on disk, it shows the same without its cache |
| Descriptors.FileSystem.DoName | src/vfs/operations.c:79-559 | a call on names with any files open and written but not flushed: its step on the plain value, and every open file still holds its bytes; it stops only when the call damaged a directory |
| Descriptors.FileSystem.DoOpen | src/vfs/context.c:72-182 | opening a file that is not open yet, with any others open: the step on the plain value, on the first closed descriptor, at the start or the end as asked |
| Descriptors.FileSystem.DoWork | src/vfs/io.c:98-278 | one read, write or seek on one of any open files: the plain sequence's reply and position, the new bytes shown at once, all other files, names and descriptors as before; cut short only on a full disk |
| Descriptors.FileSystem.DoClose | src/vfs/context.c:206-241 | the descriptor is closed and everything shown stays; for want of space it stays open, and nothing is lost |
| Descriptors.FileSystem.Act | src/vfs/context.c:72-306 | any one of these actions is its step on the plain value, with what it met fixed by the state before; it fails only as a call that damaged a directory or work on a full disk |
| Actions.OpenedAt | src/vfs/context.c:72-182 | a file just opened is behind the first closed descriptor with the rights asked for, at its end for appending, else at its start |
| Actions.WorkStays | src/vfs/io.c:98-278 | work on a descriptor changes at most the bytes of its file, which only writes do, and its own position |
| Actions.NotOpen | src/vfs/context.c:206-306 | a descriptor that is not open can neither be worked on nor closed, and nothing changes |
| Descriptors.FileSystem.Run | src/vfs/context.c:72-306 | any mix of calls on names, opens, reads, writes, seeks and closes of any number of files: everything reported, and all names, contents, descriptors and positions, are those of the actions on a plain value without caches; it stops early only before an action that would open a file twice or leave a hole, after a call that damaged a directory, or after work on a full disk |
| Defragment.Defragmenter.ProcessInode | cli/src/commands/defrag_command.c:260-469 | moves the file if and only if it is a used regular file of at least two clusters, all mapped and not in a row, a free run of that length exists, and the free clusters suffice for a second copy with its pointer clusters; after a move its clusters are consecutive and it owns exactly what it needs; without one nothing changes, except that a move begun in vain leaves only the run free; the volume stays sound and all files and this one's bytes stay |
| Defragment.ScatteredMeans | cli/src/commands/defrag_command.c:260-350 | which files are moved, in terms of pointers and bitmap: in use, regular, not empty, two clusters or more, all mapped, one of them not next to the one before, and a free run as long |
| Defragment.CountedMeans | cli/src/commands/defrag_command.c:260-469 | which files count in the statistics: at most one cluster, or all in a row, or moved |
| Defragment.Defragmenter.MoveTo | cli/src/commands/defrag_command.c:352-466 | succeeds if and only if n + PointerClusters(n) clusters are free; then used clusters plus those owned before equal used clusters before plus those needed; otherwise the run is given back and every other cluster of the disk is marked used, with the same owners as before |
| Defragment.RebuildPointers | cli/src/commands/defrag_command.c:16-258 | succeeds if and only if PointerClusters(n) clusters are free, takes exactly that many, bottom up, and otherwise takes all that were free |
| Defragment.BuildTree | cli/src/commands/defrag_command.c:78-258 | one pointer tree of d levels over the next clusters, holding them in order; succeeds if and only if as many clusters are free as such a tree has pointer clusters, and takes exactly these |
| Defragment.TakeFree | cli/src/commands/defrag_command.c:41-52 | the lowest free cluster, and NoSpace if and only if none is free |
| PointerCounts.SlotAdds | cli/src/commands/defrag_command.c:16-258 | the tree the builder makes for pointer k has exactly the pointer clusters by which the closed count of the walker's positions grows |
| Rebuild.RebuiltLookup | cli/src/commands/defrag_command.c:16-258 | the walker, without allocation, finds the i-th given cluster for every i below the list's length and nothing beyond |
| Rebuild.ReplacedSound | cli/src/commands/defrag_command.c:352-466 | replacing the old pointers by the rebuilt ones keeps every cluster owned once and marked used |
| Rebuild.MoveCount | cli/src/commands/defrag_command.c:352-466 | a move gives back all the file owned and takes exactly what its clusters need |
| Entries.ParseSerialized | src/logical/dir.c:60-190 | parsing what was saved gives the same entries |
| Entries.SortKeepsNames | src/logical/dir.c:25-42 | sorting entries with distinct names makes them strictly sorted and keeps the map they stand for |
| Entries.BinarySearch | src/logical/dir.c:463-510 | on sorted entries the binary search finds an entry if and only if the name is there |
| Entries.FindName | src/logical/dir.c:289-294 | the linear search finds the first entry of that name, and none if and only if there is none |
| Entries.ValidateName | src/logical/dir.c:226-248 | accepts exactly names of 1 to 255 bytes without slash or backslash other than "." and ".." |
| Entries.SortedDetermined | src/logical/dir.c:25-34 | strictly sorted entries are determined by the map they stand for |
| Entries.CompareIsLexicographic | src/logical/dir.c:25-34 | a name is before another if and only if it is a proper prefix or has the smaller unsigned byte where they first differ |
| Entries.ParseWalk | src/logical/dir.c:60-135 | from any bytes the records are read each where the one before says it ends, up to the first that says 0 or has no room for a header |
| Entries.RecordParts | include/fs/types.h:27-63 | from a record, whatever follows it, its inode, length and name read back, and the rest starts right after its padded length |
| Directories.StoreWhole | src/logical/dir.c:137-190 | the file holds exactly the given bytes if and only if as many clusters are free as positions for them are missing, and then that many are taken, lowest first; otherwise the inode stays, shows a prefix of the new bytes, and no cluster is free |
| Directories.SaveEntries | src/logical/dir.c:137-190 | the directory is the given entries if and only if their bytes fit; otherwise it shows the first bytes of them |
| Directories.LoadEntries | src/logical/dir.c:44-135 | the sorted entries of the file, or failure if and only if a byte of it is not stored |
| Directories.InsertEntry | src/logical/dir.c:250-332 | the directory is the old map with the name added; refused if and only if the name is not valid or taken or the inode is no directory; no space if and only if the clusters missing for the longer bytes are not free, and then the exact bytes left are given |
| Directories.RemoveEntry | src/logical/dir.c:393-460 | the directory is the old map without the name; "." and ".." are refused; the bitmap and the clusters owned do not change |
| Directories.RenameEntry | src/logical/dir.c:634-724 | the directory is the old map with the name replaced; every status has its exact condition, for want of space that the clusters missing for the new bytes are not free, and then the directory shows the first bytes of its renamed entries |
| Directories.UpdateEntryInode | src/logical/dir.c:334-391 | the directory is the old map with the name leading to the new inode |
| Directories.FindEntry | src/logical/dir.c:462-510 | the value of the map at the name, and failure if and only if it is absent |
| Directories.IsEmpty | src/logical/dir.c:726-761 | at most two entries, which for a directory with "." and ".." means just these |
| Directories.CreateNew | src/logical/dir.c:563-632 | a directory of "." and ".."; it takes the lowest free cluster, and fails if and only if none is free |
| FailedInsertions.FailedDirectory | src/logical/dir.c:137-190 | after an insertion that found no space the directory shows its old map if and only if the new name sorts after all its names |
| FailedInsertions.CrowdLosesName | src/logical/dir.c:137-190 | a directory of 341 entries in one cluster: a failed insertion of "a" leaves it naming "a" and without its last name |
| FailedRenames.FailedRename | src/logical/dir.c:634-724 | after a renaming that found no space the directory never is what it was, and the new name was the longer one |
| FailedRenames.SameRecords | src/logical/dir.c:137-190 | as many records that begin with all the bytes of other records are those records |
| FailedRenames.CrowdLosesTwo | src/logical/dir.c:634-724 | a directory of 341 entries in one cluster: a failed renaming of its first file to twelve characters leaves it without that file's old name and without its last name |
| Directories.DirectoryHasRoom | src/logical/dir.c:250-332 | a directory that names at most as many inodes as there are stays within the largest file size |
| Vfs.Vfs.CreateFile | src/vfs/context.c:101-150 | a new empty file under the name with the least free inode, every inode and file but it and the parent as before; every status has its exact condition; after a failure for want of space the parent is intact if and only if no inode was free or the name sorts last |
| Vfs.Vfs.CreateDirectory | src/vfs/operations.c:357-402 | a new empty directory under the name, every inode and file but it and the parent as before; every status has its exact condition; a refused or failed name leaves an inode in use that nothing names |
| Vfs.Vfs.CreateSymlink | src/vfs/operations.c:463-559 | a new link that holds the path and a zero byte, every inode and file but it and the parent as before; every status has its exact condition; for want of space the names are intact if and only if no inode was free, the path did not fit or the name sorts last |
| Vfs.Vfs.Remove | src/vfs/operations.c:79-143 | the name and the inode are gone, exactly the clusters the file owned are free and all other files stay; refused if and only if the name is absent, the file open or a directory |
| Vfs.Vfs.RemoveDirectory | src/vfs/operations.c:404-461 | an empty directory, or any closed file whose bytes parse to at most two entries, is gone, and nothing else is taken; its clusters stay marked used and belong to nobody, and all other files stay |
| Vfs.Vfs.Open | src/vfs/context.c:72-182 | the first closed descriptor refers to the regular file under the name, created as asked and emptied when also opened for writing; every status has its exact condition, and creating and emptying also happen when no descriptor is free; all other files as before |
| Vfs.Vfs.Close | src/vfs/context.c:206-241 | the descriptor is free, or the call refused if and only if it was not open |
| Vfs.Vfs.IsInodeOpen | src/vfs/operations.c:5-19 | whether some open descriptor refers to the inode |
| Vfs.Vfs.Run | src/vfs/operations.c:79-559 | from any valid state, for any calls: names, descriptors, contents of all files and everything reported are those of the calls on a plain value, given only whether each call met free inodes and space; the names form a tree on disk, through all calls up to the first that damages a directory |
| Vfs.Vfs.Perform | src/vfs/operations.c:79-559 | what one call reports and what becomes of names, descriptors and contents is its step on the plain value; a call that finds no space leaves the names intact if and only if the condition checked before it holds |
| Vfs.Vfs.Resolve | src/vfs/path.c:103-241 | the directory the names lead to from the root, or the status of the first name that leads nowhere |
| Paths.OneName | src/vfs/path.c:103-241 | one name leads to the directory behind it, or nowhere: not found, or no directory |
| Paths.WayComposes | src/vfs/path.c:103-241 | a path is followed on from where its first part led, and leads nowhere if that did |
| Paths.PlainLeadsDown | src/vfs/path.c:103-241 | in a tree a path without dots leads as many levels down as it has names, to a directory its last name names |
| Paths.PathOf | src/vfs/path.c:103-241 | in a tree every directory has exactly one path without dots from the root, with as many names as it is deep |
| Paths.DotsLead | src/vfs/path.c:103-241 | "." stays and ".." leads to the parent, back to where the last name was looked up; above the root is the root |
| Paths.InTreeIfReached | cli/src/commands/directory_commands.c:106-142 | a directory lies in the tree below another if and only if a path without dots leads there |
| Paths.FileInTree | cli/src/commands/directory_commands.c:106-142 | a file lies in the tree below a directory if and only if a directory such a path leads to names it |
| CallPaths.MadeDirectory | src/vfs/operations.c:357-402 | a directory that was made is at its path, empty, where nothing was before; ".." leads back, and every other directory stays where it was |
| CallPaths.OpenedFile | src/vfs/context.c:72-182 | a file that was opened is the one its path names, new and empty if it was not there, behind the first closed descriptor; every directory stays where it was |
| CallPaths.MadeLink | src/vfs/operations.c:463-559 | a link that was made is new under its path and holds the target and a zero byte; nothing else changes |
| CallPaths.RemovedFile | src/vfs/operations.c:79-143 | removal succeeds if and only if the path and name lead to a file that is not open; then the name and the file are gone and every directory stays where it was |
| CallPaths.RemovedDirectory | src/vfs/operations.c:404-461 | a directory is removed by its path if and only if it is empty and not open; its path then leads nowhere and every other directory stays where it was |
| CallPaths.MadeAndRemoved | src/vfs/operations.c:357-461 | making a directory and removing it again leaves names, descriptors and contents as they were |
| CallPaths.FailedCall | src/vfs/operations.c:79-559 | a call that fails leaves everything as it was, except that making a directory may leave an inode in use, and opening with no descriptor free may create or empty the file |
| Namespace.FreeFrom | src/metadata/index.c:133-166 | the least inode not in use |
| Namespace.LeadsToRoot | src/vfs/operations.c:357-402 | following ".." from a directory of depth n leads through ever shallower directories to the root in exactly n steps |
| Namespace.LinkDirectoryKeepsTree | src/vfs/operations.c:357-402 | entering a new directory keeps the tree: named once, in use, ".." the parent |
| Namespace.LinkFileKeepsTree | src/vfs/context.c:101-150 | entering a new file keeps the tree |
| Namespace.UnlinkKeepsTree | src/vfs/operations.c:79-143 | removing a file or an empty directory keeps the tree |
| Subtrees.PruneKeepsTree | cli/src/commands/directory_commands.c:13-153 | the tree without a subtree is a tree |
| Subtrees.UnderSplit | cli/src/commands/directory_commands.c:106-142 | what is under a directory is the directory and what is under its children |
| Subtrees.SiblingSubtrees | cli/src/commands/directory_commands.c:106-142 | the subtrees of different children have nothing in common |
| RecursiveRemove.RemoveBelow | cli/src/commands/directory_commands.c:13-153 | terminates on every tree; exactly the inodes of the subtree are reset, exactly the clusters they owned become free, every other inode and file stays, and the counters grow by the files and directories below |
| RecursiveRemove.RemoveTree | cli/src/commands/directory_commands.c:466-516 | the tree is pruned at the name, as many files and directories are removed as were counted, and the system stays valid if and only if no descriptor was open below |
| RecursiveRemove.ReclaimedFrees | cli/src/commands/directory_commands.c:13-153 | the data and pointer clusters of the removed inodes are free, and those of every other inode are marked used |
| StepPaths.RemovedTree | cli/src/commands/directory_commands.c:466-516 | removing the tree at a path reports its files and the directories below it; the path then leads nowhere, exactly the inodes of the tree are gone with their bytes, and every other directory stays where it was |
| RecursiveRemove.CountContents | cli/src/commands/directory_commands.c:155-232 | the number of files and of directories below a directory, and nothing changes |
| Format.FormatDisk | src/storage/format.c:57-197 | fails exactly below 24 clusters; otherwise exactly the metadata and one root cluster are used; the first 24 bytes of the superblock are given as literals; superblock, bitmap and table read back if and only if there are at most 32768 clusters, and then the table lies where the superblock says it starts |
| Format.SuperBytes | src/storage/superblock.c:12-26 | the superblock of a formatted disk byte by byte: magic, number of clusters, root inode 2, table from cluster 2 over 21 clusters, data from cluster 23 |
| Format.LayoutFits | src/storage/superblock.c:12-26 | the bitmap ends before the inode table if and only if there are at most 32768 clusters |
| Format.MarkMetadata | src/storage/format.c:83-123 | exactly superblock, bitmap and inode table are marked used |
| Format.MakeRoot | src/storage/format.c:142-197 | the root directory holds "." and "..", takes the next cluster, and fails if and only if there are only 23 |
| Format.Flush | src/metadata/index.c:182-224 | bitmap and inode table are on disk afterwards and no file changes; the table is written only when dirty |
| Format.Mount | src/storage/format.c:199-260 | the table, found where the superblock says it starts, bitmap and superblock in memory are those on disk; a wrong magic is refused |
| Format.Remount | cli/src/context.c:61-199 | unmounting and mounting again gives the same bitmap, inodes and files |
| Format.FormatAndMount | src/storage/format.c:57-260 | a formatted and mounted disk: the root alone, clusters 0 to 23 exactly the used ones, nothing open |
| Format.DenseFits | include/fs/types.h:14-25 | a dense file needs no more clusters than the disk has, so its size fits 32 bits on disks of at most 32768 clusters |
| TableImage.TableRoundTrip | src/metadata/index.c:65-101 | the inode table read back from its bytes is the table |
| TableImage.RecordLabels | include/fs/types.h:14-25 | the record of an inode starts with its number, 0, 1 or 2 for file, directory or link, and whether it is used |
| TableImage.RecordNumbers | include/fs/types.h:14-25 | then links, size, clusters, 12 direct and 3 indirect pointers, each in four bytes, low byte first, 84 in all |
| TableImage.ImageStays | src/metadata/index.c:182-224 | not dirty means the table on disk is the table in memory, kept by every write to the data area |
| Lifetime.UseFile | src/vfs/context.c:72-241 | a session on a file of the tree: replies and contents of the plain sequence, names and all other files unchanged, refused in exactly the cases the plain value refuses |
| StepPaths.SessionRefused | src/vfs/context.c:72-182 | a session is carried out if and only if its path names a regular file, it may read or write, and no write leaves a hole; otherwise nothing changes |
| StepPaths.AppendSession | src/vfs/context.c:163-182 | writing in a session that appends puts the bytes behind the file's own |
| StepPaths.ReplaceSession | src/vfs/context.c:148-182 | writing in a session that empties the file leaves just what was written |
| StepPaths.ReadSession | src/vfs/context.c:72-182 | a session that reads gives the file's first bytes and changes nothing, even when asked to empty a file it may not write |
| Lifetime.DefragmentFile | cli/src/commands/defrag_command.c:260-469 | the file is moved if and only if it is scattered and the free clusters suffice for a second copy; then its clusters are in a row and it owns exactly what it needs; names, descriptors and contents of all files stay |
| Lifetime.RemoveNamedTree | cli/src/commands/directory_commands.c:466-516 | names and contents are those of the plain value with the tree cut off, the counts are those of the tree, and the system stays valid if and only if none of its files was open |
| Lifetime.Live | cli/src/context.c:61-199 | any calls, sessions, recursive removals and defragmentations: names, descriptors, contents and everything reported are those of the steps on a plain value, up to the first step that leaves the system invalid or a session that may write and filled the disk |
| Lifetime.Take | cli/src/context.c:61-199 | one such step, unless it does damage, is its step on the plain value |
| Lifetime.RemountSystem | cli/src/context.c:61-199 | unmounting and mounting again gives the same bitmap, inode table, names and contents for every valid state |
| Lifetime.Lifetime | cli/src/context.c:61-199 | format, mount, any such steps, unmount, mount: the system then shows just the names and contents that the steps make of an empty value, with the same bitmap and inode table, and reported what they report there |
| Lifetime.FirstUse | src/storage/format.c:57-260 | format, mount, then any mix of calls on names and work on open files: all that is reported and shown is what the actions make of an empty value, and the run stops early only in the cases of `Descriptors.FileSystem.Run` |

## Left out

- The disk file itself: host streams, seeking, synchronising and platform differences; the disk is a sequence of clusters, and reads and writes of existing ones succeed.
- 32-bit wrap-around of sizes, positions, counters and cache time stamps: they are unbounded, except where a number is stored in 32 bits on disk (`TableImage`, `Format`) and in the decoder's unsigned difference.
- Allocation failure in memory and null arguments: these branches have no content.
- The sorting and searching routines of the C library: an insertion sort and a binary search stand for them.
- The repeated code of the double and triple levels: one recursive method follows, frees or builds the levels one by one.
- Storage.Storage.ResolveCluster: requires the logical index below 12 + 1024 + 1024^2 + 1024^3, because the triple branch of the source has no upper check and reads beyond its pointer cluster there.
- OpenFiles.OpenFile.Write: requires the position within the file, because a skipped cluster makes later reads fail; `FlatFile.DenseAfterWrite` says exactly when.
- HuffmanTree.BuildTree: requires the frequencies to add up to at most 2^32 - 1, as the lengths in the header do; the capacity test on the node array can then never fire.
- Bytes read beyond a directory's buffer: a record of a damaged directory may name more bytes than are left; parsing stops there.
- Unused inode table entries carry their own index in the id field, where the source leaves 0 in entries never used.
- Padding bytes of the inode and superblock records are zero.
- Path text, "." and ".." in it, its length, relative paths and symbolic link following: calls start from a list of names and walk through directories only.
- Vfs.Vfs.Open: a name that is a symbolic link is refused where the source follows it, and the descriptor's position is that of `OpenFiles.OpenFile.Open`.
- Vfs.Vfs.Close: frees the descriptor only; the write-back before it is `OpenFiles.OpenFile.Close`.
- Renaming across directories: the call removes before it inserts and does not check for cycles; renaming within one directory is modelled.
- Lifetime.Lifetime: its sessions open and close a file in one step; files that stay open between other actions are those of `Lifetime.FirstUse` and `Descriptors.FileSystem.Run`, where recursive removal, defragmentation and unmounting are not among the actions.
- Descriptors.FileSystem.Run: an action that would open a file a second time, or leave a hole, ends the run.
- Several descriptors on one file, concurrency and crashes.
- RecursiveRemove.RemoveTree: starts from a directory found under its parent; the shell's branch for empty directories, which drops the name and the inode as `Vfs.Vfs.RemoveDirectory` does, is not modelled again.
- Closing all descriptors while unmounting: each close is `OpenFiles.OpenFile.Close`, and `Lifetime.RemountSystem` starts with nothing cached.
- Terminal, shell, listing, searching, importing and exporting host files, disk usage.
