# Verified models of the unpacking and image tools

Seven parts of the repository, each with its state and the steps that change it, and what its
documentation, its formats or its callers count on, proved for every input and every run.

* **DEFLATE** (`src/opkg/libbb/unzip.c`, RFC 1951 and section 8 of RFC 1952). `CanonicalCode` is the code of
  section 3.2.2 of RFC 1951. `HuftTables`, `HuftSteps`, `HuftParts` and `HuftBuild` make the multi-level tables of
  huft_build and show that walking them decodes as that code does. `BitReader`, `Crc32` and `Window` are
  the bit buffer, the table-driven CRC and the ring window. `InflateCodes` and `Inflate` put them together: the
  output file is what a decoder written down from the RFC gives. `LookAhead` follows how many bits are read ahead, as
  a function of the code and the stream, `InflateEnd` says what is therefore read behind the stream, and
  `InflateWrong` has a file for which that is wrong. `Deflated` is the side of the writer: blocks spelled from literals
  and matches in any codes, and files made from any data, come back.
* **Squashfs, writer against reader** (`src/squashfs-tools`). The compressor is any pair of functions of which
  the second undoes the first (`Squashfs`). `Metadata` has the inode table and its references, `Directory` and
  `DirectoryTable` the directories, `FileStore` and `FileExtract` the contents of files, `Dedup` the search for
  duplicates, `StoreRun` whole runs over files with both, `Xattr` the extended attributes, and `PathSet` the paths to
  extract and to exclude.
* **Threads of the same tools**, as state machines whose steps are the stretches of code that no other
  thread sees into: `FragmentProtocol` (the lock on `bytes` that the main thread and the fragment
  deflators share) with `FragmentEnd` (what is left behind at the end, and when the wait for it ends), `Resequence`
  (buffers numbered by the reader and put back in order), `BlockCache` (the reference-counted cache of unsquashfs),
  whose chains and free list `CacheMemory` has as they are linked in memory, and whose runs `CacheRuns` looks back on.
* **MD5** (`Md5`, `Md5Rules`, `Md5Sines`, RFC 1321), **package ordering** (`PackageOrder`), **nested intrusive
  lists** (`IntrusiveList`, `ActiveList`, `ActiveSort`) and **JFFS2 padding** (`PadImage`).

`Basics`, `BitStrings`, `Words` and `LittleEndian` are shared. Code that changes things step by step is
modelled by methods and classes, each proved against a function that says what it computes.

## Findings

Where the code does not do what it is for, the code is modelled as it is, with the condition for which it
does and an input for which it does not.

| what | where | condition | shown by |
|---|---|---|---|
| A file that a process writes loses its last block when that is a whole one and is put into a fragment: the size of the empty read at the end is looked at, not that of the last block, and the block list is one entry shorter than the reader takes it to be. | src/squashfs-tools/mksquashfs.c:2343-2345, src/squashfs-tools/unsquash-4.c:161-170 | `FileStore.Options.ProcessStored`, both directions | `FileStore.Writer.WriteProcess`, `FileStore.ProcessLost` |
| An empty directory cannot be opened when the directory table has no block where it would be; as the root is written last, that is an image whose only directory is an empty root. | src/squashfs-tools/unsquash-4.c:260-266 | `DirectoryTable.Unfound`: what is stored before it is whole blocks, and neither it nor a later one has entries; both directions | `DirectoryTable.StoreAndOpen`, `DirectoryTable.EmptyRoot` |
| A byte read ahead of the end of a DEFLATE stream is put back shifted the wrong way, so that what follows the stream, the CRC of the trailer, is misread. | src/opkg/libbb/unzip.c:875-878 | fewer than eight bits have been read too many, or the bits happen to come out right, both directions; how many have been is a function of the stream, and fewer than eight whenever the last block is stored or has the fixed codes | `Inflate.Inflate`, `InflateEnd.ReadsOn`, `InflateWrong.WrongByte` |
| ALIGN cuts an image size to 32 bits, so that a size whose next multiple is 2^32 gets its marker at the end of the file. | src/padjffs2/padjffs2.c:38 | `PadImage.Fits` for images below 2^32 bytes, `PadImage.OneFits` for one size asked for, both directions | `PadImage.PadImage`, `PadImage.TooLarge` |
| A live package is left out of the order when another of its name has been visited. | src/opkg/libopkg/opkg_cmd.c:334-352 | live packages have different names, both directions | `PackageOrder.EveryPackageOnce`, `PackageOrder.OneOfTwo` |
| A fragment that a deflator puts on the list of pending ones after the last unlock never gets its place, and mksquashfs waits for it for ever: the deflator lets go of the mutex between finding the fragments locked and putting its fragment on the list. | src/squashfs-tools/mksquashfs.c:2656-2660 with 5325-5334 | no deflator has a refused fragment in hand at the last unlock, both directions | `FragmentEnd.WaitEnds`, `FragmentEnd.WaitForever` |
| huft_build makes a table wider than the limit it is given, because its loop at lines 299-303 stops one step late. Below the first table no caller's codes do: `Inflate.FewDistances` shows it of the distances of a dynamic block, and other codes are of at most two tables. | src/opkg/libbb/unzip.c:297-303 | the first code that comes to the table has more bits left than the limit, or as many and there are not enough such codes to fill it; both directions | `HuftParts.TableBits`, `HuftParts.TooWide` |

## Model

| member | source | states |
|---|---|---|
| CanonicalCode.KraftAtLongest | src/opkg/libbb/unzip.c:251-257 | A set of lengths is oversubscribed, or complete, at 16 bits exactly when it is at its longest length, where the code looks. |
| HuftParts.FillOut | src/opkg/libbb/unzip.c:251-257 | The result is negative exactly when the set is oversubscribed; otherwise the last count is filled out so that the code space is used up. |
| HuftParts.SortSymbols | src/opkg/libbb/unzip.c:259-273 | The symbols come out in order of length, and within a length in order of value, each in its slot. |
| HuftParts.NextCode | src/opkg/libbb/unzip.c:348-351 | Stepping a code in bit-reversed order gives the reversal of the next code of that length. |
| HuftParts.TableBits | src/opkg/libbb/unzip.c:294-304 | A table narrower than the others has room for every code that will reach it and none to spare; when it is wider than the others is said exactly, and with few codes none is. |
| HuftParts.TooWide | src/opkg/libbb/unzip.c:297-303 | Lengths 1, 2, 3, 3 in tables of one bit: the second table has two. |
| HuftTables.WalkCorrect | src/opkg/libbb/unzip.c:390-408 | In tables that keep the invariant and have every entry set, a walk finds the symbol and takes the bits that the canonical code says, for any stream. |
| HuftBuild.HuftBuild | src/opkg/libbb/unzip.c:198-362 | The status is 2, 1 or 0 as the set is oversubscribed, incomplete (but for a single bit) or neither; and for fewer codes than a table has entries, or codes of at most two tables, walking the tables decodes any stream as the canonical code does, and asks for as many bits as LookAhead says. |
| LookAhead.WalkHeldIs | src/opkg/libbb/unzip.c:390-408 | Walking the tables leaves as many bits in the buffer as follow from the lengths of the codes alone: a table below the first is as wide as the longest code with its prefix needs. |
| Inflate.FewDistances | src/opkg/libbb/unzip.c:819 | Whenever huft_build accepts 30 distances or fewer, tables of 6 bits decode them. |
| Inflate.FixedLiteralsComplete | src/opkg/libbb/unzip.c:618-634 | The literal code of a fixed block is complete, with 9 bits at most. |
| Crc32.TableStep | src/opkg/libbb/unzip.c:142-146 | A look into the table and a shift is the same as eight steps of the register. |
| Crc32.MakeTable | src/opkg/libbb/unzip.c:102-131 | Every entry is eight steps of its index with the polynomial. |
| Crc32.PolynomialIs | src/opkg/libbb/unzip.c:110 | The polynomial of those exponents is the number 0xedb88320 of section 8 of RFC 1952. |
| BitReader.Input.Take | src/opkg/libbb/unzip.c:396-404 | The next bits of the stream, as a number, are taken from it, whatever is buffered, and as few whole bytes as will do are read for it. |
| BitReader.Input.GiveBack | src/opkg/libbb/unzip.c:873-878 | The reads that follow are given the bytes behind the stream exactly when no whole byte was left in the buffer or those put back happen to be right. |
| Window.RingRead | src/opkg/libbb/unzip.c:460-463 | The window, read at the masked distance, holds the byte put out that long ago, flushed or not. |
| Window.Output.Flush | src/opkg/libbb/unzip.c:137-162 | The file is everything put out, with its CRC-32 by the bit, and its length. |
| Window.Output.Put | src/opkg/libbb/unzip.c:409-416 | A literal is put out, flushing a full window. |
| Window.Output.Copy | src/opkg/libbb/unzip.c:460-478 | A match of any distance up to the window and any length, also over its own copy and over the window's end, is byte-at-a-time expansion. |
| Window.ExpandIs | src/opkg/libbb/unzip.c:440-478 | A match puts out, byte by byte, what was put out its distance before, and keeps all before. |
| Window.OnesIs | src/opkg/libbb/unzip.c:113 | The register of the CRC begins as 0xffffffff. |
| InflateCodes.LengthsFollow | src/opkg/libbb/unzip.c:502-510 | The first length is 3, and the base of each length code is that of the code before and 2 to the number of its extra bits, none for the first eight codes and then one more every four, up to 258. |
| InflateCodes.LastLength | src/opkg/libbb/unzip.c:505-510 | The last code is the length 258 without extra bits, and the two after it are invalid. |
| InflateCodes.EachLength | src/opkg/libbb/unzip.c:502-510 | Every length from 3 to 257 is that of one code before the last, with extra bits in its range, and of no other. |
| InflateCodes.DistancesFollow | src/opkg/libbb/unzip.c:511-519 | The first distance is 1, and the base of each distance code is that of the code before and 2 to the number of its extra bits, none for the first four codes and then one more every two, up to 32768. |
| InflateCodes.EachDistance | src/opkg/libbb/unzip.c:511-519 | Every distance from 1 to 32768 is that of one code, with extra bits in its range, and of no other. |
| InflateCodes.SymbolMeans | src/opkg/libbb/unzip.c:332-341 | A symbol below 256 is a literal, 256 ends the block, and any other is a length, with the base and the extra bits of its number. |
| InflateCodes.InflateCodes | src/opkg/libbb/unzip.c:371-489 | The symbols of a block, read through the tables, give the output, the rest of the stream or the failure that section 3.2.5 of RFC 1951 gives, and leave as many bits in the buffer as SymbolsHeld says. |
| Inflate.CopyStored | src/opkg/libbb/unzip.c:585-600 | The bytes of a stored block are put out one by one, as section 3.2.4 of RFC 1951 says. |
| Inflate.InflateDynamic | src/opkg/libbb/unzip.c:691-838 | A block with its own codes, lengths and repeat codes included, is decoded as section 3.2.7 of RFC 1951 says, with the failure codes of the source. |
| Inflate.Inflate | src/opkg/libbb/unzip.c:851-885 | The output file, its CRC and its length are those of the blocks decoded by RFC 1951, failures have the source's codes, and what is read next is what is behind the stream exactly when the bytes put back, of which the stream determines how many there are, are right. |
| Deflated.BlockMeans | src/opkg/libbb/unzip.c:371-489 | Literals and matches that are spelled out, each in any pair of codes, with the end symbol behind them, decode to what they stand for, and what follows is left. |
| Deflated.FixedCodeFits | src/opkg/libbb/unzip.c:618-643 | The fixed codes are those of section 3.2.6 of RFC 1951, given there as ranges of symbols and of codes. |
| Deflated.FixedMeans | src/opkg/libbb/unzip.c:610-650 | Any bytes, spelled in the fixed codes, come back from a fixed block. |
| Deflated.OrderIs | src/opkg/libbb/unzip.c:663-665 | The lengths of the code lengths come in the order 16, 17, 18, 0, and then from 8 on outwards. |
| Deflated.RunsMean | src/opkg/libbb/unzip.c:738-800 | Lengths and runs of lengths, spelled in any code for them, give the lengths that they stand for. |
| Deflated.OwnMeans | src/opkg/libbb/unzip.c:655-838 | A block that is spelled with codes of its own, sizes, lengths and runs included, decodes to what its literals and matches stand for. |
| Deflated.StoredFileMeans | src/opkg/libbb/unzip.c:545-607 | Any data in stored blocks, cut where they have to be, come back. |
| Deflated.WrongComplement | src/opkg/libbb/unzip.c:578-580 | A stored block gives 1 exactly when its count and the complement of it do not agree. |
| Deflated.WrongType | src/opkg/libbb/unzip.c:840-843 | A block of type 3 gives 2. |
| Deflated.WrongSymbol | src/opkg/libbb/unzip.c:393-395 | Symbols 286 and 287 give 1. |
| Deflated.InflateStoredFile | src/opkg/libbb/unzip.c:851-885 | inflate of any data stored so, with anything behind it, gives the data, and what is read next is what is behind it. |
| Deflated.InflateFixedFile | src/opkg/libbb/unzip.c:851-885 | The same of any data in the fixed codes. |
| InflateEnd.LeftOver | src/opkg/libbb/unzip.c:873-878 | After a last block that is stored or has the fixed codes fewer than eight bits have been read too many, after any other at most fifteen. |
| InflateEnd.ReadsOn | src/opkg/libbb/unzip.c:873-878 | So the next bytes are right after a stored or fixed last block, and after any other exactly when there are fewer than eight bits or the one byte put back, shifted, comes out right. |
| InflateWrong.NineLeft | src/opkg/libbb/unzip.c:875-878 | A file of 13 bytes, one empty block with its own codes, and the byte 1: nine bits are left. |
| InflateWrong.WrongByte | src/opkg/libbb/unzip.c:875-878 | On that file inflate succeeds, and what is read next is wrong. |
| Squashfs.MangleRoundTrip | src/squashfs-tools/mksquashfs.c:879-899 | A block, compressed or stored as it is, comes back. |
| Squashfs.MangleIs | src/squashfs-tools/mksquashfs.c:879-899 | Data is stored as it is exactly when it shall not be compressed or is no smaller for it. |
| LittleEndian.Le16 | src/squashfs-tools/mksquashfs.c:927-931 | Two bytes, the low-order one first. |
| LittleEndian.Le32 | src/squashfs-tools/xattr.c:565-590 | Four bytes, the low-order one first. |
| Metadata.HeaderIs | src/squashfs-tools/mksquashfs.c:926-931 | The two bytes before a metadata block are its size, low-order byte first, with the top bit of the second set exactly when the block is stored as it is. |
| Metadata.ReadBlockIs | src/squashfs-tools/unsquashfs.c:576-626 | At any place of any file: two bytes, of which the top bit says that the data is stored as it is and the others how much there is, 32768 bytes for 0; it fails exactly when the file ends before. |
| Metadata.FirstBlock | src/squashfs-tools/mksquashfs.c:915-936 | A table is stored 8192 bytes at a time. |
| Metadata.ReferenceIs | src/squashfs-tools/squashfs_fs.h:157-162 | A reference is 48 bits, 32 of the block and, below them, 16 of the offset. |
| Metadata.ReadEncoded | src/squashfs-tools/unsquashfs.c:576-626 | A metadata block is read back, and the next one is found behind it. |
| Metadata.EncodeConcat | src/squashfs-tools/mksquashfs.c:927-936 | Whole blocks and what follows are stored one after the other. |
| Metadata.MetadataWriter.PutInode | src/squashfs-tools/mksquashfs.c:910-957 | The reference given before any block of the record is stored is the position at which the block of its first byte will be, and the offset in it. |
| Metadata.MetadataWriter.Finish | src/squashfs-tools/mksquashfs.c:1054-1088 | The table is the encoding of all records. |
| Metadata.HashTable.Lookup | src/squashfs-tools/unsquashfs.c:528-540 | An entry is found exactly when its position was added. |
| Metadata.UncompressInodeTable | src/squashfs-tools/unsquashfs.c:669-691 | The bytes of the table come back, the position of every block leads to its bytes, and no position at or after the end is entered. |
| Metadata.ReferenceResolves | src/squashfs-tools/squashfs_fs.h:157-162 | A reference, packed and unpacked, leads back to the place in the stream that it was given for, whatever is written after it. |
| Metadata.StoreAndResolve | src/squashfs-tools/unsquash-4.c:92-97 | For any sequence of records, every reference leads to its record and what follows it, whenever the table is below 2^32 bytes; the table has a bound in terms of the records. |
| Directory.Directory.AddDir | src/squashfs-tools/mksquashfs.c:1522-1610 | An entry, its name cut to 256 bytes, is added to those there, and begins a run exactly when it cannot be in the last one; runs have 1 to 256 entries of one block with 16-bit differences of number, marks are a block and a header apart at most, and the buffer is not overrun. |
| Directory.GrowIs | src/squashfs-tools/mksquashfs.c:1546-1600 | The last run goes on exactly as long as it has less than 256 entries, block and number fit, and the entry ends at most 8192 bytes behind the last mark; a mark is put exactly when it would end further on. |
| Directory.ReadDirectory | src/squashfs-tools/unsquash-4.c:285-320 | Decoding the runs gives the entries: names, references, types and, as read_fs.c:525-550 recovers them, numbers. |
| DirectoryTable.WriteDir | src/squashfs-tools/mksquashfs.c:1645-1692 | A directory of any length beginning anywhere: each index entry gets the position of the block that has its byte of the directory. |
| DirectoryTable.WriteDirectory | src/squashfs-tools/mksquashfs.c:1635-1696 | The table gets the runs, the inode fields lead to them, and each index entry names the first entry of a run and gives the position of that run's block. |
| DirectoryTable.Opens | src/squashfs-tools/unsquash-4.c:260-266 | The position of a directory is found exactly when the directory does not begin a block or something is stored from there on, and then leads to it. |
| DirectoryTable.StoreAndOpen | src/squashfs-tools/unsquash-4.c:245-320 | Any directories, stored through add_dir and write_dir and opened by their inodes, give exactly their cut entries, but for those before which whole blocks are stored and after which, themselves included, there are no entries. |
| DirectoryTable.EmptyRoot | src/squashfs-tools/unsquash-4.c:260-266 | An image with only an empty directory: it cannot be opened. |
| FileStore.RepresentsGrow | src/squashfs-tools/mksquashfs.c:1881-1907 | What is stored later changes no file stored before. |
| FileStore.WordIs | src/squashfs-tools/squashfs_fs.h:146-151 | The entry of a block is its stored size, with bit 24 set exactly when it is stored as it is. |
| FileStore.FileStands | src/squashfs-tools/mksquashfs.c:3003-3028 | Blocks and a tail in a fragment are the file for the reader exactly when the tail is less than a block. |
| FileStore.Writer.FillFragment | src/squashfs-tools/mksquashfs.c:1881-1907 | The tail is in the fragment block at the place returned, a new one exactly when it does not fit, and what fragments had before is still there. |
| FileStore.Writer.PlaceFragment | src/squashfs-tools/mksquashfs.c:2640-2652 | A fragment block, compressed or not, is stored and its table entry leads to it, at any time. |
| FileStore.Writer.PutBlocks | src/squashfs-tools/mksquashfs.c:2998-3026 | Block list and bytes are those of the file but for the tail, for any contents, block size, fragment and sparse setting. |
| FileStore.Writer.WriteFile | src/squashfs-tools/mksquashfs.c:2980-3055 | For any contents, block size, fragment and sparse setting the inode stands for the contents, and has a fragment exactly when there is a rest, fragments are wanted for it and it is no hole. |
| FileStore.Writer.WriteProcess | src/squashfs-tools/mksquashfs.c:2892-2956 | The inode of a file written by a process, as it is read, stands for its contents exactly when the last block is not taken for a fragment or is not whole. |
| FileStore.ProcessLost | src/squashfs-tools/mksquashfs.c:2343-2345 | 4096 ones in blocks of 4096 with fragments wanted: the inode does not stand for them. |
| FileStore.CountAgrees | src/squashfs-tools/unsquash-4.c:143-171 | The reader takes the length of the block list from the size as the writer made it. |
| FileExtract.WriteFile | src/squashfs-tools/unsquashfs.c:790-870 | What is queued for the writer, holes, blocks and the tail in the fragment block that the table leads to, comes to the contents. |
| FileExtract.FileWriter.WriteLastHole | src/squashfs-tools/unsquashfs.c:1699-1723 | A hole at the end becomes zeros, by truncating, seeking or writing. |
| FileExtract.Extract | src/squashfs-tools/unsquashfs.c:1648-1737 | What an inode stands for comes out, sparse or not and whether or not the output can be seeked. |
| FragmentProtocol.NextKeeps | src/squashfs-tools/mksquashfs.c:2633-2662 | Every step of every thread keeps the invariant, and kept files and placed fragments stay. |
| FragmentProtocol.OutstandingIs | src/squashfs-tools/mksquashfs.c:1813-1835 | fragments_outstanding is the number of fragments made that have no place. |
| FragmentProtocol.EveryRun | src/squashfs-tools/mksquashfs.c:2998-3076 | From any first place and any file, the empty one included, in every interleaving, roll-backs included: extents do not overlap and fill the file up to `bytes`; the blocks of a kept file follow one another; each is, or will be, on disk at its place; and fragments_outstanding is the number of fragments without a place. |
| FragmentEnd.EveryRunWrites | src/squashfs-tools/mksquashfs.c:2998-3076 | In every run the fragments are those that were made, in order, and each file kept has, in order, the data of the blocks appended since it was begun or rolled back. |
| FragmentEnd.WriteIs | src/squashfs-tools/mksquashfs.c:2519-2557 | The writer puts the data at its place, with zeros before it when the file is shorter, and changes nothing else. |
| FragmentEnd.UnlockLeaves | src/squashfs-tools/mksquashfs.c:1813-1835 | Unlocking leaves the list empty: every fragment on it is in the table with its data, one after the other from the end of the file on in the order of the list, and no longer outstanding; nothing is locked, and the file is kept or not. |
| FragmentEnd.PlaceLeaves | src/squashfs-tools/mksquashfs.c:2644-2656 | A deflator that is done puts its fragment at the end of the file, enters it in the table and is idle; or, when the fragments are locked, its fragment is refused and nothing else changes. |
| FragmentEnd.WorkEnds | src/squashfs-tools/mksquashfs.c:2633-2662 | Each step of a deflator or of the writer leaves less to do. |
| FragmentEnd.WaitGoesOn | src/squashfs-tools/mksquashfs.c:5330-5334 | While the main thread waits, deflators and writer can always go on until they have nothing left to do. |
| FragmentEnd.WaitEnds | src/squashfs-tools/mksquashfs.c:5325-5334 | However they go on, at the end as many fragments are outstanding as deflators had a refused one in hand at the last unlock: the wait ends exactly when there was none. |
| FragmentEnd.WaitForever | src/squashfs-tools/mksquashfs.c:2656-2660 | A run with one: the fragment comes on the list after the last unlock, nothing is left to do, and the fragment is outstanding. |
| Resequence.Reader.ReadFile | src/squashfs-tools/mksquashfs.c:2359-2456 | Buffers are numbered in turn, none left out, over attempts that are begun again. |
| Resequence.Reader.ReadProcess | src/squashfs-tools/mksquashfs.c:2287-2356 | The same where the number of the empty last read is given back. |
| Resequence.Sequencer.GetFileBuffer | src/squashfs-tools/mksquashfs.c:2679-2706 | The next number is delivered, and buffers parked, queued and delivered are together those there were. |
| Resequence.Deliver | src/squashfs-tools/mksquashfs.c:2679-2706 | All buffers are delivered once, in the order of their numbers, whatever the order in which they come. |
| Resequence.ReadToWrite | src/squashfs-tools/mksquashfs.c:2596-2616 | From the reader through deflators that finish in any order the main thread gets the buffers as they were read. |
| BlockCache.NextKeeps | src/squashfs-tools/unsquashfs.c:289-352 | Every step keeps the invariant of chains, free list, counts and contents, and an entry that is held keeps its block and, once ready, its data. |
| BlockCache.EveryRun | src/squashfs-tools/unsquashfs.c:289-425 | In every run: one entry per block, at most max_buffers; an entry is free exactly when nobody holds it, and then not pending; and one that is ready without an error has what reading and uncompressing its block gives. |
| CacheRuns.ReadyIs | src/squashfs-tools/unsquashfs.c:360-382 | In every run, an entry that is ready has an error exactly when reading or uncompressing its block has failed since the entry was given the block; otherwise it has what the block holds. |
| CacheRuns.GoodRun | src/squashfs-tools/unsquashfs.c:1618-1641 | In a run in which nothing fails every entry that is ready has what its block holds. |
| CacheRuns.GetLeaves | src/squashfs-tools/unsquashfs.c:289-352 | The caller gets the one entry of the block, as it was, or else a new one, or one that nobody had, which is to be read; no other entry changes. |
| CacheRuns.GivenUp | src/squashfs-tools/unsquashfs.c:325-346 | An entry loses its block only when nobody has it, and of all those it is the one that was put back first. |
| CacheRuns.WorkBounded | src/squashfs-tools/unsquashfs.c:1618-1641 | However reader and deflators go on, they come to an end. |
| CacheRuns.WaitGoesOn | src/squashfs-tools/unsquashfs.c:385-400 | They can always go on until every entry is ready, so that a caller who waits need wait no longer. |
| CacheMemory.Memory.InsertHashTable | src/squashfs-tools/unsquashfs.c:197-206 | The entry becomes the first of its chain; all other chains stay. |
| CacheMemory.Memory.RemoveHashTable | src/squashfs-tools/unsquashfs.c:210-221 | The entry leaves its chain, whichever place it had; all other chains stay. |
| CacheMemory.Memory.InsertFreeList | src/squashfs-tools/unsquashfs.c:225-236 | The entry becomes the last of the circular list. |
| CacheMemory.Memory.RemoveFreeList | src/squashfs-tools/unsquashfs.c:240-257 | The entry leaves the circular list, if it is on it, and the rest stays linked in order. |
| CacheMemory.CacheGet | src/squashfs-tools/unsquashfs.c:282-357 | On the links in memory cache_get does the step Get, in each of its three cases, and returns an entry of the block. |
| CacheMemory.CachePut | src/squashfs-tools/unsquashfs.c:403-428 | cache_block_put does the step Put. |
| Dedup.ChecksumConcat | src/squashfs-tools/mksquashfs.c:2010-2020 | The checksum of bytes one after the other can be taken part by part. |
| Dedup.ChecksumStepIs | src/squashfs-tools/mksquashfs.c:2010-2020 | The sum is turned by one bit, and the byte is added modulo 2^16. |
| Dedup.Table.Duplicate | src/squashfs-tools/mksquashfs.c:2170-2283 | A file is found exactly when one in the table has the same size, block list, stored bytes and fragment bytes. |
| Dedup.DuplicateMeansSame | src/squashfs-tools/mksquashfs.c:3142-3168 | An inode that points at the file found stands for the contents of the new file in the image that the new blocks have been cut off from. |
| StoreRun.WordsInjective | src/squashfs-tools/mksquashfs.c:2186-2188 | Two files of one size with the same block list and the same stored bytes are the same. |
| StoreRun.SameExactly | src/squashfs-tools/mksquashfs.c:2170-2258 | The comparison of duplicate says yes exactly when the contents are the same, and never for a file of a process that is lost. |
| StoreRun.StoreFile | src/squashfs-tools/mksquashfs.c:3220-3257 | A regular file is taken for a duplicate exactly when its contents are those of a file in the table; then nothing is stored, otherwise it is added; in either case the inode stands for it. |
| StoreRun.StoreProcess | src/squashfs-tools/mksquashfs.c:2892-2956 | The output of a process gets its entry in the table, and can be found later unless its last block is lost. |
| StoreRun.StoreAll | src/squashfs-tools/mksquashfs.c:3220-3257 | In any run over files and processes, with deflators that are done with fragments whenever they are: every inode stands for its contents at the end, and a file is a duplicate exactly when one before it has the same contents and can be read back. |
| StoreRun.StoreAndExtract | src/squashfs-tools/unsquashfs.c:790-870 | Any file of any run, extracted, is the same, whatever the options of either tool. |
| Xattr.SplitJoined | src/squashfs-tools/xattr.c:104-122 | A name with a known prefix is put together again from its type and the rest. |
| Xattr.AttrIs | src/squashfs-tools/xattr.c:604-626 | The bytes of an attribute: type, with bit 8 set when the value is out of line, length of the name, name, and the length and the value, or 8 and the reference. |
| Xattr.TotalSizeIs | src/squashfs-tools/xattr.c:541-571 | The size that is compared is that of the list as it is stored, with the values above the threshold out of line. |
| Xattr.XattrWriter.ChooseMax | src/squashfs-tools/xattr.c:541-571 | The largest threshold is chosen with which the list is at most 65536 bytes, or the smallest. |
| Xattr.XattrWriter.Generate | src/squashfs-tools/xattr.c:500-633 | A list gets the next id, and this and all ids before stand for their lists, each out-of-line reference leading to its value; a value is out of line exactly when it is above the threshold, or has 8 bytes or more and has come up before. |
| Xattr.GetXattr | src/squashfs-tools/read_xattrs.c:295-358 | The list of an id comes back with full names and values, in line or not. |
| Xattr.StoreAndFind | src/squashfs-tools/read_xattrs.c:295-358 | Any lists stored, written and read back are the same, whenever the table is below 2^32 bytes; the table has a bound in terms of the lists. |
| PathSet.AddTargets | src/squashfs-tools/mksquashfs.c:4213-4285 | Pruned and grown by any targets, the trie stands for all of them. |
| PathSet.Matches | src/squashfs-tools/unsquashfs.c:1193-1253 | One component: the new set accepts the rest of a path exactly when the old one accepts the path. |
| PathSet.Excluded | src/squashfs-tools/mksquashfs.c:4366-4421 | The same for exclusion, sticky targets included. |
| PathSet.Extracts | src/squashfs-tools/unsquashfs.c:1277-1345 | A path is extracted exactly when some target matches the front of it, or it is a directory on the way to one. |
| PathSet.LeavesOut | src/squashfs-tools/mksquashfs.c:5291-5296 | A path is excluded exactly when some target matches the front of it or a sticky target matches a run of its components. |
| Md5.MacroOperationIs | src/opkg/libopkg/md5.c:290-293 | The operation of the source, with its macros, is that of section 3.4 of RFC 1321. |
| Md5.OpIs | src/opkg/libopkg/md5.c:358-441 | The 64 operations written out have the words, shifts and constants of RFC 1321. |
| Md5Sines.SineRule | src/opkg/libopkg/md5.c:349-356 | Each of the 64 constants is 2^32 times the magnitude of the sine of its number, cut to a whole number: the sine of 1 between two sums of its series, the others by the addition theorem. |
| Md5Rules.InitIs | src/opkg/libopkg/md5.c:70-80 | The registers begin, low-order bytes first, with 01 23 45 67 to 76 54 32 10. |
| Md5Rules.WordsAre | src/opkg/libopkg/md5.c:334-341 | The words of a block are its bytes four by four, low-order byte first. |
| Md5Rules.RoundBits | src/opkg/libopkg/md5.c:290-293 | The four functions, bit by bit: a choice by the first argument, a choice by the third, parity, and the last of section 3.4 of RFC 1321. |
| Md5Rules.RotateValue | src/opkg/libopkg/md5.c:346 | To rotate is to multiply by 2^s modulo 2^32 and to add what is carried out. |
| Md5Rules.FourOperations | src/opkg/libopkg/md5.c:359-362 | Four operations take the registers in turn: ABCD, DABC, CDAB, BCDA. |
| Md5Rules.CompressIs | src/opkg/libopkg/md5.c:443-447 | After the 64 operations each register is added, modulo 2^32, to what it was. |
| Md5Rules.PaddingIs | src/opkg/libopkg/md5.c:118-126 | The padding is 0x80, zeros, no more than needed, and the number of bits modulo 2^64, low-order word first; it fills up the last block. |
| Md5Rules.OutputIs | src/opkg/libopkg/md5.c:93-104 | The digest is the registers A, B, C and D, each low-order byte first. |
| Md5.Context.ProcessBytes | src/opkg/libopkg/md5.c:218-283 | Bytes are added to the message, in any state of the buffer and aligned or not. |
| Md5.Context.Finish | src/opkg/libopkg/md5.c:109-130 | The digest is that of the message so far. |
| Md5.Md5Buffer | src/opkg/libopkg/md5.c:203-215 | The digest of the data is that of RFC 1321. |
| Md5.Md5Stream | src/opkg/libopkg/md5.c:136-196 | The digest of the file is that of RFC 1321, and so that of md5_buffer. |
| Md5.Md5Chunks | src/opkg/libopkg/md5.c:218-283 | Whatever chunks a message comes in, its digest is that of the whole. |
| PackageOrder.Order | src/opkg/libopkg/opkg_cmd.c:325-403 | On any graph it ends, with every live package's name in the order once, and no dependency after its dependent unless it leads back to it; what comes before a package is before it in the list, or is needed by it or by one before it. |
| PackageOrder.OneProvider | src/opkg/libopkg/opkg_cmd.c:369-393 | For a possibility a package is taken exactly when some provider's name is that of a live package; it is the first live package of the first such name. |
| PackageOrder.ListOrder | src/opkg/libopkg/opkg_cmd.c:425-428 | When no package needs another, the order is that of the list. |
| PackageOrder.EveryPackageOnce | src/opkg/libopkg/opkg_cmd.c:425-428 | No package is there twice, and every live one is there exactly when their names differ. |
| PackageOrder.OneOfTwo | src/opkg/libopkg/opkg_cmd.c:334-352 | Two live packages of one name: one of them is in the order, the other is not. |
| PackageOrder.ProvidersFirst | src/opkg/libopkg/opkg_cmd.c:354-399 | Without cycles, the provider taken for each possibility of each dependency comes before the dependent. |
| IntrusiveList.DelRing | src/opkg/libopkg/list.h:80-104 | Taking out a member leaves the others well linked, and it in a list of its own. |
| IntrusiveList.AddRing | src/opkg/libopkg/list.h:39-70 | Putting one in before a member or the head makes it a member there, well linked. |
| ActiveList.Memory.Next | src/opkg/libopkg/active_list.c:34-53 | From each node to the next in post-order, and to nothing from the last. |
| ActiveList.OnceEach | src/opkg/libopkg/active_list.c:34-53 | A node is in one place of the forest only: the links of the memory allow no other. |
| ActiveList.DependentLater | src/opkg/libopkg/active_list.c:34-53 | Each node is at the top, or in the list of what a node depends on that comes later. |
| ActiveList.Memory.Walk | src/opkg/libopkg/active_list.c:34-53 | Walking visits every node of the forest once, dependencies first, and ends. |
| ActiveList.Memory.Move | src/opkg/libopkg/active_list.c:110-120 | The node leaves its list and joins the other; both are well linked and no other link changes. |
| ActiveSort.Sort | src/opkg/libopkg/active_list.c:138-165 | The list is a stably sorted permutation of what it was, well linked. |
| PadImage.SmallImageFits | src/padjffs2/padjffs2.c:38 | Images of up to 2^31 bytes fit. |
| PadImage.PadImage | src/padjffs2/padjffs2.c:40-121 | It ends; the image stays in front; markers, de ad c0 de, are at increasing places, and all else behind the image is ff, up to the last marker; below 2^32 bytes every size asked for has a marker at a multiple of it exactly when none takes the image to 2^32, and then the places are the next multiples of the sizes and no others; and when one size is asked for, its marker is at a multiple of it exactly when the image need not grow to 2^32, whatever its size. |
| PadImage.TooLarge | src/padjffs2/padjffs2.c:38 | An image one byte short of 2^32: its only marker is at an odd place. |

## Left out

- Inflate.Inflate: the gzip header before the blocks and the comparison of the trailer behind them are not modelled; it says what the CRC, the length and the next bytes are.
- Inflate.Inflate: at the end of the file the source goes on reading ones without end; seven bytes of them are modelled, more than any symbol can look at, and then the model stops.
- Inflate.Inflate: nothing is said of a stream with a distance beyond its output, with codes that are in an incomplete set only by memory that was never set, or with a code of no lengths at all, where the source reads memory that it has not written.
- Window.Output.Copy: memcpy is taken to read its whole source before it writes.
- HuftBuild.HuftBuild: tables are known by the order in which they are allocated, not by address; out-of-memory and the running count of entries are not modelled; more codes, in more than two levels of tables, than the callers pass have no promise.
- Metadata.UncompressInodeTable: failing reads, byte order, and the marker byte of file systems with the check flag are not modelled.
- Metadata.StoreAndResolve: tables of 2^32 bytes and more, whose positions a reference has no room for, have no promise.
- Xattr.StoreAndFind: the table of ids is kept as values; its own metadata blocks and index on disk are not modelled. Comparing a list with those stored before (xattr.c:310-360) is not modelled: each list has its own id.
- Xattr.XattrWriter.ChooseMax: the threshold never gets below 8, so that the branch for less has no counterpart.
- DirectoryTable.StoreAndOpen: of an inode only block, offset and size are modelled, without the width of the size.
- FileStore.Writer.WriteFile: read errors, files that change while they are read, and writing through the cache are not modelled; blocks are below 2^24 bytes, as the entries have room for.
- FileStore.Writer.Finish: the fragment table is kept as values; its own metadata blocks and index on disk are not modelled.
- StoreRun.StoreAll: between two files any fragment blocks may get their places, while a file is stored none; what happens then is in FragmentProtocol.
- FragmentProtocol.EveryRun: write errors are not modelled, and that threads go on at all is not promised; FragmentEnd says where they come to when they do.
- Resequence.Deliver: the queue is what the deflators will have put there; waiting is not modelled. Numbers do not wrap at 2^32.
- BlockCache.EveryRun: waking those who wait is not modelled, and callers put back only what they have waited for.
- Dedup.Table.Duplicate: the stored bytes are read from the image, not through the cache of blocks in flight.
- Md5.Md5Stream: read errors are not modelled.
- ActiveList.Memory.Move: it says what becomes of the two lists and of the links, not of the forest as a whole; active_list_clear, and active_list_prev where lists are nested, are not modelled.
- PathSet.Extracts: targets are lists of components; how a string is cut into them is not modelled.
- PadImage.PadImage: images of 2^32 bytes and more have the order of markers and the image in front, but no promise of multiples, unless one size is asked for.
- Compressors, file and process input and output, signals, options, progress, signatures, maintainer scripts, squashfs versions 1 to 3, sorting files by priority, and pseudo files other than what is read from a process: they would add easy members, or have no content of their own.
