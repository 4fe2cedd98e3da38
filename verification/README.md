# Heirloom tools, verified models

Dafny models of the parts of the Heirloom toolchest where the arithmetic and the
data structures are hard, with proofs of what those parts are for.

* **Splay-tree inode index** (`SplayTree`, `InodeForest`). The top-down splay of
  cpio and cp on mutable nodes with one shared sentinel, the lookup and insertion
  on it, and the list of device slots, up to the link test of cp as a finite map.
* **PKWare DCL decompressor** (`BitStream`, `Huffman`, `DclTables`, `Window`,
  `Blast`, `BlastEncoding`, `DclFormat`, `DclExamples`, `DclErrors`). Bits from
  chunked input, canonical codes, and the 4096-byte window, each against a plain
  description, and the whole against an LZ77 decoder with unbounded history; written
  streams decompress to what they stand for, cut or broken ones to an error. The
  built-in tables are stated in the terms of the format, and three complete byte
  strings are decoded.
* **Hard links in archives** (`LinkSpec`, `LinkNumbers`, `LinkPlain`,
  `LinkData`, `LinkWriter`, `LinkReadSpec`, `LinkOffers`, `LinkReader`,
  `LinkGroups`). Collecting and releasing link groups, fake device and inode
  numbers, which file's data goes where, and the reader that stores and replays
  links. `LinkPlain` is the numbering in the formats that write each
  link at once. The `Spec` modules work on values; `Writer` and `Reader` do the
  same on the mutable trees.
* **cpio archives** (`BlockStream`, `Numerals`, `CpioFormat`, `CpioArchive`,
  `CpioLayout`, `CpioIO`). Block-buffered streams, the odc, newc and binary headers,
  large-file sizes for UnixWare and IRIX, where everything stands, and the way of an
  archive from writer to reader.
* **pax records and ustar names** (`PaxRecords`, `UstarNames`).
* **bfs line index** (`LineIndex`). Segment table, line lengths, relative cursor
  and block cache against "line l of the file".
* **col** (`ColGrid`, `ColBuffer`, `ColPrinter`, `ColPage`, `ColCommands`,
  `ColText`). The overstrike buffer against a grid of columns, the ring of half
  lines against an unbounded page, the output as ink on paper, and the ink against
  what the input strikes where.
* **CRCs** (`CrcTable`, `ZipCrc`, `Cksum`, `ZipCrcDivision`). Tables and loops
  against bit-serial registers and the long division of polynomials.

Where the original works by changing things in place the model does too: trees
and lists are objects, buffers are arrays, and each method is proved against a
function on values whose own properties are proved as lemmas. Foreign calls that
may do less than they are asked to (read, write) take any amount they may take.

Things the code decides differently from what one might expect, each with its
exact condition:

* `harddev` in cpio is the last slot used for a hard link, not the greatest, so
  its guard does not keep the two families of fake numbers apart
  (`LinkNumbers.FamiliesApart`, `LinkPlain.PlainApart`, `LinkNumbers.GuardTooWeak`).
* `prevoff` in bfs is a `short`; the cursor is right exactly while the offset
  sums fit (`LineIndex.BigFile.BigRead`, `LineIndex.LongLine`).
* The last padding of a regular file in a cpio archive follows the length of the
  last chunk copied, not of the file. Archives come back exactly when the chunk
  size, st_blksize, is a multiple of the padding unit or so large that no file
  within the limits of the format has two chunks (`CpioIO.ChunksRead`); otherwise
  there is a file that makes the archive unreadable (`CpioIO.Misread`).
* At the end of its input col prints what it has stored, without the line it is
  on. Nothing is lost exactly when no character was printed after the last command
  that left its line (`ColPage.Col.Run`, `ColPage.LostCharacter`).
* col strikes a further glyph of a column behind the first one, so the text of a
  line given to col comes back with the glyphs over the first in the opposite order
  (`ColText.LineAgain`, `ColText.LineSame`).
* A large file in the IRIX format has an odd length, and so shifts what follows it,
  exactly when its size holds an odd number of times 2 GB (`CpioLayout.SplitGrain`).
* A UnixWare size suffix is recognised exactly behind a name that is not empty
  (`CpioArchive.Tagged`).
* A pax record can be consistent with two lengths, exactly when one of them is all
  nines; addrec takes the smaller (`PaxRecords.TwoLengths`).
* tgetrec passes over a line without a number only up to its newline and counts the
  next record from there, so every record behind it is read one character short
  (`PaxRecords.JunkLine`).

`dafny verify dfyconfig.toml` checks the project.

## Model

| member | source | states |
|---|---|---|
| `SplayTree.ISplay` | cpio/cpio.c:2593-2636 | ends for every tree and key with the same nodes, keys and in-order sequence; the sentinel's links are not written; the root parts the tree at the key |
| `SplayTree.RootDecides` | cpio/cpio.c:2593-2648 | after a splay the key is in the tree exactly when the root holds it, and for an absent key the root is its immediate predecessor or successor in order |
| `SplayTree.SameOrder` | cpio/cpio.c:2593-2636 | the in-order sequence alone fixes nodes, keys and the search order, so rotations that keep it lose nothing |
| `SplayTree.Assemble` | cpio/cpio.c:2629-2634 | joining the left tree, the root's subtrees and the right tree gives a search tree on exactly the nodes the descent started with |
| `SplayTree.RotationDescends` | cpio/cpio.c:2602-2606 | a rotation during the descent keeps what the descent keeps: order, node set, and the key between the two partial trees |
| `SplayTree.IFind` | cpio/cpio.c:2641-2648 | finds exactly the node a map from inode numbers would give, and keeps that map |
| `SplayTree.IPut` | cpio/cpio.c:2653-2673 | after a lookup of the same number the map gains exactly that node and the tree stays a search tree, although nothing is splayed |
| `SplayTree.PutOrdered` | cpio/cpio.c:2653-2673 | splitting at the root keeps the search order because the root neighbours the new key |
| `InodeForest.KnownEntered` | cpio/cpio.c:2678-2697 | lookups after entering a file under device and inode answer as one finite map over pairs would |
| `InodeForest.Forest.Lookup` | cpio/cpio.c:2641-2648 | a lookup on one device slot answers from the table the slot stands for and leaves all tables as they were |
| `InodeForest.Forest.Insert` | cpio/cpio.c:2653-2673 | an insertion right after a failed lookup changes the table of its own slot at its own key only |
| `InodeForest.Forest.Device` | cpio/cpio.c:2678-2697 | dfind gives the first slot of the device and appends one exactly when there is none |
| `InodeForest.Forest.Canlink` | cp/cp.c:309-336 | a second file with the same device and inode is linked to the first path; the first one is remembered |
| `InodeForest.Forest.LinkAll` | cp/cp.c:277-336 | over any list of files each is linked to the first path seen with its device and inode, if there is one |
| `InodeForest.FirstPathIs` | cp/cp.c:309-336 | the path that a file is linked to is that of its first occurrence, and there is none exactly when it has not occurred |
| `BitStream.Input.Bits` | cpio/blast.c:71-93 | takes the next bits of the concatenated input, however it was cut into chunks, and fails exactly when there are too few |
| `BitStream.BitsSplit` | cpio/blast.c:71-93 | dropping bits from the buffer leaves exactly the bits after them |
| `Huffman.Table.Construct` | cpio/blast.c:190-241 | the result is the Kraft remainder (negative when oversubscribed); otherwise the tables hold the counts and the symbols sorted by length |
| `Huffman.PlaceIsStable` | cpio/blast.c:226-238 | the sort is by length and, within a length, by symbol number |
| `Huffman.LeftIsRoom` | cpio/blast.c:217-222 | the running remainder is the number of code words not yet used at each length |
| `Huffman.PrefixFree` | cpio/blast.c:128-171 | at most one symbol has a code that starts a given stream |
| `Huffman.CompleteMatches` | cpio/blast.c:128-171 | when the remainder is 0 every stream of 13 bits starts with the code of some symbol |
| `Huffman.Select` | cpio/blast.c:128-171 | a count within a length picks out the symbol of that rank |
| `Huffman.Hit` | cpio/blast.c:149-154 | when the code read so far falls below the last code of its length it is the inverted canonical code of the symbol indexed |
| `Huffman.Table.Decode` | cpio/blast.c:128-171 | returns the symbol whose code starts the stream and takes exactly its length; says which of too short and invalid is the case when there is none |
| `DclTables.LitComplete` | cpio/blast.c:288-298 | the literal code lengths have Kraft sum exactly 1 |
| `DclTables.LenComplete` | cpio/blast.c:299-300 | the length code has Kraft sum exactly 1 |
| `DclTables.DistComplete` | cpio/blast.c:301-304 | the distance code has Kraft sum exactly 1 |
| `Blast.ReadSymbol` | cpio/blast.c:128-171 | on the built-in codes decoding never meets an invalid pattern, so -9 is never returned |
| `Window.Output.Copy` | cpio/blast.c:346-370 | the copy through the 4096-byte window, split at its end and overlapping as it may, gives what copying byte by byte from an unbounded history gives |
| `Window.CopiedAt` | cpio/blast.c:357-359 | of a copy every byte equals the one its distance before it, including bytes the same copy has produced |
| `Window.Output.Chunk` | cpio/blast.c:352-366 | one run of the copy, up to the end of the window or of the older block |
| `Window.Output.Flush` | cpio/blast.c:330-377 | a full window is handed over whole and the history stays the same |
| `Blast.Decomp` | cpio/blast.c:281-379 | for every input the window decoder returns the code and the output of an LZ77 decoder with unbounded history |
| `Blast.Blast` | cpio/blast.c:382-410 | for every chunking of the input and every number of blocks the output function takes: all of the decoded bytes and the decoder's own code when they fit, else as many whole blocks as fit; 1 is returned exactly when something is not taken and the decoder had ended well or a full block was refused |
| `BlastEncoding.ReadBack` | cpio/blast.c:308-378 | one literal, copy or end token written with the canonical codes is read back and nothing after it is touched |
| `BlastEncoding.DecompressedBack` | cpio/blast.c:281-379 | decompressing any legal list of tokens gives the bytes those tokens stand for |
| `BlastEncoding.BlastBack` | cpio/blast.c:382-410 | blast itself on the packed bytes of any legal list of tokens, cut into chunks in any way and with anything behind them, returns 0 and the bytes those tokens stand for, or with too little room 1 and the whole blocks that fit |
| `DclErrors.Truncated` | cpio/blast.c:86-93 | any stream cut off anywhere before its end gives 2 and a beginning of its bytes |
| `DclErrors.TooFar` | cpio/blast.c:338-343 | a copy from before the start of the output, behind any tokens within reach, gives -3 and the bytes up to there |
| `DclErrors.HeaderErrors` | cpio/blast.c:322-326 | a first byte other than 0 and 1 gives -1, a second other than 4, 5 and 6 gives -2, a missing one 2 |
| `DclFormat.LiteralLengths` | cpio/blast.c:298-305 | the run-length list of the source gives every one of the 256 literals the code length listed for it character by character |
| `DclFormat.LengthLengths` | cpio/blast.c:306-306 | the code lengths of the 16 length symbols |
| `DclFormat.DistanceLengths` | cpio/blast.c:308-308 | the code lengths of the 64 distance symbols |
| `DclFormat.LengthTiles` | cpio/blast.c:309-312 | length 2 is symbol 1 and length 3 symbol 0; symbols 2 to 15 tile 4 to 519 in increasing order, each range as wide as its extra bits allow |
| `DclFormat.LengthSymbol` | cpio/blast.c:309-334 | every length from 2 to 519 is written in exactly one way |
| `DclFormat.CopyToken` | cpio/blast.c:332-340 | every copy of 2 to 518 bytes within reach is the meaning of exactly one legal token |
| `DclExamples.AiExample` | cpio/blast.c:15-21 | the example of the source: 00 04 82 24 25 8f 80 7f gives AIAIAIAIAIAIA |
| `DclExamples.FiveExample` | cpio/blast.c:309-343 | 00 04 c2 66 08 f8 07, one literal and an overlapping copy of length 4, gives aaaaa |
| `DclExamples.CodedExample` | cpio/blast.c:315-378 | 01 06 ae e3 77 03 fe 01, coded literals and a copy of length 2 with its two low distance bits, gives Ea Ea |
| `LinkSpec.LocateFinds` | cpio/cpio.c:1391-1428 | a file met before is found again on its slot, also when its device has spilled over several slots |
| `LinkSpec.LocateNew` | cpio/cpio.c:1391-1428 | a new file goes to the first slot of its device that has a number left |
| `LinkSpec.UpdatedPlaces` | cpio/cpio.c:1398-1428 | handling a file concerns its own place only |
| `LinkSpec.LinkKeeps` | cpio/cpio.c:1384-1492 | each call keeps the slot numbering, distinct numbers without gaps on a slot, full slots before the last, and a name and status for each node being collected |
| `LinkSpec.LinkConserves` | cpio/cpio.c:1430-1492 | each call adds exactly its own name to the names written or collected for its file |
| `LinkSpec.RunConserves` | cpio/cpio.c:1384-1492 | at every moment of every run the names written and then those collected for a file are the names given for it, in order |
| `LinkSpec.HeadersShape` | cpio/cpio.c:1445-1461 | the members of a group before the last have size zero and the number and link count of their file |
| `LinkSpec.AllWritten` | cpio/cpio.c:1430-1492 | after the final flush every name given has been written exactly once, in order, under the one number of its file, and no link has been written under a number that no file holds |
| `LinkSpec.RunBlocks` | cpio/cpio.c:1430-1492 | what a run writes is a sequence of single files and whole link groups, each ended by another of the given files, in order: its last member has that file's name, size and link count, the members before it no data |
| `LinkSpec.FileEnds` | cpio/cpio.c:1440-1511 | whatever a call of outfile writes ends with the entry of the file just given, with its size and its link count up to 0xffffffff, behind links without data |
| `LinkData.RunAccounts` | cpio/cpio.c:1430-1511 | at every moment the data written for a file, the names outstanding and the status kept are what an account of the statuses given for that file alone says: the data is the sum of the sizes of the files that ended its groups |
| `LinkData.ArchiveData` | cpio/cpio.c:1430-2067 | in a whole archive a file has that data and, if a group was left open, the size its first file had |
| `LinkData.DataOnce` | cpio/cpio.c:1430-2067 | a file of n links and z bytes of which at least one and at most n links are given is in the archive with z bytes, once |
| `LinkData.UniformAccount` | cpio/cpio.c:1430-1484 | a file of n links and z bytes has m/n times z bytes written after m names, and m mod n names collected |
| `LinkData.ArchiveSingles` | cpio/cpio.c:1497-1511 | the members that are no links are the given files that are no links, in order, each with its name, size, kind and link count |
| `LinkSpec.FlushBlocks` | cpio/cpio.c:2040-2067 | the final flush adds whole groups only, also for groups with links outside the archive |
| `LinkSpec.FlushAllNames` | cpio/cpio.c:2040-2067 | the final flush writes exactly the names still collected for each file |
| `LinkSpec.SameNumberSameFile` | cpio/cpio.c:1384-1429 | two files have the same device and inode in the archive exactly when they are the same file |
| `LinkNumbers.SingleNumbers` | cpio/cpio.c:1498-1511 | the n-th single file gets device 0177777-(n-1)/maxino and inode maxino-(n-1)%maxino |
| `LinkNumbers.SinglesFatal` | cpio/cpio.c:1497-1509 | without links an archive ends in an error exactly when it is to hold more than 65534 times maxino files |
| `LinkNumbers.DevicesFatal` | cpio/cpio.c:1398-1400 | with links to files on different devices it ends in an error exactly when there are more than 65534 of them |
| `LinkNumbers.LinksCarry` | cpio/cpio.c:1384-1429 | the device and inode pairs on the links of a whole archive are exactly the numbers up to the count of each slot |
| `LinkNumbers.SinglesCarry` | cpio/cpio.c:1498-1511 | the pairs on the other members are exactly those passed by the two descending counters |
| `LinkNumbers.FamiliesApart` | cpio/cpio.c:1289-1511 | in a whole archive no link shares device and inode with a single file if and only if the single-file device is above all slots, or on the last one with inodes enough left |
| `LinkNumbers.GuardTooWeak` | cpio/cpio.c:1409-1410 | the guard does not ensure that: harddev is the last slot used, not the greatest; an archive is given with a link and a single file of one device and inode |
| `LinkPlain.PlainLinks` | cpio/cpio.c:1384-1512 | in the odc and binary formats, where each link is written at once: two links in an archive have the same device and inode exactly when they are links to one file, however many slots its device fills |
| `LinkPlain.PlainApart` | cpio/cpio.c:1384-1512 | the same condition for links and single files with one number in those formats |
| `LinkWriter.Writer.FindSlot` | cpio/cpio.c:1388-1418 | the search loop over device slots finds the slot of the specification and stops at the same device limit |
| `LinkWriter.Writer.Collect` | cpio/cpio.c:1430-1484 | the three cases of the link count: write the group, start again, collect |
| `LinkWriter.Writer.OutFile` | cpio/cpio.c:1384-1512 | on the mutable trees, one call changes the state and the archive as the specification says, and what it writes ends with the entry of the file just given and its data |
| `LinkWriter.Writer.IFlush` | cpio/cpio.c:2040-2055 | the recursive flush writes the leftover groups of a tree in post order |
| `LinkWriter.Writer.LFlush` | cpio/cpio.c:2060-2067 | the flush of the forest visits every file of every slot once |
| `LinkWriter.Writer.WriteAll` | cpio/cpio.c:1289-1293 | a whole run with its final flush: every given file that is no link is there with its name and size, in order, and every linked file with all its names, in order, under its one number and with the data of its account |
| `LinkWriter.PostOrderOnce` | cpio/cpio.c:2040-2055 | post order meets every key of a search tree exactly once |
| `LinkReadSpec.FirstTakes` | cpio/cpio.c:3606-3640 | of the names offered together exactly the first one wanted takes the data; the status shown to the others has size zero |
| `LinkReadSpec.ReadStep` | cpio/cpio.c:3508-3518 | any entry adds its own name to those offered or waiting for its file, and exactly its own data is consumed, under its own number |
| `LinkReadSpec.ReadConserves` | cpio/cpio.c:3508-3645 | after any entries and for any selection the names offered and then those waiting are the names read, in order, and the stream has been consumed to the end of the last entry |
| `LinkReadSpec.GroupRead` | cpio/cpio.c:3529-3645 | a group is offered whole at its last member, with data or complete, and the first wanted name takes the data; an empty incomplete group waits |
| `LinkReadSpec.RestCounts` | cpio/cpio.c:3654-3678 | the last flush offers exactly the names still waiting and consumes nothing |
| `LinkReadSpec.AllOffered` | cpio/cpio.c:3508-3678 | for any archive and any selection every link name is offered exactly once, in order, and the data of every file is consumed exactly once |
| `LinkReadSpec.WrittenThenRead` | cpio/cpio.c:1430-3678 | an archive that was written and then read offers, for every file, exactly the names given for it |
| `LinkGroups.RunCompletes` | cpio/cpio.c:1430-1492 | while link counts do not change, a run writes single files and groups with exactly as many members as the file has links |
| `LinkGroups.CompleteRead` | cpio/cpio.c:3529-3645 | reading a complete group leaves no name waiting for any file |
| `LinkGroups.RunDelivered` | cpio/cpio.c:1430-3645 | reading what a run wrote before its final flush: of every file given all names but those still collected have been offered, in order, with the sum of the sizes of the files that ended its groups, and no name waits, whatever is selected |
| `LinkGroups.DataDelivered` | cpio/cpio.c:1430-3678 | a whole archive written and read to its end delivers for every file the data of its account, whatever is selected |
| `LinkOffers.WholeArchive` | cpio/cpio.c:3508-3678 | for any archive and any selection: the offers that are no links are exactly the members that are no links, in order, each under its own name and status, taken as the choice says for that name at that place, with all its data; every offer shows the status of a member and is chosen by the name it shows |
| `LinkOffers.PlainPlaces` | cpio/cpio.c:3508-3516 | the places of those offers are all the places of offers that are no links, in increasing order |
| `LinkReader.Reader.FlushNode` | cpio/cpio.c:3606-3645 | on the mutable node: offers and data as specified, and the node is emptied |
| `LinkReader.Reader.StoreLink` | cpio/cpio.c:3529-3584 | the four cases of a zero-size link on the mutable trees |
| `LinkReader.Reader.FlushRest` | cpio/cpio.c:3654-3678 | flushes each slot's tree in post order, each node once, while emptying the nodes it passes |
| `LinkReader.Reader.ReadAll` | cpio/cpio.c:3508-3521 | the read loop and the last flush: single files are offered in order under their own names with their data, and of every link number exactly the names and the data in the archive are offered, and the archive is used up |
| `BlockStream.Output.BWrite` | cpio/cpio.c:2491-2507 | blocks written and the buffered prefix together grow by exactly the data; nwritten counts it |
| `BlockStream.Output.BFlush` | cpio/cpio.c:2512-2521 | the stream is followed by zeros up to the block size and nothing is left in the buffer |
| `BlockStream.Output.MWrite` | cpio/cpio.c:2460-2486 | the whole buffer is written however little one write takes |
| `BlockStream.Input.MRead` | cpio/cpio.c:4700-4732 | filling the buffer by reads of any sizes, also when the first read sets the block size, does not change what lies ahead |
| `BlockStream.Input.BRead` | cpio/cpio.c:4631-4695 | returns the next bytes of the stream, all that were asked for unless the stream ends; aoffs counts them |
| `BlockStream.Input.BUnread` | cpio/cpio.c:4618-4625 | what is given back is read first |
| `Numerals.FieldRead` | cpio/cpio.c:4573-4602 | a number printed in an octal or hexadecimal field that fits it is read back |
| `Numerals.ReadNumber` | cpio/cpio.c:4573-4602 | the loops of rdoct and rdhex give the value of the digits between leading blanks and the first blank or NUL |
| `Numerals.Binary16` | cpio/cpio.c:221-300 | 16-bit numbers and byte pairs correspond one to one in either byte order |
| `Numerals.Binary32` | cpio/cpio.c:235-327 | 32-bit numbers and byte quadruples correspond one to one in little, big and middle byte order |
| `CpioFormat.PutGetAll` | cpio/cpio.c:1579-1664 | fields written one after the other are read back one after the other, whatever follows |
| `CpioFormat.HeaderRead` | cpio/cpio.c:1577-1684 | within the limits of its format a header has its fixed length and is read back exactly |
| `CpioFormat.OdcLayout` | cpio/cpio.c:400-413 | every field of the portable ASCII header stands at its place, in octal digits of its width |
| `CpioFormat.NewcLayout` | cpio/cpio.c:429-445 | every field of the SVR4 header stands at its place, in eight hexadecimal digits |
| `CpioFormat.BinLayout` | cpio/cpio.c:364-377 | every field of the binary header stands at its place, in the byte order of the format (long fields middle-endian in the little-endian one) |
| `CpioFormat.NothingCut` | cpio/cpio.c:1577-1616 | within the limits the masks cut nothing off |
| `CpioLayout.EntryLayout` | cpio/cpio.c:1577-1640 | the bytes of a member: header, name with its NUL (and the size suffix of UnixWare from 0x7ffffe00 on), zeros up to a multiple of 4 in newc and of 2 in binary archives, the data, and zeros again |
| `CpioLayout.DataGrain` | cpio/cpio.c:1577-2018 | in a newc archive every header and all data start on a multiple of 4, in a binary one of 2 |
| `CpioLayout.SplitGrain` | cpio/cpio.c:1971-1978 | a large file of the IRIX format has an even length exactly when its size holds an even number of times 2 GB, since its first part is padded by the fake size |
| `CpioLayout.ArchiveGrain` | cpio/cpio.c:1577-2018 | behind any members the next header is on such a multiple exactly when an even number of members of odd length precede it |
| `CpioLayout.CrcHeader` | cpio/cpio.c:3714-4121 | a header with magic number 070702 is read like one with 070701 |
| `CpioLayout.FieldForms` | cpio/cpio.c:4573-4602 | leading blanks are passed over and a blank or NUL ends the digits, whatever follows |
| `CpioArchive.HeadBack` | cpio/cpio.c:4107-4121 | header, name and padding are read back and the reader stands right behind the padding |
| `CpioArchive.NotTagged` | cpio/cpio.c:4122-4138 | no name without NUL is taken for one with a size suffix |
| `CpioArchive.Tagged` | cpio/cpio.c:1565-1576 | the UnixWare suffix is seen if and only if the name before it is not empty, and gives back every size below 2^63 |
| `CpioArchive.FakeSize` | cpio/cpio.c:3790-3798 | the fake size of the IRIX split is told from a real size, and the size recovered, if and only if it is below 2^62+2^31 |
| `CpioArchive.SplitBack` | cpio/cpio.c:1666-1684 | a large file in two parts with two headers is read back as one, in phase with what follows |
| `CpioArchive.EntryBack` | cpio/cpio.c:1930-2018 | any member that can be archived is read back exactly and the reader stands where the writer stood |
| `CpioArchive.ArchiveBack` | cpio/cpio.c:3714-4160 | any list of members in any of the formats comes back the same and in order, and reading stops at the trailer |
| `CpioIO.ChunksPad` | cpio/cpio.c:1967-2018 | padding by the last chunk is padding by the length, for every length, if and only if the buffer size is a multiple of the padding unit |
| `CpioIO.ChunksWritten` | cpio/cpio.c:1930-2018 | every file that can be archived is written with its proper padding if and only if the buffer size is a multiple of the padding unit or so large that no file has two chunks |
| `CpioIO.Misread` | cpio/cpio.c:1967-2018 | with any other buffer size a regular file of one byte more than a chunk makes an archive that the reader gives up on |
| `CpioIO.ChunksRead` | cpio/cpio.c:1930-4160 | every list of members comes back from its archive if and only if the buffer size is such |
| `CpioIO.CopyData` | cpio/cpio.c:1941-1970 | the copy loop writes the data and keeps the length of its last chunk |
| `CpioIO.AddFile` | cpio/cpio.c:1930-2018 | on the block stream: header, name, padding, data in chunks, padding |
| `CpioIO.ReadHdr` | cpio/cpio.c:3714-4121 | on the block stream: reads a header, checks it and its name, and skips the padding |
| `CpioIO.ReadData` | cpio/cpio.c:4444-4459 | on the block stream: the data in pieces and the padding behind it |
| `CpioIO.ReadParts` | cpio/cpio.c:4451-4459 | on the block stream: the rest of a file in two parts, with its second header |
| `CpioIO.ReadAll` | cpio/cpio.c:3508-3521 | the read loop gives the members up to the trailer |
| `CpioIO.Transfer` | cpio/cpio.c:1930-4160 | an archive written in blocks of one size and read in blocks of any other, with any short writes and reads, gives the same members, for every buffer size that meets that condition |
| `LineIndex.LinesCut` | bfs/bfs.c:323-392 | cutting a text into lines loses nothing; every line but the last ends in its only newline |
| `LineIndex.BigFile.BigOpen` | bfs/bfs.c:323-392 | the tables hold the length of every line and block and offset of every 64th line |
| `LineIndex.BigFile.Move` | bfs/bfs.c:413-426 | the cursor reaches the true start of the line if and only if the offset sum fits a short |
| `LineIndex.BigFile.Fetch` | bfs/bfs.c:427-430 | the saved block is the one needed, from the cache or the file |
| `LineIndex.BigFile.BigRead` | bfs/bfs.c:404-466 | for every state earlier reads may have left: exactly the line without its newline, and the state stays good, provided the offset sum fits; the cursor is right if and only if it does |
| `LineIndex.ShortLinesFit` | bfs/bfs.c:413-426 | with no line over 512 bytes every move fits |
| `LineIndex.MoveSpan` | bfs/bfs.c:413-426 | a move of up to 32 lines is counted over those lines, any other over the lines of the segment before its goal; it fits when that many of the longest lines and the rest of a block fit a short |
| `LineIndex.Largest` | bfs/bfs.c:413-426 | and 512 is the largest such bound: a text with lines of at most 513 bytes and a move that does not fit is given |
| `LineIndex.BigFile.FitsByLines` | bfs/bfs.c:411-426 | whether a move fits depends on the lines and the two line numbers only, not on what was read before |
| `LineIndex.LongLine` | bfs/bfs.c:95-95 | a first line of 32768 bytes makes the next line unreachable |
| `LineIndex.BigFile.ReadMany` | bfs/bfs.c:404-466 | any lines in any order, one after the other, as long as each move from one to the next fits |
| `LineIndex.BigFile.ReadShort` | bfs/bfs.c:404-466 | without long lines any lines in any order |
| `ColGrid.StruckGlyphs` | col/col.c:270-370 | striking a character adds one glyph at its column, replaces only a blank, and keeps every other column's glyphs |
| `ColGrid.CellAt` | col/col.c:339-369 | the text of a column has its glyphs at even places and backspaces between them |
| `ColBuffer.Buffer.Seek` | col/col.c:276-301 | the walk along the text finds the start of a column and fills missing columns with blanks |
| `ColBuffer.Buffer.InsertStrike` | col/col.c:336-351 | a second character goes in behind the first; everything past the end stays zero |
| `ColBuffer.StruckText` | col/col.c:302-369 | what a strike does to the text of the line |
| `ColBuffer.Buffer.Outc` | col/col.c:270-370 | outc on the buffer does to the grid what a strike does, and the buffer past the terminator stays zero |
| `ColBuffer.Buffer.Load` | col/col.c:386-402 | fetch leaves exactly the text of the page line in the buffer |
| `ColPrinter.GridWalk` | col/col.c:404-466 | the text of a line puts exactly the ink of its grid on the paper |
| `ColPrinter.Printer.Emit` | col/col.c:404-466 | what is sent, with tabs, blanks, shifts, backspaces and half lines, adds exactly the ink of the line at its row; the counters cline and pcp are where the terminal is |
| `ColPage.Moved` | col/col.c:468-481 | when the lowest line of the window is printed its place serves the line 256 above it |
| `ColPage.Col.Incr` | col/col.c:468-481 | incr on the ring is a step down on the unbounded page; the lowest line is printed as it was stored last |
| `ColPage.Col.Decr` | col/col.c:483-490 | decr on the ring is a step up on the page and never reaches a printed line |
| `ColPage.Col.Switch` | col/col.c:170-261 | every input command does to ring, buffer and counters what it does to the page |
| `ColPage.Col.Finish` | col/col.c:263-266 | the lines left are printed in order, and the terminal ends below the highest line |
| `ColPage.Col.Run` | col/col.c:170-266 | for every input the ink on paper is, line by line, the ink of the unbounded page as last stored; it is all the ink of the page if and only if nothing was printed after the last command that left its line |
| `ColPage.WholePage` | col/col.c:170-266 | the stored lines have all the ink of the page exactly for such inputs |
| `ColPage.LastLine` | col/col.c:263-266 | with the last line stored too the paper would be the same exactly when that line has the ink it was last stored with |
| `ColPage.LostCharacter` | col/col.c:263-266 | a single character without a line feed is lost |
| `ColCommands.TabStop` | col/col.c:241-243 | a tab goes to the least multiple of 8 to the right and touches nothing else |
| `ColCommands.ColumnMoves` | col/col.c:237-252 | backspace, blank and return move the column and touch nothing else; a backspace stops at the margin |
| `ColCommands.Strike` | col/col.c:254-259 | a character is struck at the column with the shift of the last SO or SI before it; every other column keeps its glyphs |
| `ColCommands.LineFeed` | col/col.c:171-175 | a newline goes two half lines down, to the margin, and keeps everything on the page |
| `ColCommands.ReverseFeed` | col/col.c:184-187 | a reverse line feed goes two half lines up in its column, or as far as the ring of 256 goes |
| `ColCommands.RealHalves` | col/col.c:189-210 | with -f a half line feed goes one half line |
| `ColCommands.HalfPairs` | col/col.c:189-210 | without it two half line feeds are one full line feed, up and down, and a forward one is undone by a reverse one |
| `ColCommands.PageGlyphs` | col/col.c:170-261 | after any input the page has in every place exactly the glyphs struck there, each as often as it was struck |
| `ColCommands.Program` | col/col.c:170-266 | the program: when the last line is ended, every mark is on the paper exactly as often as the input strikes it there |
| `ColText.LineAgain` | col/col.c:170-261 | the text of a line obeyed as commands on an empty line writes its columns again, the glyphs over the first of a column in opposite order, without blank columns at the end, and touches no other line |
| `ColText.LineGlyphs` | col/col.c:270-370 | so every column has its glyphs again |
| `ColText.LineSame` | col/col.c:270-370 | and the line is the same exactly when it has no blank column at its end and the glyphs over the first of each column read the same both ways |
| `ColText.Underlined` | col/col.c:170-261 | a letter, a backspace and an underscore stand in one column |
| `ColPrinter.StruckMarks` | col/col.c:270-370 | a strike adds exactly one mark to its line |
| `ZipCrc.TableRight` | cpio/crc32.c:39-92 | every entry of the table is eight steps of the bit-serial register |
| `ZipCrc.Do1Right` | cpio/crc32.c:94-94 | one table look-up is eight bits of the register |
| `ZipCrc.ZipCrc` | cpio/crc32.c:94-115 | the unrolled loop computes the bit-serial checksum with complement before and after |
| `ZipCrc.CrcConcat` | cpio/crc32.c:94-115 | continuing a checksum over a second part gives the checksum of both parts |
| `ZipCrcDivision.MirrorFeed` | cpio/crc32.c:94-94 | the register is the mirror image of the register of cksum, and the two divisors mirror each other |
| `ZipCrcDivision.FedComplemented` | cpio/crc32.c:105-114 | a register that starts with ones divides the message with its first 32 coefficients complemented |
| `ZipCrcDivision.CrcIsRemainder` | cpio/crc32.c:94-115 | the checksum is the mirrored complement of the remainder of that polynomial with 32 zeros behind it, by long division |
| `Cksum.TableRight` | cksum/cksum.c:63-116 | every entry of the table is eight steps of the division of its index |
| `Cksum.Do1Right` | cksum/cksum.c:139-139 | one table look-up is eight bits of the message |
| `Cksum.FedIsRemainder` | cksum/cksum.c:136-149 | the register is the remainder of the message polynomial with 32 zero bits behind it, by long division |
| `Cksum.Cksum` | cksum/cksum.c:136-150 | the result is the complement of the remainder of data and length bytes, whatever the reads return |
| `Cksum.LengthNumber` | cksum/cksum.c:143-149 | the length bytes are the base-256 digits of the length, lowest first and the highest not zero |
| `PaxRecords.LengthOf` | cpio/cpio.c:6884-6888 | the length loop ends, for every keyword and value, with the least length that counts itself |
| `PaxRecords.AddRec` | cpio/cpio.c:6871-6892 | appends a record whose leading number is its own length |
| `PaxRecords.TwoLengths` | cpio/cpio.c:6884-6888 | the least matters: two lengths are consistent exactly when the record with d digits is d nines long, for some d |
| `PaxRecords.RecordBack` | cpio/cpio.c:6769-6821 | a record is taken apart into its keyword and value wherever it stands, also with '=' and newlines in the value |
| `PaxRecords.TGetRec` | cpio/cpio.c:6769-6800 | the loops of tgetrec find the record of the specification; without '=' the keyword runs on to the end of the data |
| `PaxRecords.AddAll` | cpio/cpio.c:6769-6892 | any list of records reads back as the same list of keywords and values |
| `PaxRecords.JunkLine` | cpio/cpio.c:6778-6799 | one line before the records that does not start with a number costs every record behind it the last character of its value |
| `PaxRecords.RecordCut` | cpio/cpio.c:6778-6799 | a record read from the newline before it loses the last character of its value, and the next is looked for from the newline at its end |
| `UstarNames.Header.MkName` | cpio/cpio.c:5198-5233 | succeeds if and only if the name has at most 100 bytes or some slash cuts it into at most 155 and at most 100, neither empty; then the header tells the name |
| `UstarNames.Header.TNameOf` | cpio/cpio.c:5174-5193 | joins prefix and name as the header holds them |
| `UstarNames.Limits` | cpio/cpio.c:5198-5233 | a name with one slash is stored exactly up to 155 and 100 bytes |
| `UstarNames.Edges` | cpio/cpio.c:5198-5233 | a long name whose only slash is its first or its last character is not stored |
| `UstarNames.Through` | cpio/cpio.c:5174-5233 | every name that fits comes back through a header unchanged |

## Left out

- CpioFormat.HeaderRead: device numbers are split into major and minor by the traditional 8 bits; the system's own macros are not part of this model. Negative times are outside the limits.
- CpioIO.ReadHdr: -k resynchronisation, 6th Edition modes, device files with 32-bit numbers in IRIX archives and the automatic choice of a format are not modelled; `sco` and `sgi` stand for the reader's wish to look for the extensions.
- CpioIO.AddFile: a file is the data its status announces, and each read of it fills the buffer; read errors, swapping and the CRC sum field (written as 0) are left out.
- BlockStream.Input.BRead: I/O errors, -k, media change and the 512-byte skip of bar archives are left out; a failed write is not modelled.
- LinkReadSpec.GroupRead: interactive renaming and -s substitution are left out, so a selected entry always takes its data; what extraction does in the file system is not modelled.
- LinkGroups.RunDelivered: needs link counts that do not change during the run; without that the accounts of all files and the conservation of names and data still hold (LinkData.RunAccounts, LinkReadSpec.AllOffered).
- LinkWriter.Writer.OutFile: the size, device and name checks at the head of outfile, the -A path with marked devices, and the tar formats are left out (the odc and binary formats are in LinkPlain, on values and without the heap); 32-bit wrap-around of the counters is not modelled (they are bounded by the format's limits).
- LineIndex.BigFile.BigOpen: growth of the tables and its limits are left out, and every read but the last is taken to fill its block, as for a regular file.
- LineIndex.BigFile.BigRead: running out of memory for a long line is left out.
- ColBuffer.Buffer.Outc: multi-column characters, -b, -p and TRANS blanks are left out; a character is its code and its shift.
- ColPrinter.Printer.Emit: multibyte output and illegal sequences are left out; a newline is taken to return to the first column.
- PaxRecords.TGetRec: the data are taken up to their first NUL; a length that does not fit the data, where the original leaves its buffer, is an outcome of its own; overflow of strtol is left out, and which keywords are known is not modelled.
- UstarNames.Header.MkName: plain ustar only; GNU and pax names go other ways.
- Numerals.ReadNumber: 64-bit overflow of a field with too many digits is left out.
- SplayTree.IPut: allocation is left out; a node is given.
- BlastEncoding.DecompressedBack: the writer of compressed streams is a description used for the round trip; the repository has only the reader.
- The DEC, Cray, bar, GNU tar and zip headers, zlib and bzip2, and the pass mode of cpio: more of the same shape, or libraries that are not part of this model.
- The cat, cal, comm, cmp, basename, banner and bdiff commands: they would add only easy members.
