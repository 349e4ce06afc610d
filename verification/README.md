# MahinaOS in Dafny

A model of the parts of MahinaOS in which most of its logic lives, with proofs of what that logic promises.
Each core is modelled in the form of its source: what the source updates in place is a class or an array with
methods that are proved against functions on values, and the properties are proved about those functions.

**The PNG decoder of luna-splash.** `Bits`, `CanonicalCode` and `Huffman` build the canonical Huffman tables and
decode through the 9-bit fast table with its slow path. `BitStream`, `BitBuffer` and `InflateReader` read bits least
significant first. `Deflate`, `Inflate`, `DeflateStream`, `DeflateReads`, `InflateHeader` and `InflateStream` give the
meaning of compressed blocks and streams (RFC 1951) and the code that expands them; `Padding` says which streams past
the end of the input are among the accepted ones, and `OutputRoom` when the output fits. `PngFilter`, `Adam7` and
`PngImage` undo the scanline filters and the interlacing of PNG (RFC 2083). The main result is that decompression is
decided by the data: an accepted stream yields its one meaning, and data is rejected exactly if no stream stands there
that the bit reader can read to the end, which it can for every stream that ends inside the input.

**The service scheduler of luna-init.** `Graph` and `DepGraph` resolve `after` and `before` into a start order with
Kahn's algorithm. `ServiceRuns` is the state machine of the supervised services, `BootProgress` says what repeated
pumps lead to, and `Supervisor` holds the entry points, the steps that each of them takes, and what holds of the trace
of steps that any events leave. Clock readings, readiness probes, fork results and exits are inputs, so the results
hold for all of them.

**The LGP compositor.** `Framing` and `ClientStream` cut messages out of byte streams on both ends of a connection.
`Scene` and `ScenePainter` define and paint what the screen shows. `Session` and `Compositor` hold clients, surfaces
and file descriptors, with an invariant over every run.

**Two text formats.** `Toml`, `TomlDocument`, `TomlEscapes`, `TomlLookup` and `TomlParser` treat the TOML subset of
luna-init; `PackageDb` and `PackageStore` the package database of lpkg.

`dafny verify dfyconfig.toml` checks all files together.

## Findings

Nine things that the source says or sets out to do turned out not to hold as they stand. Each is proved with the
condition under which it does hold.

- Reading compressed data past its end is not always caught, although the comment at the end marker
  (`stb_image.h`, lines 4326-4331) says so: the zeros that `stbi__zreceive` fills in for missing bytes are not counted.
  The marker is rejected exactly if more bits were used than the input has and were filled in
  (`DeflateReads.MarkerReadRejected`), and an accepted stream ends inside the input exactly if all padding is still in
  the bit buffer (`Padding.AcceptedInside`), as it is with 32 bits of input behind the stream
  (`Padding.TrailerKeepsPaddingOut`). The single byte 3 is accepted (`Padding.DecodeByteThree`).
- A service that waits for a STOPPED one only through others keeps `supervisor_is_boot_complete` false after any number
  of pumps, although the comment there says that such services do not hold up the boot (`BootProgress.NeverCompletes`,
  `BootProgress.BootCompletes`). If it names only services that are blocked themselves, no exit and no stop command
  helps either, only a start command (`Supervisor.NeverBoots`; `BootProgress.BootNeverCompletes` has three services).
- A start command on a DEGRADED service whose process still lives puts it in line again, and the next fork overwrites
  the process id, so the first process is no longer known. A service has one child at a time exactly if no fork follows
  such a command before that process has ended (`ServiceRuns.OneChild`, `ServiceRuns.TwoChildren`).
- `lgp_client_read_available` forgets received file descriptors when a read is truncated or brings at least two more
  than the queue has room for; only the first that does not fit is closed (`Session.LostOnlyThen`,
  `Session.ClosedOnce`; `Session.LostFromStart` is such a run).
- `lgp_find_pointer_target` looks for the top layer, but all application windows are in one layer and the first slot
  wins, which is painted below the others: a press reaches the topmost window under the pointer exactly if it is the
  only one there (`Session.PressReachesLowest`, `Session.PressReachesTopmost`, `Session.LowestFromStart`).
- A package table is read back from its file only if no field has a quote or a newline and every path is absolute
  (`PackageDb.LoadSave`; `PackageDb.NotReadBack` has two that are not).
- The Rust message decoder panics on a declared length below the header size, where the compositor refuses the frame
  (`Framing.DecodersAgree`, `Framing.ShortLengthPanics`). `LgpMessage::decode` has no caller in the repository.
- The comment search of the TOML parser takes an escaped quote for a real one. A line keeps a string with escaped quotes
  exactly if the string fits, does not end in a backslash, and has every `#` behind an even number of quotes; other
  lines are refused (`TomlEscapes.LineKeeps`, `TomlEscapes.HashInWord`).
- The array parser skips a string by other rules than the string parser reads it by. They agree exactly if every quote
  inside the string has an odd number of backslashes before it (`TomlEscapes.SkipAgrees`); otherwise text is read twice,
  as in an array that starts with two backslashes in quotes (`TomlEscapes.ReadTwice`).

## Assumptions

- Integers are unbounded. Widths are written out where they matter: 16-bit table entries, the 32-bit output limit,
  little-endian fields, and 64-bit TOML integers. Coordinates, ids and clock values do not wrap.
- A fork returns a pid that no child in the table has. The clock of a boot is not negative.
- File descriptors that the kernel delivers are not negative.
- `malloc`, `realloc` and `mmap` may fail at any call, unless a member says that no allocation fails. A successful
  `mmap` has the size that was asked for.
- Texts have no NUL characters. White space is that of the C locale.
- The initial output buffer of the decompressor has a positive size.

## Model

| member | source | states |
|---|---|---|
| Bits.BitReverse16Bit | src/luna-splash/stb_image.h:4107-4114 | the four mask-and-shift exchanges move bit i to bit 15 - i for every i and clear everything above bit 15, for every number |
| Bits.BitReverseIsRevLow | src/luna-splash/stb_image.h:4116-4122 | reversing through 16 bits and shifting is the plain reversal of the low bits, for every value and width up to 16 |
| CanonicalCode.SpelledUnique | src/luna-splash/stb_image.h:4130-4167 | a 16-bit window spells at most one symbol of the canonical code |
| CanonicalCode.PrefixFree | src/luna-splash/stb_image.h:4130-4167 | if the Kraft sum is at most 1, no code word of the canonical assignment (section 3.2.2 of RFC 1951) is a prefix of another |
| CanonicalCode.CodeFits | src/luna-splash/stb_image.h:4143-4146 | every assigned code fits in its own length |
| CanonicalCode.SpelledExists | src/luna-splash/stb_image.h:4229-4237 | a window between the limits of lengths s - 1 and s is spelled by a symbol of length exactly s |
| CanonicalCode.LimitIsWeight | src/luna-splash/stb_image.h:4139-4148 | the limit stored for a length, first code plus count, aligned to 16 bits, is the accumulated Kraft weight of all lengths up to it |
| Huffman.PackParts | src/luna-splash/stb_image.h:4155-4155 | length and symbol can be taken back out of a 16-bit fast-table entry |
| Huffman.HitsStart | src/luna-splash/stb_image.h:4159-4163 | the bit-reversed code is the first fast index whose low bits spell the symbol |
| Huffman.HitsStride | src/luna-splash/stb_image.h:4159-4163 | the indices that spell a symbol of length s come exactly every 2^s places |
| Huffman.ShortUnique | src/luna-splash/stb_image.h:4153-4165 | no two symbols enter the same place of the fast table |
| Huffman.EnterFast | src/luna-splash/stb_image.h:4158-4164 | writing the entry at the hits of a symbol extends the correctness of the fast table by that symbol, and none of the places written held an earlier symbol |
| Huffman.FastHit | src/luna-splash/stb_image.h:4263-4268 | a nonzero fast-table entry names the one symbol whose code the next bits spell |
| Huffman.FastMiss | src/luna-splash/stb_image.h:4263-4270 | a zero entry means that no code of at most 9 bits is spelled, so the window lies above all short codes |
| Huffman.SlowHit | src/luna-splash/stb_image.h:4229-4237 | a window between two length limits is spelled by one symbol, found in the sorted table at the computed index |
| Huffman.SlowMiss | src/luna-splash/stb_image.h:4230-4233 | a window above the last limit spells no symbol at all |
| Huffman.ZHuffman.CountSizes | src/luna-splash/stb_image.h:4130-4134 | counts the symbols of each nonzero length |
| Huffman.ZHuffman.AssignFirst | src/luna-splash/stb_image.h:4138-4149 | succeeds exactly when the accumulated weight stays within 2^16, and then fills first codes, first symbols and limits of all lengths |
| Huffman.ZHuffman.FillFast | src/luna-splash/stb_image.h:4158-4164 | one symbol enters exactly the fast-table places whose low bits spell its code, which were all free before |
| Huffman.ZHuffman.EnterSymbols | src/luna-splash/stb_image.h:4151-4167 | all used symbols enter the sorted table at distinct places and the short ones the fast table |
| Huffman.ZHuffman.Build | src/luna-splash/stb_image.h:4124-4169 | succeeds exactly when the Kraft sum of the nonzero lengths is at most 1; then all tables represent the canonical code |
| Huffman.ZHuffman.FindSymbol | src/luna-splash/stb_image.h:4224-4240 | finds the symbol that a long-code window spells, and fails exactly when it spells none; the two internal checks never fail |
| Huffman.ZHuffman.Lookup | src/luna-splash/stb_image.h:4235-4240 | the index into the sorted table is in range and the entry has the length that was found, so both checks are dead |
| BitStream.InputBitsAreBits | src/luna-splash/stb_image.h:4197-4200 | the bytes of the input, each least significant bit first and followed by zeros, as one bit stream |
| BitStream.SymbolUnique | src/luna-splash/stb_image.h:4243-4271 | at one position of the bit stream at most one symbol of a code can stand |
| InflateReader.ZBuf.Get8 | src/luna-splash/stb_image.h:4192-4200 | delivers the next input byte, or zero at the end of the input |
| InflateReader.ZBuf.FillBits | src/luna-splash/stb_image.h:4202-4212 | keeps the buffer equal to the next num_bits bits of the stream with at most 32 of them, and reads whole bytes until there are at least 25; the corruption guard never fires |
| InflateReader.ZBuf.Receive | src/luna-splash/stb_image.h:4214-4222 | delivers the next n bits of the stream, least significant first, and says how far the buffer was filled for them |
| InflateReader.ZBuf.Refill | src/luna-splash/stb_image.h:4246-4262 | succeeds exactly when 16 bits are buffered, or input is left, or the 16 zero bits have not been added yet; 16 bits are buffered afterwards |
| InflateReader.ZBuf.Decode | src/luna-splash/stb_image.h:4243-4271 | returns v and consumes its code when the canonical code of v stands at the position; fails exactly when no code stands there or the reader cannot refill its buffer |
| InflateReader.ZBuf.DecodeBuffered | src/luna-splash/stb_image.h:4263-4270 | with 16 bits buffered, fails exactly when no code stands at the position |
| BitBuffer.MarkerRejected | src/luna-splash/stb_image.h:4326-4332 | the test at the end marker fires exactly when more bits were delivered than the input has and were filled in for missing bytes: bits > input + fill |
| BitBuffer.InsideInput | src/luna-splash/stb_image.h:4246-4262 | a reader stands inside the input exactly when it still buffers every zero bit that it put behind the input |
| DeflateReads.PlacedFollows | src/luna-splash/stb_image.h:4202-4271 | after a block the reader stands at its end or is exhausted, and a block that ends inside the input never exhausts it |
| DeflateReads.MarkerReadRejected | src/luna-splash/stb_image.h:4321-4333 | a decoded end marker is rejected exactly when its end lies beyond the input and the zeros filled in for missing bytes |
| InflateReader.ZBuf.DecodeSlowpath | src/luna-splash/stb_image.h:4224-4241 | the slow path delivers the symbol that stands at the position, or -1 and no bit is consumed when none does |
| Deflate.ExtraTables | src/luna-splash/stb_image.h:4300-4307 | the extra-bit tables follow the regular pattern of section 3.2.5 of RFC 1951 for every code in use |
| Deflate.LengthCodesTile | src/luna-splash/stb_image.h:4295-4301 | each length code starts where the one before it, with its extra bits, ends: no gap and no overlap below the last code |
| Deflate.CopyIsPeriodic | src/luna-splash/stb_image.h:4348-4354 | a byte-wise copy from distance d repeats the last d bytes, also when the length is greater than the distance |
| Deflate.BlockUnique | src/luna-splash/stb_image.h:4309-4357 | at most one list of tokens with its end marker stands at a position |
| Inflate.Zexpand | src/luna-splash/stb_image.h:4273-4293 | growing keeps every byte produced so far and makes room, or fails without changing the buffer; unless an allocation fails, only if the bytes do not fit the largest size that doubling reaches |
| Inflate.CopyMatch | src/luna-splash/stb_image.h:4348-4354 | the copying loop appends exactly the bytes of the match, overlapping or not, including the shortcut for distance 1 |
| Inflate.PutMatch | src/luna-splash/stb_image.h:4344-4354 | a match is appended after growing the buffer if needed |
| Inflate.ReadToken | src/luna-splash/stb_image.h:4313-4342 | reads the one token or end marker that stands at the position and says how far the buffer was filled; fails exactly if none stands there or reading it exhausts the reader |
| Inflate.PutToken | src/luna-splash/stb_image.h:4314-4354 | appends the meaning of a token; rejects it only if no valid block can continue with it |
| Inflate.StuckBlock | src/luna-splash/stb_image.h:4315-4340 | if no token follows the tokens read so far that the reader can read, it can read no block at their start |
| Inflate.EndsBeyond | src/luna-splash/stb_image.h:4326-4332 | if the end marker of the block at a position fails the test, no other block can be read there |
| Inflate.JudgeEnd | src/luna-splash/stb_image.h:4326-4333 | the end marker is accepted exactly when the block at the position can be read to its end |
| Inflate.OutOfReach | src/luna-splash/stb_image.h:4343-4343 | a distance before the start of the output rules out every block at that position |
| Inflate.ParseHuffmanBlock | src/luna-splash/stb_image.h:4309-4357 | on success exactly the one token list at the position has been appended with its section 3.2.3 meaning; data is rejected exactly if no block stands there that is in reach and can be read to the end; the loop ends because each token adds a byte |
| DeflateStream.HeaderUnique | src/luna-splash/stb_image.h:4359-4407 | at most one dynamic header stands at a position, with one pair of codes |
| DeflateStream.StandsUnique | src/luna-splash/stb_image.h:4481-4508 | at most one block, of whatever type, stands at a position |
| DeflateStream.StreamUnique | src/luna-splash/stb_image.h:4481-4508 | at most one sequence of blocks up to the final one stands at a position |
| InflateHeader.ReadCodeLengths | src/luna-splash/stb_image.h:4372-4376 | reads the 3-bit lengths in the prescribed order and leaves the others zero |
| InflateHeader.ReadItem | src/luna-splash/stb_image.h:4381-4397 | reads one code-length symbol with its repeat count; fails exactly if none stands there or the reader cannot refill its buffer |
| InflateHeader.ReadLengths | src/luna-splash/stb_image.h:4379-4402 | expands the run-length code into the list of lengths; fails exactly if no valid list stands there that can be read to the end |
| InflateHeader.AppendRun | src/luna-splash/stb_image.h:4383-4400 | a run of 3 to 138 lengths is appended; repeating with nothing before it, or past the announced total, rules out every header |
| InflateHeader.ComputeHuffmanCodes | src/luna-splash/stb_image.h:4359-4407 | builds both tables of a dynamic block exactly as its one header says, or no header stands there that can be read to the end |
| InflateStream.ReadHeader | src/luna-splash/stb_image.h:4413-4425 | the four header bytes of a stored block are the next whole bytes of the stream, wherever the bit buffer stood |
| InflateStream.ReadStoredLength | src/luna-splash/stb_image.h:4413-4429 | accepts a length exactly when a stored block stands there |
| InflateStream.ParseUncompressedBlock | src/luna-splash/stb_image.h:4409-4436 | copies the one stored block at the position and resumes on the byte boundary behind it with an empty buffer; rejects exactly if none stands there |
| InflateStream.FixedCodesOk | src/luna-splash/stb_image.h:4452-4467 | the fixed code lengths satisfy the Kraft inequality, so building them cannot fail |
| InflateStream.ParseBlock | src/luna-splash/stb_image.h:4488-4505 | a block of any type is expanded to its meaning, or none stands at the position that is in reach and can be read to the end |
| InflateStream.NothingNoStream | src/luna-splash/stb_image.h:4481-4508 | if no block can follow the blocks so far, no stream from their start can be read |
| InflateStream.ParseBlocks | src/luna-splash/stb_image.h:4481-4508 | the output is extended by the meaning of the one stream at the position; data is rejected exactly if no stream stands there that is in reach and can be read to the end; the loop terminates |
| InflateStream.ParseZlibHeader | src/luna-splash/stb_image.h:4438-4450 | accepts exactly the two-byte headers that zlib allows in a PNG |
| InflateStream.ZlibDecode | src/luna-splash/stb_image.h:4481-4518 | the answer is the meaning of the one accepted stream in the data, or that there is none, padded streams included; if no allocation fails, no room is answered only when blocks and tokens that can be read make the output larger than doubling the buffer can reach |
| InflateStream.DecodeDeterministic | src/luna-splash/stb_image.h:4510-4518 | two runs on the same data that do not run out of memory give the same answer and output, whatever the initial buffer sizes |
| OutputRoom.RoomDecides | src/luna-splash/stb_image.h:4273-4293 | if no allocation fails, an accepted stream is decompressed exactly if its output fits the largest size that doubling the initial buffer reaches below 2^32 |
| OutputRoom.StreamTooLarge | src/luna-splash/stb_image.h:4273-4293 | if what can be read overflows the buffer, every stream that stands there does |
| Padding.InsideAccepted | src/luna-splash/stb_image.h:4481-4518 | every valid stream in reach that ends inside the input is accepted |
| Padding.AcceptedInside | src/luna-splash/stb_image.h:4326-4332 | an accepted stream ends inside the input exactly if the reader still buffers all zero bits it put behind the input, those filled in and the 16 added once |
| Padding.TrailerKeepsPaddingOut | src/luna-splash/stb_image.h:4246-4262 | a valid stream with 32 bits of input behind it, as the checksum of zlib leaves, is accepted before any padding is buffered |
| Padding.OutsideMeansFilled | src/luna-splash/stb_image.h:4326-4332 | an accepted stream ends at most as many bits past the input as were filled in for missing bytes |
| Padding.EndsInPadding | src/luna-splash/stb_image.h:4326-4332 | the stream in the single byte 3 is one empty block that ends two bits past the input, in zeros that the bit reader fills in |
| Padding.PaddedStreamAccepted | src/luna-splash/stb_image.h:4326-4332 | the code accepts that stream: the answer to the byte 3 is never that it is corrupt |
| Padding.DecodeByteThree | src/luna-splash/stb_image.h:4481-4518 | decompressing the single byte 3 without a header succeeds with the empty output if no allocation fails, and is never answered as corrupt |
| PngFilter.PaethAgree | src/luna-splash/stb_image.h:4657-4668 | the branch-free predictor equals the predictor of section 6.6 of RFC 2083 on all integers |
| PngFilter.ReconFilter | src/luna-splash/stb_image.h:4755-4785 | undoing a filter gives back the row that was filtered, for every filter, prior row and pixel size |
| PngFilter.FirstRow | src/luna-splash/stb_image.h:4648-4655 | the substitute filter of the first row equals filtering against a row of zeros |
| PngFilter.CopyRow | src/luna-splash/stb_image.h:4756-4758 | filter none |
| PngFilter.SubRow | src/luna-splash/stb_image.h:4759-4763 | filter sub reconstructs the row in place |
| PngFilter.UpRow | src/luna-splash/stb_image.h:4764-4767 | filter up reconstructs the row in place |
| PngFilter.AvgRow | src/luna-splash/stb_image.h:4768-4773 | filter average reconstructs the row in place |
| PngFilter.PaethRow | src/luna-splash/stb_image.h:4774-4779 | filter Paeth reconstructs the row in place |
| PngFilter.AvgFirstRow | src/luna-splash/stb_image.h:4780-4784 | the first-row variant of the average filter |
| PngFilter.UnfilterRow | src/luna-splash/stb_image.h:4755-4785 | each filter type, the substitute included, reconstructs the row that it stands for |
| PngFilter.Unfilter | src/luna-splash/stb_image.h:4725-4787 | with two row buffers that change places, every row of the result is the reconstruction above the true prior row; fails exactly on too little data or an unknown filter |
| PngFilter.RoundTrip | src/luna-splash/stb_image.h:4737-4787 | undoing the filters gives back every image, whatever filter was chosen for each row |
| PngFilter.FilteredAccepted | src/luna-splash/stb_image.h:4742-4745 | a filtered image is accepted exactly if the filters chosen for its rows are valid |
| PngFilter.FilterThenUnfilter | src/luna-splash/stb_image.h:4725-4787 | filtering an image and undoing the filters succeeds exactly if the filters are valid, and gives back every byte |
| Adam7.PassSizeExact | src/luna-splash/stb_image.h:4880-4881 | the rounded pass size counts exactly the steps that stay inside the image, also when the image is smaller than the origin |
| Adam7.PlaceUnique | src/luna-splash/stb_image.h:4874-4891 | a pixel belongs to exactly one place of exactly one pass |
| Adam7.Tiling | src/luna-splash/stb_image.h:4873-4899 | a pixel is inside the image exactly when its place is inside its pass |
| Adam7.PlaceOfInverse | src/luna-splash/stb_image.h:4888-4895 | the seven passes and the pixels of the image correspond one-to-one |
| Adam7.CopyPass | src/luna-splash/stb_image.h:4882-4895 | copying one pass writes its pixels and leaves those of all other passes alone |
| Adam7.Deinterlace | src/luna-splash/stb_image.h:4870-4901 | every pixel of the final image is the one that its one place in the passes carries |
| PngImage.CreateInterlaced | src/luna-splash/stb_image.h:4870-4901 | unfilters the passes one behind the other, each cut off by its own length, and copies them: every pixel is the one at its place; fails exactly on too little data or an unknown filter, and empty passes take no bytes |
| PngImage.PassesBack | src/luna-splash/stb_image.h:4879-4899 | of the encoded passes each gives back its pixels, whatever stands behind it |
| PngImage.InterlaceThenCreate | src/luna-splash/stb_image.h:4861-4905 | interlacing an image, filtering every pass with any filters, and undoing both gives back every pixel; fails exactly if a filter of a pass that is not empty is invalid |
| Graph.Leftover | src/luna-init/depgraph.c:51-58 | the nodes that never leave the waiting state are exactly those on a cycle or behind one |
| Graph.CompleteIffAcyclic | src/luna-init/depgraph.c:34-51 | the queue takes in all nodes exactly when the graph has no cycle, self-edges included, and then lists them in order |
| DepGraph.DepGraph.ServiceFind | src/luna-init/service.c:258-263 | the first service with the name, or none |
| DepGraph.DepGraph.AddEdge | src/luna-init/depgraph.c:83-87 | an edge is entered once and the in-degree counts distinct predecessors |
| DepGraph.DepGraph.ResolveAfter | src/luna-init/depgraph.c:72-93 | fails exactly on an unknown name; otherwise all edges from the named services are entered and the first eight indices kept |
| DepGraph.DepGraph.ResolveBefore | src/luna-init/depgraph.c:95-111 | fails exactly on an unknown name; otherwise all edges to the named services are entered |
| DepGraph.DepGraph.Build | src/luna-init/depgraph.c:62-118 | returns 0 exactly when every name exists and the combined after/before relation is acyclic; then the matrix holds that relation |
| DepGraph.DepGraph.RunKahn | src/luna-init/depgraph.c:137-158 | the queue never overflows; each dequeued service comes after all its predecessors and the counts left are those of the unfinished predecessors |
| DepGraph.DepGraph.HasCycle | src/luna-init/depgraph.c:27-60 | true exactly when the graph has a cycle |
| DepGraph.DepGraph.TopoSort | src/luna-init/depgraph.c:120-177 | succeeds exactly on an acyclic graph that fits; then the order is a permutation with every edge forward; otherwise the reported services are exactly those on or behind a cycle |
| ServiceRuns.RunKeepsTable | src/luna-init/supervisor.c:422-474 | in every run no service is FAILED or STOPPING between events, STARTING or RUNNING has a process, and no two services share one |
| ServiceRuns.NotAttempted | src/luna-init/supervisor.c:450-470 | a service whose start was never attempted waits or is stopped, and has no process |
| ServiceRuns.DependenciesFirst | src/luna-init/supervisor.c:443-472 | in every run, before a service is attempted each service in its after list has been: first attempts are a linear extension of the after relation |
| ServiceRuns.RestartBudget | src/luna-init/supervisor.c:628-656 | forks since the last start command never exceed the restarts counted plus one |
| ServiceRuns.ForksBounded | src/luna-init/supervisor.c:539-543 | at most restart_attempts + 1 forks (1 for a negative limit) between two start commands, in every run |
| ServiceRuns.RespawnWaits | src/luna-init/supervisor.c:651-656 | no automatic respawn before the exit time plus the restart delay |
| ServiceRuns.WaitsWithChild | src/luna-init/supervisor.c:539-543 | a waiting service has a process exactly when a start command found it degraded with one |
| ServiceRuns.OneChild | src/luna-init/supervisor.c:392-395 | a service has at most one child at a time exactly when no process is forked for it after such a command, unless the first was seen to end in between |
| ServiceRuns.TwoChildren | src/luna-init/supervisor.c:527-543 | such a run: forked, given up for not being ready in time, asked for again, and forked again |
| BootProgress.StartReady | src/luna-init/supervisor.c:447-471 | a waiting service whose dependencies are up is started in the same pump, whatever the start order |
| BootProgress.StartBlocked | src/luna-init/supervisor.c:447-471 | no pump starts a service that waits for a stopped one, directly or through others |
| BootProgress.Progress | src/luna-init/supervisor.c:422-474 | after the k-th chosen pump the first k + 1 unblocked services of a start order are starting or up, however many pumps come in between |
| BootProgress.BootSettles | src/luna-init/supervisor.c:506-525 | start_all and any pumps, of which n + 1 can be chosen that each come after the timeouts of what was starting after the one before, leave every service that is not stopped up exactly when no stopped service is among its transitive after ancestors; the others wait |
| BootProgress.NeverCompletes | src/luna-init/supervisor.c:476-502 | if a service is blocked only through others, no number of pumps at whatever times completes the boot |
| BootProgress.NeverInRun | src/luna-init/supervisor.c:476-502 | a service that waits for blocked ones only keeps the boot incomplete in every run without a start command |
| BootProgress.SpacedAllChosen | src/luna-init/supervisor.c:422-474 | pumps that each wait for the timeouts of the one before can all be chosen |
| BootProgress.BootCompletes | src/luna-init/supervisor.c:476-502 | boot completion is reported in the end exactly when every service blocked by a stopped one names a stopped one itself: after n + 1 such pumps if so, and otherwise after no pumps at all |
| BootProgress.BootNeverCompletes | src/luna-init/supervisor.c:481-498 | three services in a row behind the compositor: the last one keeps the boot incomplete after any number of pumps at any times, and through all exits and stop commands, contrary to the comment |
| Supervisor.PumpIsRun | src/luna-init/supervisor.c:422-474 | the steps of a pump, one check per service and one attempt at the time of the pump for each service that can start when its turn comes, are each possible where they are taken and lead to the table after it |
| Supervisor.EventIsRun | src/luna-init/supervisor.c:527-657 | the steps that an event takes are each possible where they are taken and lead to the table after it |
| Supervisor.EveryRun | src/luna-init/supervisor.c:506-657 | for every sequence of pumps, exits, start and stop commands, about the very steps that they take: consistent table, bounded forks, every attempt made of a waiting service when its time has come and its dependencies are up and were attempted before, no respawn before the restart delay, and one child at a time exactly if none is overtaken after a start command |
| Supervisor.NeverBoots | src/luna-init/main.c:236-361 | whatever happens short of a start command, a service that waits for blocked ones only keeps the boot incomplete |
| ServiceRuns.StepInPlace | src/luna-init/supervisor.c:422-657 | every step of a run can be taken in the table that the steps before it make |
| Supervisor.Supervisor.Dispatch | src/luna-init/main.c:236-304 | one event of the main loop: the table and the steps logged are those that the event defines |
| Supervisor.Supervisor.Supervise | src/luna-init/main.c:187-304 | start_all and any events after it: the steps that the code logs are the trace of the events, and they keep everything that the supervisor promises |
| Supervisor.Supervisor.ServiceFindByPid | src/luna-init/service.c:265-271 | the first service with the process, none for a pid that is not positive |
| Supervisor.Supervisor.SpawnService | src/luna-init/supervisor.c:304-318 | parent side: a missing binary degrades the service, a failed fork changes nothing, a fork records pid, state and time |
| Supervisor.Supervisor.CheckReadiness | src/luna-init/supervisor.c:425-441 | every starting service becomes running, degraded or stays, independently of the others |
| Supervisor.Supervisor.TryStartOne | src/luna-init/supervisor.c:447-471 | a service is attempted exactly when it waits, its time has come and all its dependencies are up |
| Supervisor.Supervisor.SupervisorPump | src/luna-init/supervisor.c:422-474 | one pump is the readiness check of all services followed by the attempts in an order that respects every edge, and logs exactly these steps |
| Supervisor.Supervisor.SupervisorStartAll | src/luna-init/supervisor.c:506-525 | all services but the compositor and degraded ones are put in line, then one pump |
| Supervisor.Supervisor.SupervisorStartOne | src/luna-init/supervisor.c:527-553 | a stopped or waiting service gets a fresh restart budget and a pump; -1 for an unknown name or a degraded service; nothing is sorted or started for a running one |
| Supervisor.Supervisor.SupervisorStopOne | src/luna-init/supervisor.c:555-599 | a service with a process ends stopped without one; any other is left alone |
| Supervisor.Supervisor.ReaperOnExit | src/luna-init/supervisor.c:603-657 | an exit stops, restarts with delay, or degrades the one service that had the process; an unknown pid changes nothing |
| Supervisor.Supervisor.IsBootComplete | src/luna-init/supervisor.c:476-502 | true exactly when every waiting or starting service names a stopped one |
| Supervisor.Supervisor.Boot | src/luna-init/supervisor.c:506-525 | start_all and pumps at any times on the built graph end to end: which services are up, which wait and whether the boot counts as complete, once enough pumps can be chosen; and never complete with a service blocked only through others |
| Framing.ParseResumes | src/lgp-compositor/main.c:713-753 | a stream can be parsed up to any point and resumed from the left-over bytes with the same messages, rejection and rest |
| Framing.CutsDoNotMatter | src/lgp-compositor/main.c:713-753 | for every way of cutting a stream into reads, the dispatched messages, the first rejection and the left-over bytes are those of one parse of the whole stream |
| Framing.EncodeRead | src/lgp-rs/src/protocol.rs:133-140 | an encoded message is read back as itself exactly when it is not larger than the receiver allows |
| Framing.EncodedDispatched | src/lgp-rs/src/protocol.rs:133-140 | a concatenation of encoded messages with payloads of at most 4090 bytes is dispatched as exactly those messages, whatever follows |
| Framing.DecodersAgree | src/lgp-rs/src/protocol.rs:142-153 | the Rust decoder accepts the same frames as the compositor; they differ only on a length below 6, where one refuses and the other panics |
| Framing.ShortLengthPanics | src/lgp-rs/src/protocol.rs:142-153 | the header 0 0 5 0 0 0: the Rust decoder panics, the compositor refuses the frame |
| Framing.DecodeEncode | src/lgp-rs/src/protocol.rs:133-153 | decode undoes encode |
| ClientStream.PeekHeader | src/lgp-compositor/protocol/tlv.c:10-17 | type and length are the little-endian fields of the first six bytes |
| ClientStream.TlvDecode | src/lgp-compositor/protocol/tlv.c:19-31 | a frame is decoded exactly when it is whole, and to its payload |
| ClientStream.EncodeHeader | src/lgp-compositor/protocol/tlv.c:33-49 | writes the header of a frame, with a length of at least 6, and nothing else |
| ClientStream.Receiver.ReadAvailable | src/lgp-compositor/main.c:302-357 | appends what was read; 1 to go on, also when nothing is ready, 0 at the end of the stream, -1 on an error or a full buffer |
| ClientStream.Receiver.ProcessMessages | src/lgp-compositor/main.c:713-753 | dispatches exactly the messages of the buffered bytes in order, keeps the rest, and asks to close exactly on an invalid length or a refused message |
| ClientStream.Receiver.Serve | src/lgp-compositor/main.c:302-323 | over any stream and any read sizes the buffer is never found full and the messages are those of one parse of the bytes read |
| ClientStream.LgpConnection.Recv | src/lgp-rs/src/connection.rs:70-109 | returns the next frame of the stream and leaves the rest, however the reads cut it; invalid length and end of stream are told apart |
| ClientStream.FrameReceived | src/lgp-rs/src/connection.rs:80-92 | payloads up to 4090 bytes pass to the compositor and up to 65530 to the Rust client, no others |
| Scene.Mix | src/lgp-compositor/scene/surface.c:407-410 | a blended channel lies between source and destination channel |
| Scene.InBuffer | src/lgp-compositor/scene/surface.c:379-391 | every source pixel of a covered place lies inside the mapped buffer |
| Scene.SceneIsStack | src/lgp-compositor/scene/surface.c:354-424 | a pixel of the scene is the fold over exactly the shown surfaces, ordered by layer and then by slot |
| Scene.TopmostSeen | src/lgp-compositor/scene/surface.c:387-420 | the topmost opaque surface is what is seen, if those above it are clear there |
| Scene.VoidSeen | src/lgp-compositor/scene/surface.c:328-363 | where every shown surface is clear the void colour is seen; a surface whose layer is not listed never shows |
| ScenePainter.ClearAll | src/lgp-compositor/scene/surface.c:344-352 | every pixel becomes the void colour and the row padding stays |
| ScenePainter.BlendRow | src/lgp-compositor/scene/surface.c:387-415 | each pixel of the clipped row becomes copy, blend or nothing by its alpha |
| ScenePainter.CopyRow | src/lgp-compositor/scene/surface.c:416-421 | the block copy of a row equals copying pixel by pixel |
| ScenePainter.PaintSurface | src/lgp-compositor/scene/surface.c:356-423 | after the turn of a slot every pixel is the surface over the pixel before; clipping, skipping and row copies make no difference |
| ScenePainter.PaintLayers | src/lgp-compositor/scene/surface.c:354-424 | all layers and slots: every pixel is the scene pixel |
| ScenePainter.DrawSoftwareCursor | src/lgp-compositor/scene/surface.c:42-77 | the bitmap replaces exactly the marked pixels inside the screen |
| ScenePainter.Composite | src/lgp-compositor/scene/surface.c:323-429 | every pixel equals the per-pixel definition with the cursor on top, padding is unchanged, and a refused call changes nothing |
| Session.ValidateLayers | src/lgp-compositor/scene/surface.c:111-164 | an accepted surface has a layer of 200 or more only with one of the two shell capabilities, and never above 600 |
| Session.OnlyRoot | src/lgp-compositor/protocol/caps.c:24-35 | a shell or window manager capability is held only by user 0 |
| Session.HelloKeeps | src/lgp-compositor/protocol/hello.c:38-86 | the invariant after a hello, accepted or not |
| Session.CreateKeeps | src/lgp-compositor/scene/surface.c:185-235 | the invariant after creating a surface, whatever the outcome |
| Session.DestroyKeeps | src/lgp-compositor/scene/surface.c:237-251 | the invariant after destroying a surface |
| Session.CommitKeeps | src/lgp-compositor/scene/surface.c:253-307 | the invariant, the stride and size bounds included, after a commit, whatever the outcome |
| Session.FocusKeeps | src/lgp-compositor/main.c:550-569 | the invariant after a focus change: the focused session owns the focused surface as long as that exists |
| Session.CloseKeeps | src/lgp-compositor/main.c:282-294 | the invariant after a disconnect: no surface and no window manager role outlives its client |
| Session.MessageKeeps | src/lgp-compositor/main.c:601-711 | the invariant after every message, also when the client is closed for it |
| Session.ReceiveKeeps | src/lgp-compositor/main.c:322-348 | the invariant, the descriptor balance included, after a read with descriptors |
| Session.AlwaysInOrder | src/lgp-compositor/main.c:901-961 | every reachable state, pointer presses included: owners live and past hello, high layers only for privileged user-0 clients, distinct nonzero ids, empty unused slots, well-mapped buffers, a valid window manager, a focus that names no surface of another session, balanced descriptors, and queues in order |
| Session.FirstInFirstOut | src/lgp-compositor/main.c:231-255 | in every reachable state the descriptors that a client's commits used, followed by the pending ones, are those it has sent, in order |
| Session.PressReachesLowest | src/lgp-compositor/main.c:94-129 | in a reachable state a press reaches, of all windows under the pointer, the one that is painted first |
| Session.PressReachesTopmost | src/lgp-compositor/main.c:149-163 | a press reaches the topmost window under the pointer exactly if there is only one there |
| Session.LowestFromStart | src/lgp-compositor/main.c:94-129 | a run from the start in which it does not: of two windows over the same place, the press reaches the one below |
| Session.ScenePaintable | src/lgp-compositor/scene/surface.c:379-391 | so painting a reachable scene reads only inside mapped buffers |
| Session.LostOnlyThen | src/lgp-compositor/main.c:324-345 | a read forgets received descriptors exactly when it is truncated or brings at least two more than the queue has room for |
| Session.ClosedOnce | src/lgp-compositor/ipc/client.c:51-64 | over every run, when the last client has gone each received descriptor has been closed exactly once if and only if no read was of that kind |
| Session.SecondIsLost | src/lgp-compositor/main.c:342-344 | with a full queue, the second of two received descriptors is never closed |
| Session.LostFromStart | src/lgp-compositor/main.c:324-345 | a run from the start in which that happens: a client sends eight descriptors and then two |
| Compositor.FdQueue.Queue | src/lgp-compositor/main.c:231-241 | appends, or refuses and closes exactly when eight are pending; what came out and what is inside stay what went in, in order |
| Compositor.FdQueue.QueueAll | src/lgp-compositor/main.c:339-345 | takes a prefix of the received descriptors in order and closes only the first that does not fit |
| Compositor.FdQueue.Take | src/lgp-compositor/main.c:243-255 | takes the oldest descriptor and keeps the order of the others |
| Compositor.FdQueue.Destroy | src/lgp-compositor/ipc/client.c:58-62 | closes exactly the pending descriptors |
| Compositor.Negotiate | src/lgp-compositor/protocol/caps.c:11-45 | grants exactly the requested capabilities that the user may hold |
| Compositor.Compositor.CommitSurface | src/lgp-compositor/scene/surface.c:253-307 | on each of its seven exits the descriptor of a commit is closed exactly once, none if there was none; the buffer is attached only for the owner and a fitting layout |
| Compositor.Compositor.HandleHello | src/lgp-compositor/main.c:616-645 | version check, negotiated capabilities, and the window manager role |
| Compositor.Compositor.HandleCreate | src/lgp-compositor/main.c:407-451 | a valid request takes the first free slot with a new id and focuses application windows; a refused one changes nothing |
| Compositor.Compositor.HandleDestroy | src/lgp-compositor/main.c:453-477 | only the owner can empty the slot of a surface |
| Compositor.Compositor.HandleCommit | src/lgp-compositor/main.c:498-519 | takes one descriptor from the queue of the client and hands it to the commit, whatever becomes of it |
| Compositor.Compositor.HandleMessage | src/lgp-compositor/main.c:601-711 | dispatch by message with hello first and once, and capabilities checked |
| Compositor.Compositor.CloseClient | src/lgp-compositor/main.c:282-294 | frees the surfaces, the role, the list entry and the descriptors of the client and nothing else |
| Compositor.Compositor.ReceiveFds | src/lgp-compositor/main.c:322-348 | runs the queueing loop on the queue of the client: queues, closes or forgets the descriptors of a read |
| Compositor.Compositor.FindPointerTarget | src/lgp-compositor/main.c:94-129 | the first of the hit surfaces of the highest layer that is hit |
| Compositor.Compositor.DispatchPointerPress | src/lgp-compositor/main.c:149-163 | a press gives the focus to that surface and its owner, or changes nothing |
| Compositor.Compositor.EventLoop | src/lgp-compositor/main.c:901-961 | over every sequence of events the loop reaches the state that the events define, with the invariant and every queue in order |
| Toml.AcceptedSkipsInside | src/luna-init/toml.c:156-166 | the array parser, which reads escapes in another way than the string parser, never skips past the end of an accepted string |
| TomlDocument.ValueRead | src/luna-init/toml.c:180-224 | every string without quotes or backslashes, 64-bit integer, boolean and string array is read back from its text |
| TomlDocument.ValueNoComment | src/luna-init/toml.c:285-291 | a # inside a shown value is never taken for a comment |
| TomlDocument.BindRead | src/luna-init/toml.c:271-313 | a rendered binding adds exactly its entry to the current section |
| TomlDocument.TableRead | src/luna-init/toml.c:238-254 | a rendered [[table]] header opens the table of its name |
| TomlDocument.TableCounted | src/luna-init/toml.c:248-252 | each [[table]] header counts up the index of its name, first or repeated |
| TomlDocument.LoadRendered | src/luna-init/toml.c:317-363 | every well-formed document within the limits is read back with exactly its bindings, in order, in their sections and tables |
| TomlEscapes.ReadEscaped | src/luna-init/toml.c:111-130 | a text with its quotes escaped is read back by the string parser exactly if it fits and does not end in a backslash |
| TomlEscapes.CommentCut | src/luna-init/toml.c:285-290 | the comment search keeps such a text whole, or cuts it, exactly if some # is behind an odd number of quotes |
| TomlEscapes.LineKeeps | src/luna-init/toml.c:271-313 | a line with such a text is read back exactly if the text fits, does not end in a backslash and has every # behind an even number of quotes; otherwise it is refused, never misread |
| TomlEscapes.HashInWord | src/luna-init/toml.c:285-290 | a quoted # in a string makes its line fail |
| TomlEscapes.SkipAgrees | src/luna-init/toml.c:156-166 | the array parser goes on where an accepted string ended exactly if every quote inside the string has an odd number of backslashes before it |
| TomlEscapes.ReadTwice | src/luna-init/toml.c:136-175 | an array whose first item is two backslashes: the item takes in the separator, and the items behind it are read all the same |
| TomlLookup.PlainLookup | src/luna-init/toml.c:398-413 | a plain lookup is the first binding of the key in the plain sections of that name, never one of a [[table]] |
| TomlLookup.TableLookup | src/luna-init/toml.c:436-451 | a table lookup with index i is the first binding in the i-th block of that name |
| TomlLookup.EnumeratedIsPlain | src/luna-init/toml.c:467-479 | enumerating a section visits exactly its plain bindings in order |
| TomlLookup.ReadLookups | src/luna-init/toml.c:398-479 | all lookups on a document that was rendered and loaded, found and not found |
| TomlParser.StrTrim | src/luna-init/toml.c:55-64 | removes exactly the white space at both ends |
| TomlParser.ParseStringValue | src/luna-init/toml.c:111-130 | text up to the closing quote with escaped quotes; missing quote and overlong text are told apart |
| TomlParser.ParseArrayValue | src/luna-init/toml.c:136-175 | the items of an array with all its error cases |
| TomlParser.ParseValue | src/luna-init/toml.c:180-224 | the type and value of a text, or its error |
| TomlParser.StripComment | src/luna-init/toml.c:285-290 | cuts at the first # outside quotes |
| TomlParser.Parser.OpenTable | src/luna-init/toml.c:238-254 | a [[table]] header, with its limits |
| TomlParser.Parser.ParseLine | src/luna-init/toml.c:229-313 | one line updates the document as the line means, or gives the error |
| TomlParser.LoadBuffer | src/luna-init/toml.c:317-363 | reads all lines or gives the first error |
| TomlParser.Get | src/luna-init/toml.c:398-451 | the first entry of section, table index and key |
| TomlParser.EnumerateSection | src/luna-init/toml.c:467-479 | the visited bindings |
| TomlParser.ArrayTableCount | src/luna-init/toml.c:426-434 | the number of blocks of a table, 0 for an unknown one |
| TomlParser.ReadBack | src/luna-init/toml.c:317-413 | writing a document, loading it and looking up a key gives the first plain binding |
| PackageDb.ReadIsGood | src/lpkg/db.c:29-64 | whatever the text, every record read has fields without quotes and newlines, absolute paths, sizes within the arrays, and there are at most as many as the table holds |
| PackageDb.SavedRead | src/lpkg/db.c:74-85 | saving and loading a clean table gives the same table |
| PackageDb.LoadSave | src/lpkg/db.c:20-88 | saving and loading gives the same table if and only if it fits, no field has a quote or newline, and every path starts with a slash |
| PackageDb.NotReadBack | src/lpkg/db.c:74-85 | a package with a quote in its name and one with a relative path are not read back |
| PackageStore.DbSave | src/lpkg/db.c:69-88 | writes the lines of the table in order |
| PackageStore.DbLoad | src/lpkg/db.c:20-67 | reads the text line by line with the limits of fgets and of the table |
| PackageStore.OthersKept | src/lpkg/main.c:145-171 | installing or removing leaves all packages with other names alone, in order |
| PackageStore.DoneAsAsked | src/lpkg/main.c:263-291 | an installed package is there unless the table is full; a removed one is not |
| PackageStore.StoreKept | src/lpkg/main.c:145-171 | any sequence of installs and removes keeps names unique, the table within its limit, and saving and loading the identity |
| PackageStore.Database.InstallLocal | src/lpkg/main.c:145-177 | replaces the package of that name in place or appends it, also when saving fails then; succeeds exactly if there is room and the file can be written, which then holds the table |
| PackageStore.Database.HandleRemove | src/lpkg/main.c:263-296 | shifts the later packages down over the removed one, also when saving fails then; succeeds exactly if the name is known and the file can be written, which then holds the table |

## Left out

- ScenePainter.Composite: the frame buffer is an array of rows, so the address arithmetic of `y * pitch` is not modelled; the 32-bit product in the check of the pitch is taken without wrap-around.
- PngFilter.Unfilter: bytes of a row only; expanding depths below 8, 16-bit byte swapping and adding an alpha channel are not modelled.
- PngImage.CreateInterlaced: pixels of whole bytes that are stored as they are, as for depths 8 and 16 without an added alpha channel or byte swapping.
- Supervisor.Supervisor.SupervisorStopOne: one step, as in the source, where the loop that waits for the process changes nothing else.
- Compositor.Compositor.HandleMessage: payloads arrive decoded; messages to other clients, key grabs, clipboard contents and drawing into the front buffer are not part of the state.
- The list of clients is a sequence of records with a queue object each, so its pointers are not modelled; `wm_client` is a session number.
- Size validity checks of `stb_image.h` (lines 1000-1059), PNG chunks, palettes and transparency.
- Service reload, shutdown order, the child side of `spawn_service`, and the readiness probes themselves.
- Cursor position, pointer motion and releases, keyboard routing and clipboard messages of the compositor, which change no part of the state that is modelled.
- The reading of service files into `service_t`, and the tar, signature and network parts of lpkg.
- All other programs of the repository.
