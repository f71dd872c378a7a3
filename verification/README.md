# Proofs about the codecs and protocol machines

A Dafny model of the parts of the repository that are hardest to get right, with proofs of what
they are for: the LZHUF codec of LHarc, the deflate and inflate of gzip with its decoder for packed
files, and three protocol machines of the network code. `dafny verify dfyconfig.toml` proves
everything.

The C code works in place on arrays and global variables, so the model does too: classes with
arrays and fields, methods with loops, the source's branches and constants, and 16- or 32-bit words
reduced explicitly where they wrap. What a method computes is stated through a function or predicate
on values, and the theorems are about those.

- **LZHUF** (`Lzhuf*`): the adaptive tree keeps the sibling property, so `update` ends at the root and
  no code passes 21 bits; it counts exactly until it is halved, before character 32455; the search
  trees over the ring buffer stay ordered, so a reported match is true, and over a whole run no string
  in the window would repeat more of the input than the token sent; whatever `Encode` writes, `Decode`
  gives back.
- **deflate** (`Trees*`, `Huffman`, `PrefixCodes`, `Deflate*`): `build_tree` gives complete codes,
  the best of all prefix codes when no length is cut; predicted sizes are exact; every block
  `flush_block` writes reads back, and `TreesChoice` says exactly when it is the shortest of the three
  kinds; every match is a true earlier copy, the search's result is given exactly, and which items come
  out, and where blocks end, is stated in terms of the input alone (`DeflateLazy`, `DeflateBlocks`).
- **inflate** (`Huft*`, `Inflate*`, `Canonical`, `Ladder`): `huft_build` for every set of lengths, with the
  exact condition under which its tables are right; the decoder against the format of RFC 1951 on
  any file; and `GzipRoundTrip`, inflate after deflate.
- **unpack** (`Unpack*`): the table of code lengths agrees with the walk, and `unpack` succeeds exactly
  on packed files with a complete tree.
- **PPP framing** (`CohPpp`), **inet channels** (`InetChan`) and the **switchboard** (`Inetd*`): frames
  arrive, streams stay in order, children and sockets are accounted for, in every run.

What both sides of a codec share, such as an order of tables or a limit, a round trip does not see. It
is pinned by laws in numbers and by literal files: `LzhufLaws`, `LzhufNumbers`, `FormatLaws`,
`DeflateNumbers`, and examples beside the proofs.

A callback, the kernel, the inet daemon and the caller's reads are oracles: functions of a clock
about which nothing is assumed beyond the contract of the class that holds them.

## Model

| member | source | states |
|---|---|---|
| LzhufTree.StartValid | archive/lharc/lzhuf.c:470-490 | the first tree, of 314 leaves of frequency one, has the sibling property (frequencies nondecreasing, sons in pairs, each inner node the sum of its sons) and parents and sons that are inverse to each other |
| LzhufTree.StepKeeps | archive/lharc/lzhuf.c:548-571 | one turn of the climb in `update` either raises the root and leaves a valid tree, or goes strictly up to the only node whose sum is now one short; so the climb ends at the root, and nowhere else |
| LzhufTree.ReconstValid | archive/lharc/lzhuf.c:494-534 | the rebuilt tree is valid again, and the root weighs at most half of what it did plus half of the number of characters, so that it is not full again |
| LzhufCounts.ReconstWeight | archive/lharc/lzhuf.c:494-508 | in the rebuilt tree every character's own frequency is the old one halved, rounded up, wherever its leaf has gone |
| LzhufCounts.UpdateCounts | archive/lharc/lzhuf.c:540-573 | `update` adds one to the frequency of the character it is called for and leaves all others, whatever nodes it swaps; only in a full tree are all of them halved first |
| LzhufTree.FibonacciWeight | archive/lharc/lzhuf.c:539-607 | a node d levels down forces the root to weigh at least Fib(d) times its parent's frequency and Fib(d - 1) times its own |
| LzhufTree.CodeLength | archive/lharc/lzhuf.c:577-607 | in every valid tree every code has 1 to 21 bits, so the accumulator of 32 bits and two calls of `Putcode` hold it |
| LzhufTree.PrefixFree | archive/lharc/lzhuf.c:577-645 | no character's code starts with another's |
| LzhufLaws.StartShape | archive/lharc/lzhuf.c:470-490 | the first tree node by node: the leaves of the characters 0 to 313 in order, then above them node 314 + i over the nodes 2i and 2i + 1 |
| LzhufLaws.FirstLetter | archive/lharc/lzhuf.c:470-607 | in it the letter a has the code 111101101 |
| LzhufLaws.CountsExact | archive/lharc/lzhuf.c:540-573 | up to 32454 characters of any kind are counted exactly: the root weighs 314 more than there were, each character one more than it occurred |
| LzhufLaws.FirstHalving | archive/lharc/lzhuf.c:540-573 | before the next one, whatever it is, all counts are halved, and not earlier |
| LzhufHuffman.Huff.StartHuff | archive/lharc/lzhuf.c:470-490 | the arrays hold the first tree |
| LzhufHuffman.Huff.Reconst | archive/lharc/lzhuf.c:494-534 | rebuilding the arrays in place gives exactly the tree of halved leaves inserted in order |
| LzhufHuffman.Huff.Update | archive/lharc/lzhuf.c:540-573 | counting a use in place gives the tree of the climb by value, and keeps validity, also when the tree is rebuilt first, which happens before the 32455th use and not before (`LzhufLaws.CountsExact`, `LzhufLaws.FirstHalving`) |
| LzhufHuffman.Huff.EncodeChar | archive/lharc/lzhuf.c:577-607 | the bits put are the path from the root to the leaf, high end first through the 32-bit accumulator, and the tree is updated |
| LzhufHuffman.Huff.DecodeChar | archive/lharc/lzhuf.c:630-645 | whatever the bits, those taken are the code of the character returned in the tree before, and the tree is updated as the encoder's |
| LzhufPosition.EncodePosition | archive/lharc/lzhuf.c:610-620 | a position's code is the prefix its upper six bits have in the tables and its lower six bits |
| LzhufPosition.DecodePosition | archive/lharc/lzhuf.c:647-659 | the bits taken are the code of the position returned, for any stream |
| LzhufPosition.PosCodeUnique | archive/lharc/lzhuf.c:610-659 | a stream starts with the code of at most one position |
| LzhufBits.BitOut.Putcode | archive/lharc/lzhuf.c:444-465 | the high bits of the word follow those sent before, though the buffer is a 16-bit word and its left-over is shifted by up to 16 |
| LzhufBits.BitIn.GetNBits | archive/lharc/lzhuf.c:413-438 | the next n bits as a number, zeros after the end of the file |
| LzhufMatch.Matcher.InsertNode | archive/lharc/lzhuf.c:98-174 | the trees stay ordered and `same` stays the common length with the parent; the nodes seen are those of the search from the root down to an empty slot or an equal string, and the match reported is of them the longest, the nearest if there are several; no live string whatever agrees longer (or than THRESHOLD); exactly the string itself comes in, for one that is equal |
| LzhufMatch.Matcher.DeleteNode | archive/lharc/lzhuf.c:177-249 | exactly p leaves its tree, whatever sons it has; order and `same` are kept |
| LzhufEncode.EncodeToken | archive/lharc/lzhuf.c:679-699 | the token sent stands for the next bytes of the input, a match cut to what is left or one byte, and its bits are those of the tree at hand; no string within reach repeats more of the input |
| LzhufEncode.Encode | archive/lharc/lzhuf.c:662-719 | for every input the file holds the bits of tokens whose text, after the blanks, is the input, in as few bytes as hold them; and wherever a token stands, no string that starts in the last N - F bytes repeats more of the input, replaced or not in the trees |
| LzhufNumbers.TokenNumbers | archive/lharc/lzhuf.c:679-760 | copies have 3 to 60 bytes from 1 to 4096 back and code 253 plus their length; the text starts behind 4036 blanks |
| LzhufNumbers.HeadNumbers | archive/lharc/lzhuf.c:109-113 | which tree a string is in, on two examples |
| LzhufNumbers.LongestNumbers | archive/lharc/lzhuf.c:662-719 | what no token shorter than it could be means in numbers: no string from 4036 bytes back on repeats more |
| LzhufNumbers.LetterFile | archive/lharc/lzhuf.c:662-719 | a file of the one letter a is 0xf6 and a byte from 0x80 on |
| LzhufWindow.CoverMoves | archive/lharc/lzhuf.c:700-711 | as the window moves on, the string left out is never the last of its kind: every string within reach is in the trees, or an equal one that leaves them no sooner |
| LzhufDecode.Decode | archive/lharc/lzhuf.c:721-760 | on any file: the bits consumed are those of some tokens and the output is their text over the window's first contents; it stops at the first token that reaches the size asked for |
| LzhufFormat.OneReading | archive/lharc/lzhuf.c:662-760 | of two token sequences a stream starts with, one starts the other: the adaptive code can be read in one way |
| LzhufEncode.DecodedIsInput | archive/lharc/lzhuf.c:662-760 | for every input and every decoding of the file made from it, whatever was in the window's last bytes, output and tokens are those of the encoder |
| LzhufEncode.RoundTrip | archive/lharc/lzhuf.c:662-760 | `Encode` then `Decode` in the same arrays, left as the encoder left them, gives back every input |
| GzipBits.BitSink.SendBits | archive/gzip/bits.c:111-137 | the low bits of the value follow those sent, lowest first; a value that straddles the 16-bit buffer, also with 16 bits in it, loses none |
| GzipBits.BiReverse | archive/gzip/bits.c:139-154 | the bits of the result, lowest first, are those of the code, highest first |
| GzipBits.BitSink.CopyBlock | archive/gzip/bits.c:173-201 | fill to a byte, length, complement of it, and the bytes |
| TreesHeap.PqDownHeap | archive/gzip/trees.c:463-488 | from a heap below node k to one from k on: same nodes, and those outside where they were |
| Huffman.AtLeastMerge | archive/gzip/trees.c:669-692 | joining the two least frequent nodes loses nothing: lengths for the joined set that are best give a lower bound that holds for all lengths of the first set that satisfy Kraft's inequality |
| TreesBuild.CombineAll | archive/gzip/trees.c:669-695 | the joining ends with one root, every node in the order the lengths are dealt out in, every other node's father recorded; each two nodes joined were the first of those without a father, by frequency and then by depth, which is kept in 8 bits; and the sum of the inner frequencies is a lower bound of every cost |
| TreesBuild.GreedyOrder | archive/gzip/trees.c:669-695 | hence the nodes stand in the order of their frequencies |
| PrefixCodes.KraftInequality | archive/gzip/trees.c:626-705 | the code lengths of every prefix code satisfy Kraft's inequality |
| PrefixCodes.BestPrefixCode | archive/gzip/trees.c:626-705 | lengths cheapest under Kraft's inequality cost no more than any prefix code for the same symbols |
| TreesLengths.PassOne | archive/gzip/trees.c:517-548 | every node's length is its depth or the limit; `bl_count`, `opt_len` and `static_len` are tallied over exactly the leaves; the overflow is the number of nodes that were cut |
| TreesRepair.Repair | archive/gzip/trees.c:550-561 | from counts that overrun the limit by overflow / 2 codes to counts that fill it exactly, with as many leaves: each time one of the longest leaves above the limit moves down and takes a cut one as its brother; a leaf to move is always found and the loop ends |
| TreesCodes.GenBitlen | archive/gzip/trees.c:490-575 | no length passes the limit, the set is complete, `bl_count` agrees with the lengths and is that of the first lengths, mended, and `opt_len` and `static_len` grow by exactly the symbols' bits; with nothing cut the lengths are cheapest; and cut or not, the rarer of two symbols never has the shorter length |
| TreesCodes.GenCodes | archive/gzip/trees.c:577-616 | every symbol with a length gets its canonical code, reversed; no other entry changes |
| Canonical.PrefixFree | archive/gzip/trees.c:577-616 | no canonical code of lengths that are not oversubscribed starts with another |
| Canonical.AlwaysCode | archive/gzip/trees.c:577-616 | for complete lengths every stream that is long enough starts with a code |
| TreesTree.BuildTree | archive/gzip/trees.c:618-705 | from any frequencies to a complete canonical code within the limit that has every symbol that occurs, by the tree that joins the first two nodes each time; the forced codes cost nothing in `opt_len` and `static_len`; the rarer symbol has no shorter code; when no length had to be cut no prefix code whatever costs less |
| TreesRuns.RunsInverse | archive/gzip/trees.c:707-801 | the run codes of the two trees, decoded as one list, are the two lists of lengths |
| TreesRuns.ScanTree | archive/gzip/trees.c:711-751 | every run code is counted as often as `send_tree` will send it; of the lengths only the guard after them is set |
| TreesRuns.SendTree | archive/gzip/trees.c:753-801 | the bits sent are those of the run codes and their repeat counts |
| TreesHeader.BuildBlTree | archive/gzip/trees.c:803-833 | the bit length tree can send both lists, its order is cut after the last length used, and `opt_len` grows by the exact number of bits of the header |
| TreesHeader.SendAllTrees | archive/gzip/trees.c:836-863 | the bits of the header of a dynamic block: three counts, the lengths of the bit length codes in the order of `bl_order`, the run codes |
| FormatLaws.BitLengthsSent | archive/gzip/trees.c:836-863 | of the 3-bit groups after the counts the first four are the lengths of the codes 16, 17, 18 and 0, and after them those of 8, 7, 9, 6 and so on outwards: group 4 + i that of 8 + i/2 for even i, of 8 - (i + 1)/2 for odd i |
| TreesHeader.HeaderRead | archive/gzip/trees.c:836-863 | followed by anything, the header reads back as the two lists of lengths |
| TreesTables.InitLengths | archive/gzip/trees.c:365-378 | the table filled by loops gives for every length the code, base and extra bits that the format has for it, 258 included |
| TreesTables.InitDistances | archive/gzip/trees.c:380-396 | the same for every distance from 1 to 32768, through the two halves of the table |
| TreesTables.InitStaticLit | archive/gzip/trees.c:398-409 | the static tree has the fixed lengths of the format and their canonical codes |
| FormatLaws.LengthBase | archive/gzip/inflate.c:162-167 | the lengths of code 257 + i in numbers: from 3 on, in groups of four codes with one bit more each, and 258 alone |
| FormatLaws.DistanceBase | archive/gzip/inflate.c:168-176 | the distances of code i in numbers: from 1 on, in groups of two codes with one bit more each |
| FormatLaws.FixedCode | archive/gzip/trees.c:398-409 | the fixed codes are the numbers of section 3.2.6 of RFC 1951 |
| FormatLaws.StaticLetter | archive/gzip/trees.c:866-969 | the letter a in one static block is the bytes 4b 04 00 |
| TreesTally.Tally.CtTally | archive/gzip/trees.c:972-1023 | the literal or match is appended to what the three buffers stand for, the frequencies count it, and a flush is asked for when the buffer is full or the estimate says it pays |
| TreesTokens.BlockRead | archive/gzip/trees.c:1025-1072 | the bits of any literals and matches under complete codes, followed by anything, read back as these |
| TreesSend.CompressBlock | archive/gzip/trees.c:1025-1072 | from the packed buffers and flags it sends the bits of exactly the items tallied, and the end of the block |
| TreesSend.SizeExact | archive/gzip/trees.c:1025-1072 | the sum over symbols of frequency times length and extra bits is the number of bits sent for them |
| TreesFlush.FlushBlock | archive/gzip/trees.c:866-969 | for every content of the buffers: the block written, of the kind the sizes compared choose, reads back as the items or the stored bytes and takes exactly the bits foreseen, for a stored one the filling and the two words included; the next block starts empty; `compressed_len`, which adds up the predicted sizes, is the number of bits sent, modulo 2^32 |
| DeflateBlocks.SplitCut | archive/gzip/trees.c:972-1023 | a block ends after the first item after which `ct_tally` says so: 8191 items, or at every 4096th the estimate, which counts the input up to the string looked at |
| TreesChoice.ShortestIff | archive/gzip/trees.c:899-957 | the block written leaves the output in the fewest bytes of the three kinds if and only if: a stored one goes, from the next byte boundary after its kind, no further than the smaller coded one; a static one with more bits than the dynamic one ends in the same byte; a dynamic one always |
| TreesChoice.LossBound | archive/gzip/trees.c:899-957 | what the choice can lose is two bytes with a stored block and one with a coded one |
| TreesChoice.DynamicAtLeast | archive/gzip/trees.c:842-969 | no complete codes whatever make a dynamic block of the bytes 0 to 165 of less than 1357 bits, trees included |
| TreesChoice.StoredLoses | archive/gzip/trees.c:899-957 | for that text at a byte boundary a stored block of 171 bytes is written where a static one takes 170 |
| Hufts.HuftBuild | archive/gzip/inflate.c:274-466 | for every list of lengths: 2 exactly if it is oversubscribed, 1 exactly if it is incomplete and its longest code is not one bit, 0 else; and tables for the lengths unless 2 |
| Hufts.FindsEvery | archive/gzip/inflate.c:274-466 | in sound tables a stream that starts with a symbol's code leads to that symbol's entry, using that many bits |
| Hufts.FindsAllIffSound | archive/gzip/inflate.c:388-405 | for complete lengths all codes are found if and only if no level after the first has 2^(l-1) open patterns before its last bit with longer codes to come |
| HuftExact.FindsIffClear | archive/gzip/inflate.c:388-405 | for any lengths, complete or not: the code a stream starts with is found if and only if no table on its way of more than l bits is looked at with a one after the first l; else nothing is found |
| Hufts.UnsoundMisses | archive/gzip/inflate.c:388-405 | tables of complete lengths that are not sound never find the last of the longest codes |
| Hufts.UnsoundExample | archive/gzip/inflate.c:388-405 | lengths 1, 2, 3, 3 with one bit looked up at once are not sound |
| Hufts.ExampleMisses | archive/gzip/inflate.c:388-405 | in the tables made for them the code 111 is never found |
| Hufts.TwoLevelsSound | archive/gzip/inflate.c:657-830 | tables are sound for codes of up to twice the bits looked up at once: gzip's literals, bit lengths and fixed codes |
| Hufts.FewCodesSound | archive/gzip/inflate.c:838-852 | and for up to 30 codes at six bits: gzip's distances |
| InflateBits.BitSource.GiveBack | archive/gzip/inflate.c:938-944 | the bytes given back are those without a used bit: the next byte to read is just past the last used bit |
| InflateLookup.LookUp | archive/gzip/inflate.c:514-535 | the walk through the tables against the bit buffer takes the symbol whose canonical code the stream starts with, and its bits; failure only if there is none |
| InflateWindow.Window.CopyMatch | archive/gzip/inflate.c:560-588 | pieces that stop at the window's end, by an upward `memcpy` or byte by byte, flushed when full, append what copying byte by byte from an unbounded history does |
| InflateWindow.OverlapIff | archive/gzip/inflate.c:565-572 | the test lets `memcpy` have pieces that overlap if and only if the match begins before the window's start, less than a window back, and its first byte lies less than the piece's length ahead |
| InflateWindow.OverlapExample | archive/gzip/inflate.c:565-572 | it does for three bytes from 32767 back at the window's start, and a `memcpy` that copied downwards would write the fourth byte three times |
| InflateCoded.InflateCodes | archive/gzip/inflate.c:491-596 | on any stream: on success window and output have exactly the items the format reads, and the stream stands after them; failure only where the format has no reading, end of file only within the last bits |
| InflateBlocks.InflateStored | archive/gzip/inflate.c:600-649 | the same for stored blocks, with the complemented length checked |
| InflateBlocks.InflateDynamic | archive/gzip/inflate.c:704-864 | the same for dynamic blocks, the header's lengths and repeat counts included |
| FormatLaws.BitLengthsRead | archive/gzip/inflate.c:745-757 | the order of the bit length codes in what is read, in the same numbers as for what is sent |
| FormatLaws.TinyHeaderRead | archive/gzip/inflate.c:704-836 | a header of a dynamic block, bit by bit, and the lengths it has |
| InflateBlocks.Inflate | archive/gzip/inflate.c:914-955 | on any file: success is the text of the format's blocks, at most one byte of look-ahead is given back and the next byte is the first without a bit of a block; failure only if the format has no reading, end of file only within the last 16 bits |
| DeflateHash.KeyTells | archive/gzip/deflate.c:256-265 | equal hash keys and two equal bytes leave no choice for the third |
| DeflateWindow.Deflater.InsertString | archive/gzip/deflate.c:267-280 | the head returned is the last string before with this key, or NIL if there is none but at 0; heads and links go on being the last such strings, none skipped |
| DeflateWindow.Deflater.FillWindow | archive/gzip/deflate.c:513-571 | window, chains and input stay in step over a slide, 16-bit `match_start` wrap included, and no chain skips a string; there is room for at least two bytes after what there was, and something is read unless the input has ended |
| DeflateMatch.LongestMatch | archive/gzip/deflate.c:354-487 | the result exactly: the strings looked at are the nearest ones with the same key, one after the other, as many as the patience allows, up to the first that is long enough or the end of the chain; the length is the longest among them if that beats the one before, the place the nearest with it; unless out of patience no string nearer than MAX_DIST, but the one at 0, matches longer (`DeflateMatch.SearchedAll`); and the window is read past its end if and only if that is so of `PastEnd` |
| DeflateMatch.MatchLength | archive/gzip/deflate.c:445-469 | looking at one string reads past the window if and only if the byte after the best length lies there, or the four tests pass, the end is at most MAX_MATCH away and all bytes up to it agree |
| DeflateMatch.PastEndRun | archive/gzip/deflate.c:354-487 | in the state after 32756 of 32766 zero bytes the next look does read past the window |
| DeflateMatch.BeyondOnlyAtEnd | archive/gzip/deflate.c:354-364 | a look that reads past the window comes only after the end of input, with at most MAX_MATCH - 2 bytes left |
| Deflate.Look | archive/gzip/deflate.c:659-688 | a look finds nothing when as much as max_lazy is at hand; else what it leaves unfound is no better than what it found or has at hand, was not needed, for that is as long as nice_length, or is not among the nearest strings with the same key, of which it has tried max_chain, or a fourth of them |
| DeflateLazy.LazilyAt | archive/gzip/deflate.c:650-750 | of every item of the whole run: a literal stands where the look found nothing, or less than the look at the next place; a match is what the look found, the nearest copy of that length, longer than what was at hand, and at least as long as what the next look found |
| DeflateNumbers.EightAsAtSix | archive/gzip/deflate.c:650-750 | at level 6 eight letters a become two literals and a match of six one back, whatever the way of reading them |
| DeflateNumbers.LevelNumbers | archive/gzip/deflate.c:228-239 | what the levels set |
| DeflateNumbers.KeyNumbers | archive/gzip/deflate.c:256-265 | bytes are shifted by five bits in the key, which has 14 |
| Deflate.DeflateAll | archive/gzip/deflate.c:645-750 | for every input, level and way of reading it: the items tallied, over all blocks, are one after the other bytes of the input or true copies of 3 to 258 bytes from 1 to MAX_DIST back, pending matches over a slide included, and reach its end; which of the two, and which copy, follows from the looks as `Lazily` says; the items are cut into blocks where `ct_tally` says so and nowhere else, each of the kind chosen, stored only if its text is still in the window; and the bytes written are these blocks and read back to the input, whatever follows |
| GzipRoundTrip.InflatesTo | archive/gzip/inflate.c:914-955 | whatever deflate wrote, with at least three bytes after it, any outcome inflate can have is success with the input, stopping right before those bytes |
| GzipRoundTrip.Pack | archive/gzip/deflate.c:645-750 | all this of deflate set up for a level, with the settings of that level |
| GzipRoundTrip.RoundTrip | archive/gzip/deflate.c:645-750 | deflate at any level, then inflate over any window: every input comes back |
| UnpackTree.WalkFinds | archive/gzip/unpack.c:204-229 | for every complete tree the bit-by-bit walk ends, at a leaf of its level |
| UnpackTree.TableWalk | archive/gzip/unpack.c:140-173 | `prefix_len` gives for every stream the length the walk finds, or 0 if that is longer than the table's index |
| Unpack.OneLeaf | archive/gzip/unpack.c:204-229 | a stream starts with one leaf only |
| Unpack.PeekFits | archive/gzip/unpack.c:204-224 | though codes may have 25 bits, what is looked at is below the number of leaves, so the 16-bit `peek` loses nothing |
| Unpack.DecodeLoop | archive/gzip/unpack.c:197-229 | the loop gives back any literals whose codes, and that of the end, the bits are, never looks up a literal out of range, and succeeds on no other bits |
| UnpackFile.ReadTree | archive/gzip/unpack.c:92-138 | exactly when the tree is read, when there are too many levels or leaves, and when a literal is written past the array |
| UnpackFile.BigEndianBytes | archive/gzip/unpack.c:98-100 | the length is in the first four bytes, the first counting most |
| UnpackFile.HeaderNumbers | archive/gzip/unpack.c:102-108 | a tree has 1 to 25 levels, and 256 literals have room |
| UnpackFile.UnpackTwoLetters | archive/gzip/unpack.c:183-236 | the file 00 00 00 02 02 01 00 61 62 88 is unpacked to ab |
| UnpackFile.ReadTooMany | archive/gzip/unpack.c:109-136 | it is for 255 leaves counted on the first level, 1 on the second, and any 257 literals |
| UnpackFile.UnpackAll | archive/gzip/unpack.c:183-236 | a file whose tree is complete is unpacked to a text if and only if it is a packed file of that text; for other trees the model ends as undefined |
| CohPpp.Residue | net/coh_ppp.c:61-76 | from any state, the complement of the sequence appended low byte first leaves 0xf0b8 |
| CohPpp.OneByteChanged | net/coh_ppp.c:61-76 | two frames that differ in one byte never have the same check sequence |
| CohPpp.CheckValue | net/coh_ppp.c:61-76 | the check sequence of the nine digits is 0x906e |
| CohPpp.PppSend | net/coh_ppp.c:91-125 | the frame buffer is never overrun and holds flag, stuffed content with check sequence, flag |
| CohPpp.WireBytes | net/coh_ppp.c:91-125 | between its flags a frame has no flag and no byte below 0x20 |
| CohPpp.FrameFits | net/coh_ppp.c:91-125 | a frame of up to PACKLEN bytes of information never needs more than FRAMELEN |
| CohPpp.FrameNumbers | net/coh_ppp.c:53-54 | in numbers: 2048 bytes of information, 4114 of a frame |
| CohPpp.Receiver.SerialPump | net/coh_ppp.c:206-238 | the state and the frames handed on after one read are those of the byte-by-byte receiver |
| CohPpp.PumpSplit | net/coh_ppp.c:206-238 | however the line is split into reads, the same frames come out |
| CohPpp.FrameArrives | net/coh_ppp.c:91-238 | a frame sent arrives byte for byte from any state of the receiver |
| CohPpp.OnlyGood | net/coh_ppp.c:206-238 | whatever is on the line, nothing is handed on but what passes the check |
| CohPpp.DamagedDropped | net/coh_ppp.c:91-238 | a frame one byte of which has been changed, whichever and to whatever, is dropped, and nothing else with it |
| CohPpp.LineArrives | net/coh_ppp.c:91-238 | any frames sent one after the other arrive, all of them, in order, and nothing else |
| CohPpp.PacketsArrive | net/coh_ppp.c:91-238 | and `frame_recv` takes out of them the protocols and information fields that were sent, with or without address and control bytes to skip |
| CohPpp.BareUnwraps | net/coh_ppp.c:178-203 | without address and control bytes the protocol and the information field are the same, unless the protocol is 0xff03 |
| InetChan.Ichan.Take | net/inet_chan.c:263-340 | exactly one reply leaves the FIFO, all of it; a READ's payload is appended to what is held, any other's goes to its caller, cut to the buffer |
| InetChan.Ichan.Await | net/inet_chan.c:416-435 | it returns with the reply to its own request; a READ answered before it is held, nothing held is lost |
| InetChan.Ichan.Arm | net/inet_chan.c:613-640 | afterwards a READ is outstanding unless the hold buffer is full; the daemon has been asked for one READ of ICHAN_HOLD less what is held, or for nothing if one was armed or there is no room; what is held stays the same through the compaction |
| InetChan.Ichan.Recv | net/inet_chan.c:642-675 | the bytes handed out are the next of the stream; 0 only at end of data with nothing held, which a READ has just said; the READs asked for are exactly those waited for, but for one armed before, and one for the room left; afterwards a READ is armed again, or the buffer is full |
| InetChan.Ichan.Write | net/inet_chan.c:549-574 | the daemon is asked for one WRITE of these bytes, and the result is the status of its reply to this very request, in whatever order the replies come |
| InetChan.Ichan.Ioctl | net/inet_chan.c:445-465 | the same for an ioctl: its code, the length, and the data if there are any |
| InetChan.Ichan.IoctlGet | net/inet_chan.c:476-511 | nothing is sent but the code, and the payload of the answer comes back as far as the buffer goes |
| InetChan.Ichan.IoctlRw | net/inet_chan.c:527-547 | both: the data are sent and the answer comes back |
| InetChan.Session | net/inet_chan.c:269-675 | for every sequence of calls and every order of replies: what the calls of `ichan_recv` hand out, with what is held at the end, are the bytes of all READs in order; at most ICHAN_HOLD are held, the FIFO stands between two replies, at most one READ is outstanding; and besides READs the daemon has been asked for exactly what the calls say, in order |
| Inetd.Switchboard.OpenServ | net/inetd.c:521-571 | call by call: every service without socket and owner gets a socket, bound to its port and, for a stream service, listening, or is refused one and the descriptor closed again; no other call is made and nothing else changes |
| InetdSteps.RefusedCount | net/inetd.c:521-571 | as many services are left without socket and owner as the kernel refused `socket`, `bind` or `listen`: none for another reason |
| Inetd.Switchboard.Reaped | net/inetd.c:649-668 | the child is told apart as owner or relay; an owner's service, and no other, is bound again; a relay leaves the relays |
| Inetd.Switchboard.CollectIdle | net/inetd.c:1031-1036 | children are collected one by one, each relay taken off `nkids`, until none is outstanding or a wait finds none |
| Inetd.Switchboard.Rebind | net/inetd.c:723-743 | the services are opened once; one that has a socket then owes no bind, one that nobody answers for one less; so every turn makes the binds owed fewer, whether or not the port comes back |
| Inetd.Switchboard.HandOver | net/inetd.c:1063-1104 | one fork; the child gets the socket and the service its owner, or the datagram is dropped and nothing changes |
| Inetd.Switchboard.Answer | net/inetd.c:1105-1208 | one accept; a connection goes to one new child, which is counted, or is closed; a socket that is none is closed and owed REBINDMAX binds; any other failure changes nothing |
| Inetd.Switchboard.Serve | net/inetd.c:1046-1208 | of the services found ready, in order, the first is served, those aside where accept fails, after each of which the children that have finished are collected |
| Inetd.Switchboard.NothingToPoll | net/inetd.c:919-968 | with no socket to poll a child is waited for, and `nkids` misses it exactly if it is a relay; else what is owed is bound again; else it is over |
| Inetd.Switchboard.Turn | net/inetd.c:885-1208 | call by call, which of its arms a turn takes and what that does (`InetdSteps.Turns`); every turn keeps the invariant, and adds REBINDMAX owed binds at most per listening socket lost; `nkids` misses a relay only in a turn below the limit with no socket to poll and a child that has one; the loop ends only when polling has failed five times running or nothing is left that could give a socket back |
| Inetd.Switchboard.Run | net/inetd.c:885-1208 | in every run: no service has both a socket and a child that owns it, every service's socket is bound to its port, the relays not collected are at most `nkids`, which is at most `opt_m`, every open descriptor is a service's, and the turns spent on binding again are at most REBINDMAX for each socket lost; `nkids` is the number of relays if and only if none collected has been missed; and the calls made are those of so many turns |
| Inetd.Daemon | net/inetd.c:880-1208 | the same from the start: the services are opened, and if none can be the program gives up |
| Inetd.MissedRun | net/inetd.c:919-935 | a state from which the next turn leaves `nkids` at 1 with no relay |

## Findings

- **A table too large in `huft_build`** (`archive/gzip/inflate.c:388-399`). A sub-table's size is found by
  `while (++j < z)` even when j starts at z or above. A sub-table whose shortest code is longer than l
  bits then gets more than l bits, but is linked at one entry where many lead to it. The exact condition on
  the lengths is `HuftSound.Sound` (`Hufts.FindsAllIffSound`), and for a single code of any set
  `HuftExact.FindsIffClear`; lengths 1, 2, 3, 3 with m = 1 fail (`Hufts.UnsoundExample`,
  `Hufts.ExampleMisses`). No call in gzip fails: `Hufts.TwoLevelsSound`, `Hufts.FewCodesSound`.
- **Lengths that are all zero** (`archive/gzip/inflate.c:287-292`, `318-322`). The comment before the
  body promises 2 for them; the code returns 0 and no table. The model follows the code.
- **A stored block that is not the shortest** (`archive/gzip/trees.c:899-957`). The test
  `stored_len+4 <= opt_lenb` leaves out the three bits of the kind and the filling after them, and sizes are
  rounded to bytes before the block's place is known. `TreesChoice.ShortestIff` gives the exact condition under
  which the block written is the shortest, `TreesChoice.LossBound` the bound on the loss, and
  `TreesChoice.StoredLoses` an input: 0, 1, ..., 165 is stored in 171 bytes instead of 170.
- **One literal too many in `unpack`** (`archive/gzip/unpack.c:113-136`). The test `n > LITERALS`
  runs before `leaves[max_len]++`, so 256 counted leaves pass and 257 literals are read into 256 places.
  `UnpackFile.ReadTree` says exactly when: 256 leaves counted and the file long enough;
  `UnpackFile.ReadTooMany` is such a file.
- **The bits above the valid ones in `unpack`** (`archive/gzip/unpack.c:62-66`) are not always zero as
  the comment has it, for `skip_bits` leaves them; the mask in `look_bits` is what makes this harmless.
- **Reading past the window in `longest_match`** (`archive/gzip/deflate.c:354-487`). At the end of the
  input the comparison may run up to 258 bytes past the window of 2 * WSIZE bytes, which is all that
  `archive/gzip/gzip.c:416` allocates; the result is cut to `lookahead`. It does if and only if the best length
  so far reaches the end already, or a string looked at agrees with the current one in all bytes up to the
  end, at most MAX_MATCH of them (`DeflateMatch.LongestMatch`, predicate `PastEnd`);
  `DeflateMatch.PastEndRun` is a state in which it does, `DeflateMatch.BeyondOnlyAtEnd` bounds what is left then.
  The model's window has the place, with any content.
- **Forced codes** (`archive/gzip/trees.c:650-661`). The comment says the forced code is 0 or 1; with only
  symbol 1 in use it is 2. It has no extra bits either, so the sizes stay exact.
- **`nkids` may count too many** (`net/inetd.c:931-935`). With nothing to poll the result of `reap()` is
  ignored, so a relay collected there stays counted. `nkids` is right exactly if none has been missed since it
  was last set to zero (`Inetd.Switchboard.Run`, `missed`); `Inetd.MissedRun` is a run that misses one. Hence
  the bound on the relays is an inequality.
- **Overlapping `memcpy`** (`archive/gzip/inflate.c:565-572`, `net/inet_chan.c:320`, `629`). The test
  before the first says that it avoids overlap. `InflateWindow.OverlapIff` gives the exact condition under
  which it does not, `InflateWindow.OverlapExample` an instance and what a `memcpy` that does not copy upwards
  makes of it. The compaction in the channel overlaps when more is held than lies before it. The model copies
  upwards in both places, which is right.

## Left out

- Hufts.HuftBuild: allocation failure (result 3) and the memory counted in `hufts`; up to 288 lengths of at most 15 bits, as gzip calls it.
- InflateLookup.LookUp: table entries the code never writes, or writes from values it never set, are `Unset`; a look-up that meets one gives `Undefined`, which only happens where the format has no symbol.
- LzhufEncode.Encode: that the tokens are the fewest is not claimed, and is not so. Strings that start in the blanks before the text are only followed as long as the one furthest back of the F entered at first is within reach (`LzhufWindow.Due`): of equal strings the trees keep the one entered last, and those are entered backwards.
- LzhufDecode.Decode: the output may pass the size asked for by the rest of the last match, as the code's does; a caller that cuts it is not part of this model.
- LzhufBits.BitIn.GetNBits: for 1 to 6 bits, as `DecodePosition` calls it; the table of masks is irregular above.
- TreesFlush.FlushBlock: that the kind chosen is the shortest is not so and has its own condition, `TreesChoice.ShortestIff`. `compressed_len` and the sizes returned wrap at 2^32 bits; sizes of one block do not reach that. `set_file_type`, the seekable-output variant of a single stored block, and the DEBUG, FORCE_METHOD and EOF_OK switches are left out.
- TreesTree.BuildTree: the frequencies sum up to less than 2^16 - 2, which the buffers guarantee. Among nodes of equal frequency and depth, which come first is the heap's business.
- TreesCodes.GenBitlen: when lengths had to be cut, that they are the cheapest within the limit is not claimed; the source's heuristic does not promise it.
- DeflateMatch.LongestMatch: the string at 0 is never looked at. The ASMV and UNALIGNED_OK versions are left out.
- Deflate.DeflateAll: the lazy version only, not the one for NO_LAZY; level 1 to 9, read sizes by an oracle.
- GzipRoundTrip.RoundTrip: with at least three bytes after the blocks, for near the end of a file NEEDBITS fails for want of look-ahead; the gzip format always has eight. Headers, names, time stamps and the check sum are left out.
- UnpackFile.UnpackAll: a tree that is not complete, no levels at all, and 257 literals are `Undefined`, neither success nor failure. The length of the text is compared modulo 2^32.
- CohPpp.LineArrives: the link control replies, raw mode, the relay to the internet channel and lost or damaged bytes, apart from `CohPpp.OneByteChanged`.
- InetChan.Session: a daemon that answers each request once, and a READ with at most its count; that a request and its payload go out in one write; interrupted calls, end of file on the FIFO, `ichan_cancel`, `ichan_post_read`, `ichan_post_ioctl` and `ichan_reply_op`, and the table of error numbers in `ichan_fail` are left out.
- Inetd.Switchboard.Run: no reload, and no closing of the sockets at the end; the conf file, the relay's pipes, the internal services, the messages, the pauses and signals are left out. A poll that fails or times out, an accept that fails and a fork that fails are the kernel's choice.
- LZHUF's progress indicator, its text mode, the main program, the LArc decoder and the headers of `archive/lharc/lharc.c`.
- Sequences of gzip members, the other methods (`lzw`, `unlzh`) and the command line.
- `archive/unzip`, `archive/zoo`, `net/coh_slip.c`, `net/talkserv.c`, `net/sntp.c` and the tools under `hostbuild`: mostly system calls and text handling.
