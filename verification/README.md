# Proofs about the compression core and the store of the feed

The feed builds 7-Zip's C core (`p7zip/src/C`) and ships two small programs of its own, the lease
guardian and the journal store (`homepublish/src`). This project models the parts of them whose
correctness cannot be seen from one function, and proves it:

- **LZMA** (`RangeCoder` to `LzmaRoundTrip`, `LzmaFormat`, `LzmaLayout`, `LzmaTables`). The encoder keeps a 33-bit `low`, a cached byte and a run
  of pending 0xFF bytes; the decoder keeps `range` and `code` and normalises lazily. Both are related to
  one exact interval of big numbers. On top of it come the bit trees, the tokens, the twelve-state
  machine, and a decoder that may be stopped and resumed at every byte of input and output. The chain
  ends in `LzmaRoundTrip.RoundTrip`: what went through both is what went in. What the format is, bit by bit, is
  told apart from the functions that code it, in `LzmaFormat`; `LzmaTables` shows that the encoder's separate
  tables and the decoder's one array come to the same bytes.
- **Match finder** (`LzRank`, `LzTree`, `LzKept`, `LzWalk`, `LzSearch`, `LzHash`, `LzReports`, `LzInsert`, `LzComplete`, `LzFind`). Search
  trees in a cyclic array, relinked in place, searched without comparing the prefix that the tree implies, with
  32-bit positions that are renormalised while the window moves. What is found are genuine repeats, and nothing is
  missed (`LzComplete`).
- **Huffman builder** (`Sort`, `Huffman` to `HuffEnc`). Bucket and heap sort, two queues and all parents'
  numbers in one array, depths, a clamp on the length, canonical codes: `HuffEnc.Generate` yields a
  complete prefix code, and the best there is exactly if the clamp is not needed.
- **x86 filter** (`Bra86`, `Bra86Calls`). The decoder repeats the encoder's decisions on bytes that were changed; calls of
  one address become the same bytes.
- **CRC-32 and CRC-64** (`Registers`, `Words`, `LongWords`, `Crc32`, `CrcUpdate`, `Crc64`, `CrcDivision`, `CrcValues`). The sliced forms,
  in both byte orders, against the polynomial taken bit by bit (section 8 of RFC 1952). The theory is
  that of a register of any width, and for every polynomial; `CrcValues` names the two, and what comes out is the
  remainder of a long division.
- **Thread ring** (`MtCoder`, `MtCoderEnds`, `MtCoderWhole`), **journal store** (`ProductStore`) and **guardian** (`Guardian`,
  `GuardianLive`, `GuardianLoop`) as state machines in which any step may fail, and any process may be killed, at any
  moment: what never happens, and what does happen as long as nothing fails.

Imperative code is modelled by classes and methods over arrays, each proved against functions on
values; the theorems are then about those functions and about runs. Machine integers are unbounded in the
model where the proofs show that they cannot overflow, and wrapped explicitly where the source lets them
(`processedPos`, the decoder's `code`, branch targets, positions of the match finder).

## Model

| member | source | states |
|---|---|---|
| `LzmaRoundTrip.RoundTrip` | p7zip/src/C/LzmaDec.c:1077-1100 | Whatever data is encoded, with whatever valid choice of tokens, every lc/lp/pb and with or without end marker, the one-call decoder gives back exactly that data |
| `LzmaRoundTrip.LzmaDecode` | p7zip/src/C/LzmaDec.c:1077-1100 | For every destLen and finish mode and every stream, whole, longer or cut, of a text: the text or its prefix, the status, the consumption and the error that fit; what a stream of a text is, bit by bit, is stated in `LzmaFormat` and `LzmaTables` |
| `LzmaRoundTrip.OneCall` | p7zip/src/C/LzmaDec.c:1086-1099 | The whole contract of the one-call decoder, of one call on a freshly initialised decoder whose dictionary is the destination |
| `LzmaRoundTrip.DecodedInOneCall` | p7zip/src/C/LzmaDec.c:1092-1098 | Whatever a first call of the resumable decoder returned, the one-call contract holds of it, on whole and on cut streams and in both finish modes |
| `LzmaResume.TextIsRight` | p7zip/src/C/LzmaDec.c:803-936 | After any number of calls with any buffer sizes, on any prefix of a valid stream, the text written is a prefix of the encoded text (without end marker it may run past its end, as the format allows) |
| `LzmaResume.NoFalseAlarm` | p7zip/src/C/LzmaDec.c:803-936 | A valid stream, whole or cut, is refused in one case only: LZMA_FINISH_END with room for less than the text; and the text written is a prefix of the encoded text even then. (For a stream without end marker the room must not exceed the text.) |
| `LzmaResume.WholeStreamGiven` | p7zip/src/C/LzmaDec.h:86-120 | Given the whole stream, in whatever pieces before: all the text that there is room for is written and no more input is asked for; with room for all of it the status is maybe-finished, at the last byte, if there is no end marker, and finished-with-mark, with exactly the stream consumed, or not-finished without LZMA_FINISH_END, if there is one |
| `LzmaResume.CutStream` | p7zip/src/C/LzmaDec.c:866-907 | On a valid stream that is cut off anywhere, a call with LZMA_FINISH_END for all the text (or more, if there is an end marker) never fails: it takes all its input, writes a prefix of the text and asks for more |
| `LzmaResume.BufferIsRight` | p7zip/src/C/LzmaDec.c:938-976 | On a valid stream, whole or cut, what comes out of the wrapping dictionary is the next piece of the text; a refusal means LZMA_FINISH_END inside the text; given the whole stream, as much as was asked for or the rest of the text comes out |
| `LzmaResume.WhereItStands` | p7zip/src/C/LzmaDec.c:838-907 | On a valid stream: the kept end mark, the end of the text and the call for more input are met exactly where the stream says; in particular whoever has the whole stream is never asked for more |
| `LzmaResume.ValidRead` | p7zip/src/C/LzmaDec.c:140-513 | Reading a valid stream, with anything after it, token by token gives the encoded tokens and stops at its last byte with code 0 |
| `LzmaResume.ValidAhead` | p7zip/src/C/LzmaDec.c:578-766 | Before its end a valid stream always holds the next symbol |
| `LzmaResume.ValidFault` | p7zip/src/C/LzmaDec.c:438-449 | A fault met on a valid stream is either the refused early stop or lies past the end of the text |
| `LzmaResume.ValidMark` | p7zip/src/C/LzmaDec.c:425-430 | An end mark met on a valid stream is its own: all text written, code 0, all bytes taken |
| `LzmaResume.ValidEnd` | p7zip/src/C/LzmaDec.c:838-844 | Without end marker the decoder stands after the last token with code 0 at the last byte, which is what maybe-finished tests |
| `LzmaResume.ValidMarkAhead` | p7zip/src/C/LzmaDec.c:840-844 | While the end marker is still ahead, code is not 0, so the stream is not taken for finished |
| `LzmaResume.KeptHasSymbol` | p7zip/src/C/LzmaDec.c:863-906 | When the decoder asks for more input, what it keeps in tempBuf does not hold a whole symbol |
| `LzmaResume.ReadParses` | p7zip/src/C/LzmaDec.c:140-513 | Tokens read are applicable one after the other: no distance reaches before the text |
| `LzmaResume.AfterExtends` | p7zip/src/C/LzmaDec.c:454-493 | Every token lengthens the text and changes nothing before it |
| `RangeCoder.BoundIsProper` | p7zip/src/C/LzmaEnc.c:602-623 | With a probability in [31, 2017] both parts of a split range are at least 2^16 |
| `RangeCoder.NarrowIsNormal` | p7zip/src/C/LzmaEnc.c:602-623 | One byte shift suffices to bring the range back above 2^24 after a bit |
| `RangeCoder.HalveIsNormal` | p7zip/src/C/LzmaEnc.c:587-600 | One byte shift restores the range after a direct bit |
| `RangeCoder.Adapt` | p7zip/src/C/LzmaDec.c:22-24 | Adaptation keeps a probability in [31, 2017] |
| `RangeCoder.ContainsBeforeBit` | p7zip/src/C/LzmaEnc.c:602-623 | Whatever follows a coded bit stays inside the interval that was there before it |
| `RangeCoder.ContainsBeforeDirect` | p7zip/src/C/LzmaEnc.c:587-600 | What follows a direct bit stays inside the interval that was there before it |
| `RangeCoder.ReadBitInStep` | p7zip/src/C/LzmaDec.c:20-24 | On bytes inside the encoder's interval the lazily normalising decoder reads the encoder's bit and stays in step with the eagerly normalising encoder |
| `RangeCoder.ReadDirectInStep` | p7zip/src/C/LzmaDec.c:396-404 | The direct bit found by the sign of code - range is read as coded, and decoder and encoder stay in step |
| `RangeCoder.StartInStep` | p7zip/src/C/LzmaDec.c:818-832 | The five header bytes put the decoder in step with the first interval |
| `RangeCoder.FinishedExactly` | p7zip/src/C/LzmaEnc.c:580-585 | After the flushed bytes the decoder has code 0 and stands at the last byte |
| `RangeEncoder.RangeEnc.constructor` | p7zip/src/C/LzmaEnc.c:533-545 | The first interval, nothing written |
| `RangeEncoder.RangeEnc.ShiftLow` | p7zip/src/C/LzmaEnc.c:559-578 | Bytes written, cache, pending 0xFF run and low together denote the exact low end times 256; no carry overflows the cached byte; the written bytes never change |
| `RangeEncoder.RangeEnc.WritePending` | p7zip/src/C/LzmaEnc.c:561-574 | Cache and pending bytes are written with the carry added as one number |
| `RangeEncoder.RangeEnc.EncodeBit` | p7zip/src/C/LzmaEnc.c:602-623 | The exact interval is narrowed by the bit and renormalised; low stays below 2^33 |
| `RangeEncoder.RangeEnc.EncodeDirectBits` | p7zip/src/C/LzmaEnc.c:587-600 | The exact interval is halved once for each bit, most significant first |
| `RangeEncoder.RangeEnc.FlushData` | p7zip/src/C/LzmaEnc.c:580-585 | The bytes written denote exactly the low end, one byte for each shift and five more |
| `RangeEncoder.CarryIntoPending` | p7zip/src/C/LzmaEnc.c:566-574 | A carry turns the pending run of 0xFF into zeros and adds one to the cached byte |
| `RangeEncoder.LowEmpties` | p7zip/src/C/LzmaEnc.c:559-578 | Each flush step empties one more byte of low |
| `LzmaModel.TreeRoundTrip` | p7zip/src/C/LzmaEnc.c:716-728 | A symbol coded in a bit tree is read back, decoder and encoder in the same state afterwards |
| `LzmaModel.ReverseRoundTrip` | p7zip/src/C/LzmaEnc.c:730-741 | A reverse bit tree reads back what was coded, decoder and encoder in the same state afterwards |
| `LzmaModel.DirectRoundTrip` | p7zip/src/C/LzmaEnc.c:587-600 | Direct bits read back as coded, both sides in the same state |
| `LzmaModel.MatchedRoundTrip` | p7zip/src/C/LzmaEnc.c:636-648 | A literal coded beside a match byte reads back, both sides in the same state |
| `LzmaModel.BitRoundTrip` | p7zip/src/C/LzmaDec.c:20-28 | One modelled bit reads back, both sides in the same state |
| `LzmaModel.RunConcat` | p7zip/src/C/LzmaEnc.c:1815-1958 | Coding two sequences of steps is coding their concatenation |
| `LzmaModel.ContainsBefore` | p7zip/src/C/LzmaEnc.c:1815-1958 | The bytes of a longer stream lie inside the interval of every prefix of its steps |
| `LzmaTokens.PosSlotBrackets` | p7zip/src/C/LzmaEnc.c:1907-1919 | A distance lies in the bracket that its slot and the footer bits span |
| `LzmaTokens.PosSlotBound` | p7zip/src/C/LzmaEnc.c:129-150 | k-bit distances have slots below 2k |
| `LzmaTokens.SpecBase` | p7zip/src/C/LzmaEnc.c:1913-1914 | The probabilities of the short footers fit their table of 114 |
| `LzmaTokenRoundTrip.LenRoundTrip` | p7zip/src/C/LzmaEnc.c:783-804 | Length coding round trip through the low, middle and high trees |
| `LzmaTokenRoundTrip.DistanceRoundTrip` | p7zip/src/C/LzmaEnc.c:1899-1921 | Distance coding round trip: slot, footer in model or direct and aligned bits |
| `LzmaTokenRoundTrip.LiteralRoundTrip` | p7zip/src/C/LzmaEnc.c:1845-1859 | Literal round trip, plain or beside the match byte |
| `LzmaTokenRoundTrip.RepTokenRoundTrip` | p7zip/src/C/LzmaEnc.c:1864-1895 | Round trip of short reps and the four reps |
| `LzmaTokenRoundTrip.MatchTokenRoundTrip` | p7zip/src/C/LzmaEnc.c:1897-1926 | Round trip of matches |
| `LzmaTokenRoundTrip.TokenRoundTrip` | p7zip/src/C/LzmaEnc.c:1815-1958 | Round trip of every token in every context |
| `LzmaStream.NextIsValid` | p7zip/src/C/LzmaEnc.c:495-498 | Every applicable token keeps state and reps valid |
| `LzmaStream.ContextIsValid` | p7zip/src/C/LzmaEnc.c:1799-1830 | Every reachable context addresses probabilities inside the table |
| `LzmaStream.LiteralBaseInTable` | p7zip/src/C/LzmaDec.c:177-179 | The literal coder chosen by lc and lp lies inside the table |
| `LzmaStream.TokenInTable` | p7zip/src/C/LzmaDec.c:69-118 | No token touches a probability outside the table of 1846 + 768 * 2^(lc+lp) |
| `LzmaStream.TokensRoundTrip` | p7zip/src/C/LzmaEnc.c:1815-1958 | Any applicable sequence of tokens is read back, both sides in step after each |
| `LzmaStream.StreamRoundTrip` | p7zip/src/C/LzmaEnc.c:1688-1697 | A whole stream with or without end marker: the same tokens and text, all bytes consumed, code 0 |
| `LzmaStream.ParsesSnoc` | p7zip/src/C/LzmaEnc.c:1815-1958 | A sequence of tokens grows by one applicable token |
| `LzmaFormat.StateOfHistory` | p7zip/src/C/LzmaEnc.c:495-498 | At every place of every parse the state says what the last tokens were: 0 if there were only literals, or three or more of them last; 7 after a match, 8 after a rep, 9 after a short rep that followed a literal; 10 after a match and 11 after a rep of either kind that followed a copy; and a literal or two after that count these down |
| `LzmaFormat.StateBelow` | p7zip/src/C/LzmaDec.c:87-88 | The state is below 7 exactly if the last token was a literal, or there was none |
| `LzmaFormat.LatestFirst` | p7zip/src/C/LzmaDec.c:261-290 | The four distances are a queue: the one used goes to the front, from its own place or, pushing out the oldest, from outside |
| `LzmaFormat.WhatIsAdded` | p7zip/src/C/LzmaDec.c:454-493 | A token adds just so many bytes, each of them the one at its distance before it, those that it has just added included |
| `LzmaFormat.BitsOfToken` | p7zip/src/C/LzmaDec.c:162-424 | Whatever the context, the same bits stand for a token: 0 and eight bits for a literal, 1100 for a short rep, 1101, 1110, 11110 and 11111 for the reps, 10 for a match; then the length, and the distance by the number of its highest digit, the digit below it and what follows, the last four or all of it lowest first |
| `LzmaFormat.BitsOfStream` | p7zip/src/C/LzmaEnc.c:1799-1958 | The bits of a stream are those of its tokens, one after another, and at its end those of the match of two bytes at distance 2^32 - 1 |
| `LzmaFormat.SlotParts` | p7zip/src/C/LzmaEnc.c:1904-1912 | The slot of a distance is twice the number of its highest binary digit, plus the digit below it; what is left are the digits below that |
| `LzmaFormat.EmptyStream` | p7zip/src/C/LzmaEnc.c:1688-1696 | The stream of no tokens, without end mark, is five zero bytes, and no other |
| `LzmaEncoder.Flush` | p7zip/src/C/LzmaEnc.c:1688-1696 | The end mark, if wanted, and the bytes still held back complete the stream of the tokens coded |
| `LzmaFormat.BitsShare` | p7zip/src/C/LzmaDec.c:21-23 | 0 and 1 divide the range between them, 0 below 1, and 0 has its probability's share in units of 1/2048, up to rounding |
| `LzmaFormat.HalvesShare` | p7zip/src/C/LzmaDec.c:396-404 | A direct bit has two equal halves, 0 below 1 |
| `LzmaFormat.AdaptsTowards` | p7zip/src/C/LzmaDec.c:22-23 | A probability goes 1/32 of the way, rounded down, to the value that has come up |
| `LzmaLayout.Apart` | p7zip/src/C/LzmaDec.c:103-117 | No two different decisions, in whatever contexts, share a place in the decoder's array |
| `LzmaLayout.InArray` | p7zip/src/C/LzmaDec.c:116-123 | Every decision has a place in an array of 1846 + 768 * 2^(lc+lp) |
| `LzmaLayout.CodersApart` | p7zip/src/C/LzmaDec.c:175-177 | Two literals use one coder only if the lowest lp bits of their positions and the highest lc bits of the bytes before them are the same |
| `LzmaTables.TokenPlaced` | p7zip/src/C/LzmaEnc.c:1840-1926 | The encoder's steps, each under a probability in a field of its own, are the decoder's, each at its address |
| `LzmaTables.ExpectedIsCopied` | p7zip/src/C/LzmaDec.c:199 | The byte that a literal after a copy is coded beside is the one that a short rep would have brought |
| `LzmaTables.TakeHolds` | p7zip/src/C/LzmaEnc.c:364-376 | A step with a table of its own for every kind of decision changes what the same step changes in the one array, and nothing else |
| `LzmaTables.SeparateTables` | p7zip/src/C/LzmaEnc.c:364-376 | A coder with separate tables, as the encoder has them, writes just the streams of a coder with the one array of the decoder |
| `PosSlots.FastPosInit` | p7zip/src/C/LzmaEnc.c:129-150 | The table of slots filled in place holds the slot of every distance below its size |
| `PosSlots.GetPosSlot` | p7zip/src/C/LzmaEnc.c:159-170 | The table lookup with shifts gives the slot of every distance it is used for |
| `PosSlots.SlotOfBracket` | p7zip/src/C/LzmaEnc.c:129-150 | The slot of a distance is the only one whose bracket holds it |
| `PosSlots.PosSlotShift` | p7zip/src/C/LzmaEnc.c:159-160 | Shifting a distance by k bits lowers its slot by 2k |
| `LzmaEncoder.TablesAgree` | p7zip/src/C/LzmaEnc.c:495-498 | The encoder's state tables are the decoder's arithmetic |
| `LzmaEncoder.LzmaEnc.EncodeBit` | p7zip/src/C/LzmaEnc.c:602-623 | One modelled bit: the coder state moves by that step |
| `LzmaEncoder.LzmaEnc.LitEncode` | p7zip/src/C/LzmaEnc.c:625-634 | A literal through the shifted-symbol loop is the bit-tree coding |
| `LzmaEncoder.LzmaEnc.LitEncodeMatched` | p7zip/src/C/LzmaEnc.c:636-648 | The offs/matchByte loop is the matched bit-tree coding |
| `LzmaEncoder.LzmaEnc.TreeEncode` | p7zip/src/C/LzmaEnc.c:716-728 | The bit-tree loop emits the tree's steps |
| `LzmaEncoder.LzmaEnc.ReverseEncode` | p7zip/src/C/LzmaEnc.c:730-741 | The reverse loop emits the reverse tree's steps |
| `LzmaEncoder.LzmaEnc.DirectEncode` | p7zip/src/C/LzmaEnc.c:587-600 | Direct bits emit the halving steps |
| `LzmaEncoder.LzmaEnc.LenEncode` | p7zip/src/C/LzmaEnc.c:783-804 | A length emits its choice bits and tree |
| `LzmaEncoder.LzmaEnc.DistanceEncode` | p7zip/src/C/LzmaEnc.c:1899-1921 | A distance emits slot and footer |
| `LzmaEncoder.LzmaEnc.FooterEncode` | p7zip/src/C/LzmaEnc.c:1907-1920 | The footer is coded in model bits, or direct and aligned bits |
| `LzmaEncoder.LzmaEnc.RepChoose` | p7zip/src/C/LzmaEnc.c:1866-1888 | The rep choice bits are emitted and the four reps rotate to front |
| `LzmaEncoder.LzmaEnc.RepRotate` | p7zip/src/C/LzmaEnc.c:1874-1887 | Reps 1 to 3: which bits, and the rotation |
| `LzmaEncoder.LzmaEnc.WriteEndMarker` | p7zip/src/C/LzmaEnc.c:1662-1673 | The end marker is the match with distance 2^32 - 1 and length 2 |
| `LzmaEncoder.LzmaEnc.CodeOne` | p7zip/src/C/LzmaEnc.c:1840-1930 | One iteration emits the steps of its token and moves state, reps and text as that token does |
| `LzmaEncoder.LzmaEnc.constructor` | p7zip/src/C/LzmaEnc.c:2013-2070 | Every probability starts at 1024, state and reps at 0 |
| `LzmaEncoder.Encode` | p7zip/src/C/LzmaEnc.c:1799-1958 | For every data and every valid parse the output is the stream of just the tokens that the parse stands for, and their text is the data |
| `LzmaLookahead.TokenAlike` | p7zip/src/C/LzmaDec.c:578-766 | Reading a token depends only on range, code, the probabilities and the bytes ahead |
| `LzmaLookahead.DummyIsExact` | p7zip/src/C/LzmaDec.c:578-766 | Looking ahead without adapting probabilities sees the same token and needs the same bytes as decoding: no probability is used twice within one symbol |
| `LzmaLookahead.SymbolInLongerInput` | p7zip/src/C/LzmaDec.c:860-892 | A symbol that fits a buffer is the same symbol inside any longer input |
| `LzmaLookahead.StuckNeedsMore` | p7zip/src/C/LzmaDec.c:867-875 | A symbol that did not fit ends behind the bytes that were there |
| `LzmaInputBound.RequiredInput` | p7zip/src/C/LzmaDec.h:43-46 | With probabilities in [31, 2017], twenty bytes are enough for any symbol and its final normalisation |
| `LzmaInputBound.TokenKeepsGood` | p7zip/src/C/LzmaDec.c:20-28 | Reading a token keeps every probability in [31, 2017] |
| `LzmaFollow.FollowsStep` | p7zip/src/C/LzmaDec.c:140-513 | A decoder stopped between symbols and moved by one symbol stands where reading the whole input at once stands |
| `LzmaFollow.FollowsInLongerInput` | p7zip/src/C/LzmaDec.c:803-936 | More input does not change where a decoder stands |
| `LzmaFollow.FollowsInShorterInput` | p7zip/src/C/LzmaDec.c:803-936 | Dropping input that was not taken does not change where the decoder stands |
| `LzmaFollow.FaultInLongerInput` | p7zip/src/C/LzmaDec.c:803-936 | A fault stays a fault when more input arrives |
| `LzmaFollow.MarkInLongerInput` | p7zip/src/C/LzmaDec.c:803-936 | An end mark stays an end mark when more input arrives |
| `LzmaFollow.TokensKeepGood` | p7zip/src/C/LzmaDec.c:140-513 | Any number of tokens keeps the probabilities good |
| `LzmaDummy.CheckTree` | p7zip/src/C/LzmaDec.c:56-66 | The checking tree walk accepts exactly when the input holds the bits, and then stands where the decoder stands |
| `LzmaDummy.CheckMatched` | p7zip/src/C/LzmaDec.c:612-628 | The checking walk over a matched literal accepts exactly when the bits are there |
| `LzmaDummy.CheckLen` | p7zip/src/C/LzmaDec.c:688-718 | The checking walk over a length accepts exactly when the bits are there |
| `LzmaDummy.CheckDistance` | p7zip/src/C/LzmaDec.c:720-762 | The checking walk over a distance accepts exactly when the bits are there |
| `LzmaDummy.CheckRep` | p7zip/src/C/LzmaDec.c:643-686 | The checking walk over the rep choices accepts exactly when the bits are there |
| `LzmaDecoder.LzmaDec.BitDecode` | p7zip/src/C/LzmaDec.c:20-28 | One bit is read as the reading function says, the probability adapted |
| `LzmaDecoder.LzmaDec.TreeDecode` | p7zip/src/C/LzmaDec.c:30-47 | The tree loop reads the tree |
| `LzmaDecoder.LzmaDec.ReverseDecode` | p7zip/src/C/LzmaDec.c:376-390 | The reverse loop adds up the footer bits |
| `LzmaDecoder.LzmaDec.DirectDecode` | p7zip/src/C/LzmaDec.c:392-413 | The mask trick reads direct bits |
| `LzmaDecoder.LzmaDec.MatchedDecode` | p7zip/src/C/LzmaDec.c:198-224 | The offs loop reads a matched literal |
| `LzmaDecoder.LzmaDec.LenDecode` | p7zip/src/C/LzmaDec.c:293-362 | The limit/offset selection reads a length |
| `LzmaDecoder.LzmaDec.DistanceDecode` | p7zip/src/C/LzmaDec.c:364-424 | Slot, footer and alignment give the distance |
| `LzmaDecoder.LzmaDec.RepDecode` | p7zip/src/C/LzmaDec.c:245-288 | The rep bits choose and rotate the reps (kept one larger than the encoder's) |
| `LzmaDecoder.LzmaDec.CopyBlock` | p7zip/src/C/LzmaDec.c:454-493 | Overlapping copy inside the circular dictionary is the match copied to the text |
| `LzmaDecoder.LzmaDec.LiteralDecode` | p7zip/src/C/LzmaDec.c:170-229 | A literal is read in the context of the last byte |
| `LzmaDecoder.LzmaDec.DecodeRep` | p7zip/src/C/LzmaDec.c:240-291 | Rep tokens are refused exactly at the empty text, and written up to the limit otherwise |
| `LzmaDecoder.LzmaDec.DecodeMatch` | p7zip/src/C/LzmaDec.c:364-494 | Matches are refused exactly when the distance reaches before the text or the dictionary; the end mark is recognised |
| `LzmaDecoder.LzmaDec.DecodeOne` | p7zip/src/C/LzmaDec.c:162-496 | One pass of the loop reads and performs one token, leaving in remainLen what did not fit below the limit |
| `LzmaDecoder.LzmaDec.DecodeReal` | p7zip/src/C/LzmaDec.c:140-513 | The loop follows the stream symbol by symbol until the limit, the end of the buffer, a fault or the mark |
| `LzmaDecoder.LzmaDec.WriteRem` | p7zip/src/C/LzmaDec.c:515-541 | A cut match is continued as if it had never been cut |
| `LzmaDecoder.LzmaDec.DecodeReal2` | p7zip/src/C/LzmaDec.c:543-568 | The size check is armed in time and the end mark kept for the next call |
| `LzmaDecoder.LzmaDec.TryDummy` | p7zip/src/C/LzmaDec.c:578-766 | Says whether the input holds the next symbol, and of which kind it is |
| `LzmaDecoder.LzmaDec.constructor` | p7zip/src/C/LzmaDec.c:1045-1075 | A fresh decoder has taken and written nothing |
| `LzmaDecoder.LzmaDec.Init` | p7zip/src/C/LzmaDec.c:769-789 | A new stream with nothing taken and nothing written, at position 0 of the dictionary |
| `LzmaDecoder.LzmaDec.InitStateReal` | p7zip/src/C/LzmaDec.c:791-801 | Probabilities 1024, reps 1, state 0 |
| `LzmaDecoder.LzmaDec.Flush` | p7zip/src/C/LzmaDec.c:816-835 | The five header bytes are collected over calls and start the code; a first byte other than 0 is refused |
| `LzmaDecoder.LzmaDec.Symbols` | p7zip/src/C/LzmaDec.c:860-889 | Decoding inside a buffer never runs past it, because each started symbol fits |
| `LzmaDecoder.LzmaDec.Probe` | p7zip/src/C/LzmaDec.c:865-882 | What the dummy decoding decides |
| `LzmaDecoder.LzmaDec.FromSource` | p7zip/src/C/LzmaDec.c:860-892 | Decoding directly from the source keeps in tempBuf what is left of a cut symbol |
| `LzmaDecoder.LzmaDec.FromKept` | p7zip/src/C/LzmaDec.c:893-931 | A symbol begun in tempBuf is completed with as many source bytes as it needs, and no more are consumed |
| `LzmaDecoder.LzmaDec.DecodeToDic` | p7zip/src/C/LzmaDec.c:803-936 | Any call: the internal-error exits are never taken, what was consumed is a prefix of src, the text grows by what was decoded, the status says what it means, and data is refused only for a fault in the stream |
| `LzmaDecoder.LzmaDec.DecodeToBuf` | p7zip/src/C/LzmaDec.c:938-976 | Through a dictionary that wraps around, whatever the result: the bytes handed out are exactly the text's growth. If it is Ok, the status means what it means without wrapping; if data is refused, then for a fault in the stream or a stop inside it that LZMA_FINISH_END forbids |
| `LzmaDecoder.LzmaDec.NextBlock` | p7zip/src/C/LzmaDec.c:944-975 | One block up to the end of the dictionary or of the destination; a refusal is one of the whole call |
| `LzmaDecoder.LzmaDec.WrapAround` | p7zip/src/C/LzmaDec.c:947-948 | Starting the dictionary over loses nothing the next matches need |
| `LzmaDecoder.WindowPush` | p7zip/src/C/LzmaDec.c:228-229 | A byte written in the circular dictionary is a byte appended to the text |
| `LzmaDecoder.WindowWraps` | p7zip/src/C/LzmaDec.c:947-948 | The window still ends with the text when writing restarts at 0 |
| `LzmaDecoder.PositionWraps` | p7zip/src/C/LzmaDec.c:167 | A 32-bit position gives the same posState as the true one |
| `LzmaDecoder.DistanceInWord` | p7zip/src/C/LzmaDec.c:364-424 | No distance read exceeds 32 bits |
| `LzmaDecoder.DistanceCheck` | p7zip/src/C/LzmaDec.c:438-449 | The test against processedPos or checkDicSize is the test whether the distance reaches inside text and dictionary |
| `LzmaDecoder.LzmaDec.DecodeSymbol` | p7zip/src/C/LzmaDec.c:162-498 | Reading one symbol that lies ahead whole moves the decoder to the next place of the stream |
| `LzRank.RankAgree` | p7zip/src/C/LzFind.c:400-440 | Strings have the same number exactly when they agree up to the limit |
| `LzRank.RankLess` | p7zip/src/C/LzFind.c:424-437 | The first differing byte decides the order |
| `LzRank.Between` | p7zip/src/C/LzFind.c:394-403 | A string between two that share a prefix shares it |
| `LzRank.RankShorter` | p7zip/src/C/LzFind.c:388-441 | Shortening the limit keeps the order |
| `LzRank.RankOfLonger` | p7zip/src/C/LzFind.c:58-96 | More text changes no number of a string that was whole |
| `LzTree.SlotBack` | p7zip/src/C/LzFind.c:398-399 | The cyclic-array index computed without division is the slot of that position |
| `LzTree.SlotsDiffer` | p7zip/src/C/LzFind.c:388-441 | Positions less than a window apart have different slots |
| `LzTree.StartDown` | p7zip/src/C/LzFind.c:388-397 | The tree before an insertion is a tree with the new position on top and two holes |
| `LzTree.GoSmaller` | p7zip/src/C/LzFind.c:424-430 | Relinking below a smaller node keeps the tree |
| `LzTree.GoLarger` | p7zip/src/C/LzFind.c:431-437 | Relinking below a larger node keeps the tree |
| `LzTree.FillEmpty` | p7zip/src/C/LzFind.c:395-399 | Cutting the search leaves a tree |
| `LzTree.TakePlace` | p7zip/src/C/LzFind.c:413-420 | Replacing a node equal up to the limit leaves a tree |
| `LzTree.PrefixKnown` | p7zip/src/C/LzFind.c:403-404 | The first min(len0, len1) bytes need no comparison: they agree with the current position |
| `LzTree.NextNode` | p7zip/src/C/LzFind.c:391-399 | The next node is older than the last, so the walk ends |
| `LzTree.TreeBounds` | p7zip/src/C/LzFind.c:388-441 | Whatever is in a subtree lies between its bounds |
| `LzTree.SmallerCovers` | p7zip/src/C/LzFind.c:424-430 | The side not taken holds nothing that agrees longer than the current best |
| `LzTree.LargerCovers` | p7zip/src/C/LzFind.c:431-437 | The side not taken below a larger node holds nothing that agrees longer than the current best |
| `LzTree.FartherOff` | p7zip/src/C/LzFind.c:403-440 | Among ordered strings, one farther off shares no more |
| `LzTree.NextPosition` | p7zip/src/C/LzFind.c:495-500 | The tree of one position serves the next |
| `LzTree.ShorterLimit` | p7zip/src/C/LzFind.c:266-293 | Lowering the limit near the end of the text keeps the tree |
| `LzTree.LongerText` | p7zip/src/C/LzFind.c:58-96 | Reading more text keeps the tree |
| `LzTree.ReducedRef` | p7zip/src/C/LzFind.c:320-344 | A live reference has the same distance after renormalisation, a dead one stays dead |
| `LzTree.ReducedTree` | p7zip/src/C/LzFind.c:325-344 | Renormalisation keeps the tree |
| `LzWalk.NormalizeUnseen` | p7zip/src/C/LzFind.c:320-344 | Renormalisation is invisible to a whole search: the same pairs are reported, and the tree left behind is the same one, renormalised |
| `LzWalk.LooksAlike` | p7zip/src/C/LzFind.c:320-337 | After renormalisation a search stops at the same references, compares the same strings and goes on to the same sons |
| `LzWalk.PairsBelow` | p7zip/src/C/LzFind.c:388-441 | Relinking on the way down has no influence on what is still found: the pairs are those of the tree before the insertion |
| `LzWalk.CommonIs` | p7zip/src/C/LzFind.c:403-411 | The length that starts from min(len0, len1) is the full number of bytes in common |
| `LzReports.FinderUnmoved` | p7zip/src/C/LzFind.c:320-355 | Renormalisation is invisible to the whole finder, heads and trees: the same is reported and the same is left, renormalised |
| `LzReports.FinderInLonger` | p7zip/src/C/LzFind.c:58-96 | Text behind what the finder may look at makes no difference to what it reports and leaves |
| `LzReports.HeadedLowered` | p7zip/src/C/LzFind.c:596-602 | The heads left at a position are the same, renormalised or not |
| `LzComplete.LongestFound` | p7zip/src/C/LzFind.c:388-441 | When the search is not cut short, the matches of a position reach as far as it agrees with any other in the window, if these are as many bytes as are hashed |
| `LzComplete.NearestCompared` | p7zip/src/C/LzFind.c:393-412 | However short the search is cut, the nearest position with the same hash value is compared |
| `LzComplete.TwoBytesFound` | p7zip/src/C/LzFind.c:598-632 | The nearest position with the same two-byte hash value is reported if it shares two bytes, and the matches reach as far as it agrees |
| `LzComplete.ThreeBytesFound` | p7zip/src/C/LzFind.c:615-632 | The same for three bytes |
| `LzComplete.CompleteStart` | p7zip/src/C/LzFind.c:295-313 | Empty heads and trees are complete: there is nothing to be found |
| `LzComplete.CompleteNext` | p7zip/src/C/LzFind.c:585-638 | Searching or skipping a position keeps it so: the head of every hash value is the nearest position that has it, and every position in the window is in the tree of its value, or a newer one that looks the same |
| `LzComplete.CompleteInLonger` | p7zip/src/C/LzFind.c:58-96 | Text that is read later changes nothing |
| `LzComplete.CompleteShorter` | p7zip/src/C/LzFind.c:266-293 | Near the end of the text strings are compared up to a lower limit, and are still in order |
| `LzComplete.AllHeadsNext` | p7zip/src/C/LzFind.c:595-604 | Every head, small or main, is still the nearest position of its kind when this position has been left in it |
| `LzInsert.PairsUnbeaten` | p7zip/src/C/LzFind.c:388-441 | Nothing in a tree beats what a search of it reports, if it is not cut short |
| `LzInsert.SplitKeeps` | p7zip/src/C/LzFind.c:388-441 | An insertion leaves a tree, and loses nothing if the search can go to the end |
| `LzInsert.SplitKinds` | p7zip/src/C/LzFind.c:388-441 | A tree holds positions of one hash value only, and inserting one leaves the other trees alone |
| `LzInsert.OneKind` | p7zip/src/C/LzFind.c:388-441 | Whatever is in a tree has the hash value of its head |
| `LzInsert.StillInTree` | p7zip/src/C/LzFind.c:395-402 | One position on, what is still in the window is still in its tree |
| `LzKept.SmallerHeld` | p7zip/src/C/LzFind.c:424-430 | Relinking to the smaller side loses no node |
| `LzKept.LargerHeld` | p7zip/src/C/LzFind.c:431-437 | Relinking to the larger side loses no node |
| `LzKept.ReplacedHeld` | p7zip/src/C/LzFind.c:413-420 | Replacing loses one node, which the new one equals up to the limit |
| `LzKept.EmptyHeld` | p7zip/src/C/LzFind.c:395-399 | Reaching an empty place loses nothing |
| `LzSearch.ReportedPairs` | p7zip/src/C/LzFind.c:406-420 | Reported pairs have strictly increasing lengths above the given one, and each is a repeat |
| `LzSearch.GenuineIsRepeat` | p7zip/src/C/LzFind.c:403-420 | A reported pair can be copied: the bytes at that distance are the bytes ahead |
| `LzSearch.CommonLength` | p7zip/src/C/LzFind.c:403-411 | The comparison started inside a known prefix finds the full common length |
| `LzSearch.GetMatchesSpec1` | p7zip/src/C/LzFind.c:388-441 | What is reported are the pairs of a plain search of the tree as it was before, all genuine repeats and ever longer; the tree left is valid and is the old one split at the new string; when the search was not cut, nothing in the tree is longer than the last pair and no node is lost |
| `LzSearch.SkipMatchesSpec` | p7zip/src/C/LzFind.c:443-493 | It leaves exactly the tree that the reporting search leaves, cut short or not |
| `LzSearch.Hc_GetMatchesSpec` | p7zip/src/C/LzFind.c:357-386 | Along a hash chain every pair found is a genuine repeat, and none of the positions looked at has more bytes in common than the last one reported; this position is linked before them |
| `LzSearch.Relink` | p7zip/src/C/LzFind.c:422-438 | One step down in place: the tree but for its two holes stays valid, nothing is lost, and what is still to be found and built is what was |
| `LzSearch.Replace` | p7zip/src/C/LzFind.c:413-420 | The replacement in place leaves a valid tree that lost only a node equal to the new one up to the limit |
| `LzSearch.Cut` | p7zip/src/C/LzFind.c:395-399 | The cut in place leaves a valid tree, which lost nothing if no node was left to look at |
| `LzHash.Hash2Exact` | p7zip/src/C/LzHash.h:15-18 | Whatever the table: equal two-byte hashes with the same first byte mean the same second byte |
| `LzHash.Hash3Exact` | p7zip/src/C/LzHash.h:22-27 | Whatever the table: equal three-byte hashes with the same first byte mean the same three bytes |
| `LzHash.MaskedNum` | p7zip/src/C/LzHash.h:22-27 | A masked hash stays inside its table |
| `LzFind.ReportedJoin` | p7zip/src/C/LzFind.c:585-638 | Short hits followed by tree matches are still strictly increasing genuine repeats |
| `LzFind.Head2Nearest` | p7zip/src/C/LzFind.c:592-598 | The two-byte head gives the nearest candidate, exact if its first byte agrees |
| `LzFind.Head3Nearest` | p7zip/src/C/LzFind.c:592-598 | The three-byte head gives the nearest candidate, exact once its first byte agrees |
| `LzFind.JustTwo` | p7zip/src/C/LzFind.c:605-622 | When both heads hit at different distances, the nearer repeat has just two bytes |
| `LzFind.NewHeads` | p7zip/src/C/LzFind.c:596-602 | Storing the current position keeps the heads |
| `LzFind.ReducedHeads` | p7zip/src/C/LzFind.c:325-344 | Renormalisation keeps the heads |
| `LzFind.MatchFinder.constructor` | p7zip/src/C/LzFind.c:177-264 | Sizes as computed from the history size: buffer with reserve, hash mask, heads and sons |
| `LzFind.MaskIsOnes` | p7zip/src/C/LzFind.c:207-233 | The mask computed from the history size is a row of at least 16 ones, at most 24 for three-byte hashing |
| `LzFind.BlockSizeFits` | p7zip/src/C/LzFind.c:189-195 | With the reserve chosen, the buffer size does not leave 32 bits for any history allowed and 44,000,000 bytes kept besides |
| `LzFind.MatchFinder.Init` | p7zip/src/C/LzFind.c:295-318 | Empty heads, an empty history, as much text as the first read gives |
| `LzFind.MatchFinder.ReadBlock` | p7zip/src/C/LzFind.c:58-96 | Text is appended in stream order, nothing lost or repeated, until more than keepSizeAfter bytes are ahead, the buffer is full, or the stream ended or failed |
| `LzFind.MatchFinder.MoveBlock` | p7zip/src/C/LzFind.c:98-104 | Moving the window keeps history and look-ahead |
| `LzFind.MatchFinder.CheckAndMoveAndRead` | p7zip/src/C/LzFind.c:122-127 | Because room is made first, a full buffer never stops the reading too early: more than keepSizeAfter bytes are ahead, or the stream ended or failed |
| `LzFind.MatchFinder.NothingCutShort` | p7zip/src/C/LzFind.c:346-355 | In every valid state, unless the stream failed, matches may be as long as all the text that the stream still holds allows, however it is delivered |
| `LzFind.MatchFinder.Normalize` | p7zip/src/C/LzFind.c:339-344 | All references are lowered by one value, the window untouched |
| `LzFind.MatchFinder.SetLimits` | p7zip/src/C/LzFind.c:266-293 | The limit never passes the text that is there, and the next check comes in time |
| `LzFind.MatchFinder.CheckLimits` | p7zip/src/C/LzFind.c:346-355 | Every branch restores the whole invariant: tree, heads, window, limits, and enough bytes ahead; no text is lost |
| `LzFind.MatchFinder.MovePos` | p7zip/src/C/LzFind.c:495-500 | One position on: invariant kept |
| `LzFind.MatchFinder.Heads4` | p7zip/src/C/LzFind.c:592-602 | The heads are read, then set to the current position; what they lead to is the nearest position with two and with three equal bytes |
| `LzFind.MatchFinder.ShortMatches4` | p7zip/src/C/LzFind.c:605-632 | Two- and three-byte hits give genuine repeats |
| `LzFind.MatchFinder.Bt4GetMatches` | p7zip/src/C/LzFind.c:585-638 | What is reported are the two- and three-byte hits of the heads and the pairs of the tree, as the finder without any renormalisation reports them at this position of the whole text; all are genuine and ever longer. Nothing is missed: an uncut search reaches as far as any position in the window agrees, if that is four bytes or more; any search compares the nearest position with the same hash value; and the nearest with the hash values of two and of three bytes are reported if they share two or three. The state one position on is valid |
| `LzFind.MatchFinder.Bt3GetMatches` | p7zip/src/C/LzFind.c:548-583 | The same contract with three-byte hashing: just the matches that the finder without renormalisation reports at this position of the whole text, genuine, ever longer, and none missed |
| `LzFind.MatchFinder.Bt2GetMatches` | p7zip/src/C/LzFind.c:526-535 | The same contract with two-byte hashing: just the pairs of the tree, genuine, ever longer, and none missed |
| `LzFind.MatchFinder.Bt4Skip` | p7zip/src/C/LzFind.c:908-924 | Skipping leaves exactly the heads and trees that searching the same positions leaves, renormalised or not, and a valid state |
| `LzFind.MatchFinder.Bt3Skip` | p7zip/src/C/LzFind.c:891-906 | Skipping leaves exactly the heads and trees that searching leaves, with three-byte hashing |
| `LzFind.MatchFinder.Bt2Skip` | p7zip/src/C/LzFind.c:865-876 | Skipping leaves exactly the heads and trees that searching leaves, with two-byte hashing |
| `LzFind.Normalize3` | p7zip/src/C/LzFind.c:325-337 | In place: small references become empty, others are lowered |
| `Bra86.RoundTrip` | p7zip/src/C/Bra86.c:10-82 | Converting back with the same start state gives the original bytes, the same end position and the same mask, in either direction |
| `Bra86.WalkKeeps` | p7zip/src/C/Bra86.c:20-75 | What the mask remembers of the bytes ahead still holds after they are changed |
| `Bra86.SameDecision` | p7zip/src/C/Bra86.c:44-75 | At every opcode the decoder decides as the encoder did, though it sees converted bytes |
| `Bra86.UndoneStep` | p7zip/src/C/Bra86.c:54-75 | One converted target is undone |
| `Bra86.ConvertBack` | p7zip/src/C/Bra86.c:54-75 | The target arithmetic with its byte flip is its own inverse |
| `Bra86.StaysOrdinary` | p7zip/src/C/Bra86.c:63-69 | The flip leaves no 00 or FF where the mask says there was none |
| `Bra86.FlipBack` | p7zip/src/C/Bra86.c:66-69 | Flipping is an involution on 25-bit targets |
| `Bra86.PiecesAreWhole` | p7zip/src/C/Bra.h:25-52 | Converting in any pieces, by the documented calling protocol, is converting at once |
| `Bra86.WalkOn` | p7zip/src/C/Bra86.c:10-82 | Stopping and going on is going on |
| `Bra86.SameBase` | p7zip/src/C/Bra86.c:12-14 | Only ip modulo 2^32 matters |
| `Bra86.LowBits` | p7zip/src/C/Bra86.c:54-75 | 32-bit arithmetic on the target gives the 25-bit result |
| `Bra86Calls.CallsAddress` | p7zip/src/C/Bra86.c:49-76 | Of an opcode with no other one in the four bytes before it and a plausible top byte, encoding makes the address that the instruction goes to, that of its first byte plus 5 plus the signed operand, in 25 bits with the sign in byte 4; decoding takes that address back to the operand |
| `Bra86Calls.SameCallSameBytes` | p7zip/src/C/Bra86.c:49-76 | Two calls of the same address, wherever they stand, get the same four bytes |
| `Bra86Calls.OnlyOperands` | p7zip/src/C/Bra86.c:23-80 | A byte that is in no opcode's operand is left as it is |
| `Bra86Calls.WhatConverts` | p7zip/src/C/Bra86.c:40-49 | An opcode with a plausible target is converted unless there are two opcodes just before it, or one whose own top byte, which lies in this one's target, is plausible too |
| `Bra86Calls.RemembersOpcodes` | p7zip/src/C/Bra86.c:38-42 | What the mask remembers are the opcodes gone by unconverted in the last three bytes |
| `Bra86Calls.ComesTo` | p7zip/src/C/Bra86.c:23-38 | The scan comes to every opcode that stands alone, with nothing remembered and nothing changed from there on |
| `Bra86.ConvertAt` | p7zip/src/C/Bra86.c:54-75 | The conversion in place, byte for byte |
| `Bra86.X86Convert` | p7zip/src/C/Bra86.c:10-82 | The method in place is the walk: bytes, position and state; what the walk does to an instruction is stated in `Bra86Calls` |
| `Registers.ShiftLinear` | p7zip/src/C/7zCrc.c:63-64 | In a register of any width one step of the polynomial division is linear |
| `Registers.ZerosLinear` | p7zip/src/C/7zCrc.c:63-71 | Any number of zero bits through the register is linear |
| `Registers.BitsAtOnce` | p7zip/src/C/7zCrc.c:45-46 | Message bits may be added to the register all at once, before as many zero bits |
| `Registers.WordAtOnce` | p7zip/src/C/7zCrcOpt.c:17-25 | A word of any number of bytes, added to the register and followed by as many zero bits, is its bytes taken bit by bit |
| `Registers.FirstByte` | p7zip/src/C/7zCrcOpt.c:19-24 | The first eight message bits of a word are its low byte |
| `Registers.LowByteFirst` | p7zip/src/C/7zCrc.c:70 | While the low byte passes, what is above it only moves down |
| `Registers.ByteThrough` | p7zip/src/C/7zCrc.c:45-46 | A lookup and a shift are eight single bits |
| `Registers.EntryAt` | p7zip/src/C/7zCrc.c:67-71 | Entry c of table m is byte c followed by the zero bits of m + 1 bytes |
| `Registers.NextEntry` | p7zip/src/C/7zCrc.c:67-71 | Every table is the one before it with one zero byte more |
| `Registers.ThroughTables` | p7zip/src/C/7zCrcOpt.c:20-24 | The low bytes of a register, each through a table of its own, and what is above them moved down: that is the whole register after as many zero bytes |
| `Words.WordLaws` | p7zip/src/C/7zCrc.c:45-71 | The operations on 32 bits are those of such a register |
| `LongWords.LongLaws` | p7zip/src/C/XzCrc64Opt.c:10-25 | The operations on 64 bits are those of such a register |
| `Crc32.GenerateTable` | p7zip/src/C/7zCrc.c:56-71 | The generated tables hold those entries, for the polynomial of CRC-32 |
| `Crc32.ByteEntry` | p7zip/src/C/7zCrc.c:61-65 | The branch-free inner loop computes one entry |
| `CrcUpdate.CrcUpdateT1` | p7zip/src/C/7zCrc.c:47-54 | Byte by byte: the CRC of the data, bit by bit |
| `CrcUpdate.WordThrough` | p7zip/src/C/7zCrcOpt.c:20-24 | Four lookups put a whole word through the register |
| `CrcUpdate.FourBytes` | p7zip/src/C/7zCrcOpt.c:19-24 | Four bytes at once are four single bytes |
| `CrcUpdate.CrcUpdateT4` | p7zip/src/C/7zCrcOpt.c:12-29 | Four bytes at a time, any length and alignment: the CRC of the data |
| `CrcUpdate.EightBytes` | p7zip/src/C/7zCrcOpt.c:38-50 | Eight bytes at once are eight single bytes |
| `CrcUpdate.CrcUpdateT8` | p7zip/src/C/7zCrcOpt.c:31-55 | Eight bytes at a time, any length and alignment: the CRC of the data |
| `CrcUpdate.SwapTables` | p7zip/src/C/7zCrc.c:112-116 | The tables move up by one and have their bytes swapped, in place |
| `Words.SwapXor` | p7zip/src/C/7zCrcOpt.c:62-64 | Byte swapping commutes with xor |
| `CrcUpdate.CrcUpdateBeT4` | p7zip/src/C/7zCrcOpt.c:66-85 | Byte-swapped, four bytes at a time, any length and alignment: the CRC of the data |
| `CrcUpdate.CrcUpdateBeT8` | p7zip/src/C/7zCrcOpt.c:87-113 | Byte-swapped, eight bytes at a time, any length and alignment: the CRC of the data |
| `Crc64.GenerateTable` | p7zip/src/C/XzCrc64.c:47-62 | The generated tables of CRC-64 |
| `Crc64.WordThrough` | p7zip/src/C/XzCrc64Opt.c:19-24 | The upper half of the register moves down while its lower half and a word go through four tables |
| `Crc64.XzCrc64UpdateT4` | p7zip/src/C/XzCrc64Opt.c:12-29 | Four bytes at a time through a register of eight, any length and alignment: the CRC of the data, bit by bit |
| `Crc64.SwapTables` | p7zip/src/C/XzCrc64.c:77-81 | The tables with their bytes swapped, in place |
| `LongWords.SwapHalves` | p7zip/src/C/XzCrc64Opt.c:36-44 | Swapping eight bytes exchanges the halves, each swapped |
| `Crc64.XzCrc64UpdateBeT4` | p7zip/src/C/XzCrc64Opt.c:48-67 | Byte-swapped, any length and alignment: the CRC of the data |
| `CrcValues.CrcCalc` | p7zip/src/C/7zCrc.c:40-43 | CRC-32 of any data is the remainder of the message and 32 zeros, first 32 bits inverted, on long division by x^32 + x^26 + x^23 + x^22 + x^16 + x^12 + x^11 + x^10 + x^8 + x^7 + x^5 + x^4 + x^2 + x + 1, inverted; bits are sent lowest first |
| `CrcValues.Crc64Calc` | p7zip/src/C/XzCrc64.c:42-45 | The same for CRC-64 and the polynomial of ECMA-182 |
| `CrcValues.Poly32` | p7zip/src/C/7zCrc.c:9 | The constant holds the coefficients of that polynomial, that of x^31 in its lowest bit |
| `CrcValues.Poly64` | p7zip/src/C/XzCrc64.c:9 | The constant of CRC-64 holds the coefficients of its polynomial |
| `CrcDivision.CrcDivides` | p7zip/src/C/7zCrc.c:45-54 | The register after the data, bit by bit, holds the remainder of the message followed by zeros, with the start value added to its beginning |
| `CrcDivision.OneBit` | p7zip/src/C/7zCrc.c:64 | A bit through the register is one step of the long division |
| `MtCoder.OutputInOrder` | p7zip/src/C/MtCoder.c:187-247 | In every interleaving, with failures anywhere, what is written is the coded blocks in order, the last perhaps in part |
| `MtCoder.OneAtATime` | p7zip/src/C/MtCoder.c:187-247 | At most one thread reads and at most one writes |
| `MtCoder.AllWritten` | p7zip/src/C/MtCoder.c:272-327 | When all threads ended without error, every block read was written; that all of the input was read is `MtCoderWhole.ReadToTheEnd` |
| `MtCoder.RunInv` | p7zip/src/C/MtCoder.c:187-247 | The invariant holds at the end of every run |
| `MtCoder.StepInv` | p7zip/src/C/MtCoder.c:187-247 | Every step of every thread keeps the invariant |
| `MtCoder.GoInv` | p7zip/src/C/MtCoder.c:187-247 | Every step that succeeds keeps the invariant |
| `MtCoder.StumbleInv` | p7zip/src/C/MtCoder.c:226-247 | Every step that fails keeps the invariant |
| `MtCoder.InitInv` | p7zip/src/C/MtCoder.c:303-322 | It holds when the threads are started |
| `MtCoderEnds.NoDeadlock` | p7zip/src/C/MtCoder.c:187-247 | In every interleaving, with failures anywhere and with any number of threads started: when no thread can take a step, every thread has come to its end |
| `MtCoderEnds.RunsEnd` | p7zip/src/C/MtCoder.c:187-247 | When the input ends within some number of blocks, every run ends: it has at most 20 steps for each block and 9 for each thread |
| `MtCoderEnds.StepAwake` | p7zip/src/C/MtCoder.c:187-247 | Every step, failing or not, keeps the rights to read and to write in somebody's hands and what each thread was told |
| `MtCoderEnds.StepFewer` | p7zip/src/C/MtCoder.c:187-247 | Every step leaves fewer steps, and after a block that ends the input nobody reads again |
| `MtCoderEnds.AllFailed` | p7zip/src/C/MtCoder.c:238-242 | If nobody can go on, every thread with a block in work has failed |
| `MtCoderEnds.AllWaitToRead` | p7zip/src/C/MtCoder.c:187-206 | If nobody can go on, one thread waiting to read means that all wait |
| `MtCoderWhole.WholeInputCoded` | p7zip/src/C/MtCoder.c:187-247 | In every interleaving: if the threads could be started and all ended without error, what they wrote is the whole input, cut into blocks, coded by one thread alone |
| `MtCoderWhole.CodedInTheEnd` | p7zip/src/C/MtCoder.c:187-247 | Every run that cannot go on, and in which no thread failed, has coded the whole input |
| `MtCoderWhole.ReadToTheEnd` | p7zip/src/C/MtCoder.c:206-207 | They have read up to the first short block, that one included, and have written all of it |
| `MtCoderWhole.StepCaused` | p7zip/src/C/MtCoder.c:187-247 | In every step: no block but the last is short, and only a short block or a failure makes anybody stop |
| `MtCoderWhole.CodedSoFar` | p7zip/src/C/MtCoder.c:202-212 | As long as no block is short, the blocks coded so far and the coded rest are the coded input |
| `ProductStore.Transaction` | homepublish/src/product-store.c:66-125 | At every moment of every transaction, with faults anywhere, the journal is safe. What a transaction may refuse it refuses, and leaves the journal alone; what it need not refuse it stores unless something failed: without a fault it commits. Committed means that journal and backup are there to stay. Nothing is left behind but what could not be removed |
| `ProductStore.DurableReads` | homepublish/src/product-store.c:107-114 | After a commit the journal reads as the replacement, running or after any crash, and the backup that was asked for as the old journal |
| `ProductStore.CrashReads` | homepublish/src/product-store.c:66-125 | After a crash at a safe moment the journal reads as the whole old or the whole new bytes |
| `ProductStore.BackupBeforeReplacement` | homepublish/src/product-store.c:94-112 | Whenever a replacement with backup is visible, the backup durably reads as the old journal |
| `ProductStore.OldBackupReads` | homepublish/src/product-store.c:59-63 | At every moment of every transaction a backup that was there before is still in place and reads, after any crash, as it did before |
| `ProductStore.MigrationBackup` | homepublish/src/product-store.c:21-65 | Success means a durable backup with exactly these bytes, whether it was new or there before, and is only missed if another one is there or something failed; the journal, and a backup that was there before, are untouched |
| `ProductStore.NewBackup` | homepublish/src/product-store.c:46-65 | On success a backup with these bytes, forced to disk; on failure the name stands for what it stood for before, or for the new file if its removal was refused too |
| `ProductStore.WriteAll` | homepublish/src/product-store.c:53-57 | Short and interrupted writes add up to all bytes, unless something failed |
| `ProductStore.ReadJournal` | homepublish/src/product-store.c:72-85 | The bytes of the journal, or none; refused exactly if it is not private, empty or too long, or something failed |
| `ProductStore.PrepareCandidate` | homepublish/src/product-store.c:97-106 | A candidate file with exactly these bytes, forced to disk, unless a foreign one is in the way or something failed |
| `ProductStore.Commit` | homepublish/src/product-store.c:107-118 | After the rename: committed, or durability unknown if forcing the directory failed; before it, and only if the rename failed: nothing stored |
| `ProductStore.PublishedReads` | homepublish/src/product-store.c:107-118 | A rename shows old or new, never a mixture |
| `ProductStore.UntouchedReads` | homepublish/src/product-store.c:66-125 | Before the rename only the old journal can be read |
| `ProductStore.BackupReads` | homepublish/src/product-store.c:21-65 | A durable backup reads as its bytes after any crash |
| `Guardian.EnteredUnderThree` | homepublish/src/renewable-guard.c:229-347 | In every run the provider is entered only while parent, guardian and watchdog have each bound it |
| `Guardian.NeverActiveAfterCleanup` | homepublish/src/renewable-guard.c:166-227 | Once anyone removed the owned files, the provider is never active again |
| `Guardian.StepKeeps` | homepublish/src/renewable-guard.c:176-347 | Every step of every process, failures and kills included, keeps the causal order of the handshake |
| `Guardian.CleaningBars` | homepublish/src/renewable-guard.c:166-170 | Cleanup happens only after the provider's exit was seen or when it cannot be activated any more |
| `Guardian.RunKeeps` | homepublish/src/renewable-guard.c:176-347 | Every run keeps the causal order, and the bar on activation after cleanup |
| `GuardianLive.Activates` | homepublish/src/renewable-guard.c:176-304 | Whatever the order of their steps: without a failure a run of the handshake has at most 23 of them, and when nobody can take another one the provider has been entered and parent, guardian and watchdog run |
| `GuardianLive.HealthyStep` | homepublish/src/renewable-guard.c:176-304 | Every step brings one of the four on, and every message is sent once its sender has come that far |
| `GuardianLive.GoesOn` | homepublish/src/renewable-guard.c:176-304 | As long as nobody has stopped and the handshake is not over, somebody can take a step |
| `GuardianLoop.Serve` | homepublish/src/renewable-guard.c:303-339 | For every list of rounds, whatever frames they bring and whatever the clock says: deadline and sequence number in the end are those of the session defined turn by turn, of which the following are theorems |
| `GuardianLoop.NumberedOn` | homepublish/src/renewable-guard.c:323-334 | The frames accepted over all rounds are genuine and numbered 1, 2, 3, ...; none is accepted twice, left out or taken from another session |
| `GuardianLoop.NeverPastLimit` | homepublish/src/renewable-guard.c:240-242 | With a temporary limit no deadline ever passes it |
| `GuardianLoop.LastRenewal` | homepublish/src/renewable-guard.c:335-336 | The deadline in force is the first one or that of the last round that renewed: 600 ms from then, cut at the limit |
| `GuardianLoop.WhatRenews` | homepublish/src/renewable-guard.c:321-336 | A round renews only with at least one and fewer than 32 frames, all genuine, numbered on and none a release, and only before the deadline that it puts off |
| `GuardianLoop.AuthorityEnds` | homepublish/src/renewable-guard.c:305-336 | Whoever is served was started or renewed less than 600 ms before, and not past the limit of a temporary grant |
| `GuardianLoop.ServedUntil` | homepublish/src/renewable-guard.c:240-242 | An open session is served exactly for 600 ms from its start or its last renewal, and up to the limit of a temporary grant |
| `GuardianLoop.FaithfulIsServed` | homepublish/src/renewable-guard.c:305-338 | Whoever keeps sending in time, at least one and fewer than 32 frames, genuine and numbered on, is served on: every frame is accepted and every round renews |
| `GuardianLoop.DeadlineIs` | homepublish/src/renewable-guard.c:336 | The deadline in force is 600 ms from the last renewal, or the limit if that is earlier |
| `GuardianLoop.FloodEnds` | homepublish/src/renewable-guard.c:333 | A full drain of 32 frames ends the session and renews nothing |
| `GuardianLoop.ClosedStays` | homepublish/src/renewable-guard.c:335-339 | After the end nothing is accepted and nothing renewed |
| `GuardianLoop.DeadlineRises` | homepublish/src/renewable-guard.c:204-213 | If the clock does not go back, deadlines do not either: the watchdog, which takes an earlier one for a fault, always agrees |
| `GuardianLoop.Drain` | homepublish/src/renewable-guard.c:322-334 | One round takes the longest row of frames that are genuine and numbered on, up to the first release and up to 32; it stops the session exactly if a frame was refused, or released it, or there may be more |
| `GuardianLoop.TakenIs` | homepublish/src/renewable-guard.c:323-334 | Frames taken are acceptable one after the other, all but the last renew, and the first one left is not acceptable |
| `Sort.HeapSort` | p7zip/src/C/Sort.c:17-61 | The part of the array is in ascending order and a permutation of what it was; the rest of the array is untouched |
| `Sort.SiftDown` | p7zip/src/C/Sort.c:8-15 | A heap but for its root becomes a heap; the elements are the same, and none outside it moves |
| `HuffEnc.Generate` | p7zip/src/C/HuffEnc.c:17-148 | For all frequencies within the bounds of HuffEnc.h (1024 symbols, less than 2^22 in all, maxLen from 1 to 16) of which at most 2^maxLen occur: every symbol that occurs has a code, no length exceeds maxLen, the lengths fill the code space exactly (Kraft), no code is the beginning of another; the code is optimal among all prefix codes exactly if Huffman's tree for these frequencies is not deeper than maxLen, and then costs what Huffman's algorithm says; otherwise some code has maxLen bits |
| `HuffEnc.NeedsRoom` | p7zip/src/C/HuffEnc.h:10-17 | The precondition that at most 2^maxLen symbols occur is what every code within maxLen bits needs |
| `HuffEnc.OptimalIsLong` | p7zip/src/C/HuffEnc.c:113-117 | No optimal prefix code, Huffman's or not, gets along with fewer bits than Huffman's tree is deep: whenever a length has to be cut, the code is not optimal any more |
| `HuffEnc.CodeOfCost` | p7zip/src/C/HuffEnc.c:84-100 | There is a prefix code of just Huffman's cost |
| `HuffEnc.OccurringIs` | p7zip/src/C/HuffEnc.c:24-53 | The list of symbols by weight spells the frequencies that occur in order, which are a function of the frequencies alone |
| `HuffEnc.ManyCodes` | p7zip/src/C/HuffEnc.c:84-147 | Two symbols or more: tree, depths, lengths and codes in the one array, with the whole contract of Huffman_Generate |
| `HuffEnc.TwoCodes` | p7zip/src/C/HuffEnc.c:68-82 | Fewer than two symbols: the codes 0 and 1, one of them for the symbol that occurs |
| `Huffman.NoBetter` | p7zip/src/C/HuffEnc.c:87-100 | Joining the two lightest again and again costs no more than any code lengths that satisfy Kraft's inequality |
| `Huffman.Joined` | p7zip/src/C/HuffEnc.c:91-97 | Two codes of the same length joined into one a bit shorter: still a code, cheaper by just the weights joined |
| `HuffmanHeight.Pushed` | p7zip/src/C/HuffEnc.c:87-100 | Nodes pushed behind one another and sorted leaves, taken from the lighter front, a leaf first, are one queue in which every node goes behind all that is not heavier |
| `HuffmanHeight.NoShorter` | p7zip/src/C/HuffEnc.c:87-100 | Because a leaf is taken before a node of the same weight, the tree is as low as any of its cost: every code of Huffman's cost has a code word that long |
| `HuffmanHeight.OrderedStep` | p7zip/src/C/HuffEnc.c:91-97 | Joining keeps the queue in order by weight and, among equal weights, by height |
| `HuffmanHeight.LongEnough` | p7zip/src/C/HuffEnc.c:87-100 | For leaves alone: a code of Huffman's cost has a length of at least the height of the tree |
| `HuffmanHeight.CostReached` | p7zip/src/C/HuffEnc.c:87-100 | Huffman's cost is that of some code |
| `HuffmanList.ListSymbols` | p7zip/src/C/HuffEnc.c:24-53 | The symbols that occur, each once and with its frequency, in order of their frequencies; all others get length 0 |
| `HuffmanList.BucketsBag` | p7zip/src/C/HuffEnc.c:29-49 | The buckets together hold exactly the symbols that occur |
| `HuffmanList.CountSymbols` | p7zip/src/C/HuffEnc.c:26-33 | Every counter is the size of its bucket |
| `HuffmanList.PlaceSymbols` | p7zip/src/C/HuffEnc.c:42-49 | Every symbol goes to the next free place of its bucket, and never to one that is taken |
| `HuffmanTree.BuildTree` | p7zip/src/C/HuffEnc.c:85-100 | The two queues inside one array, where parents' numbers overwrite weights: afterwards every place holds the number of its parent, the sum of all nodes is Huffman's cost, the root is as high as Huffman's tree, and the symbols are where they were |
| `HuffmanTree.JoinInPlace` | p7zip/src/C/HuffEnc.c:88-100 | One pass: two places get the number of the new node, and the new node's weight goes into a place that is not needed any more |
| `HuffmanTree.Choose` | p7zip/src/C/HuffEnc.c:91-96 | The lighter of the two fronts is taken, a leaf before a node of the same weight |
| `HuffmanTree.JoinTwo` | p7zip/src/C/HuffEnc.c:91-97 | What is left after a join costs less by just the weight of the new node, and is as high as before |
| `HuffmanDepths.CountLengths` | p7zip/src/C/HuffEnc.c:103-117 | Every node and leaf gets its depth in the tree that was built; the counts of lengths fill the code space for as many symbols as there are; if the height of Huffman's tree for these weights is at most maxLen they count those depths; else maxLen occurs, and only the longest codes gave way: below some length there are as many codes of each length as leaves of that depth |
| `HuffmanDepths.Descend` | p7zip/src/C/HuffEnc.c:109-117 | A node gets its depth from its parent's; the counters stay exact, with or without the clamp |
| `HuffmanDepths.FindShorter` | p7zip/src/C/HuffEnc.c:113-114 | The search finds the longest of the shorter codes to split: no counter falls below 0 and none is read below index 1 |
| `HuffmanDepths.SomeShorter` | p7zip/src/C/HuffEnc.c:113-114 | While fewer than 2^maxLen codes are counted, one shorter than maxLen is among them |
| `HuffmanDepths.StaysFull` | p7zip/src/C/HuffEnc.c:115-116 | Splitting any code of length l keeps Kraft's sum |
| `HuffmanDepths.CostStep` | p7zip/src/C/HuffEnc.c:109-112 | Going down by one node adds its weight: in the end all depths weighed are the sum of all nodes |
| `HuffmanDepths.ReachingStep` | p7zip/src/C/HuffEnc.c:109-112 | Going down by one node, depth and height together still come to the height of the root, so that the deepest leaf is as deep as the tree is high |
| `HuffEnc.AssignLengths` | p7zip/src/C/HuffEnc.c:119-128 | The counted lengths are given out longest first, to the lightest symbols |
| `HuffEnc.SpreadIs` | p7zip/src/C/HuffEnc.c:119-128 | As given out, the lengths fill the code space, and are the depths of the leaves if none is too deep |
| `HuffEnc.BestPossible` | p7zip/src/C/HuffEnc.c:119-128 | Lengths that cost what Huffman's algorithm does are not beaten by any prefix code for the same symbols |
| `HuffEnc.FirstCodes` | p7zip/src/C/HuffEnc.c:131-137 | The first code of every length stands behind all shorter codes |
| `HuffEnc.CodeFits` | p7zip/src/C/HuffEnc.c:131-138 | No code is longer than its bits |
| `HuffEnc.CodesApart` | p7zip/src/C/HuffEnc.c:131-144 | No code is the beginning of another one |
| `HuffEnc.AssignCodes` | p7zip/src/C/HuffEnc.c:140-145 | The canonical codes, in order of the symbols within each length |
| `HuffEnc.FromTheTree` | p7zip/src/C/HuffEnc.c:102-147 | From the counts to the whole claim: Kraft's equality, and optimal exactly if the tree is not deeper than maxLen |

## Left out

- The encoder's choice of tokens (price tables, `GetOptimum`): it affects size, not meaning; any valid choice is allowed.
- The encoder's block limits and output buffer (`RangeEnc_FlushStream`, write errors): the output is one growing sequence.
- The class of the encoder keeps its probabilities in one array laid out as the decoder's, where the source has one field for each table; `LzmaTables.SeparateTables` shows that this makes no difference.
- `LzmaDec_InitDicAndState` with a kept dictionary (LZMA2), allocation, property bytes.
- `LzmaDec_DecodeReal`: the loops of the `_LZMA_SIZE_OPT` variant stand for the unrolled ones, which do the same steps.
- The match finder's `directInput` mode, Hc4, Hc5, Bt5 and the Zip wrappers, failed allocations, a history of no bytes; `streamPos` is not reduced modulo 2^32 (only its difference to `pos` is used).
- `LzSearch.GetMatchesSpec1`: that nothing better is left in the tree is promised only when the search was not cut short by `cutValue`.
- `LzComplete.TwoBytesFound`: of two or three bytes only the nearest position with their hash value is known; another one with the same hash value in front hides it, as in the source.
- `HuffEnc.Generate`: more than 2^maxLen symbols that occur, for which no code exists (`HuffEnc.NeedsRoom`); how much worse than the best the code is when some length had to be cut (which lengths give way is stated of `HuffmanDepths.CountLengths`); `nextCodes[0]`, which the source leaves unset, starts at any value.
- `LzFind.MatchFinder.ReadBlock`: the input stream is one that delivers nothing only at its end or when it fails.
- `MtCoderWhole.WholeInputCoded`: when not all threads could be started the source reports the failure, and nothing is said of the output.
- `MtCoder.OutputInOrder`: progress reports are not part of this model.
- `MtCoderEnds.NoDeadlock`: a failing thread wakes the next one by two last calls of `Event_Set` (`MtCoder.c:240-241`), and the first thread is woken by two in `MtCoder_Code`; the source ignores their results, and they are taken to succeed.
- `Guardian.EnteredUnderThree`: descriptors, process groups and clocks are events and parameters; `worker_boundary` and `clean_fds` are not part of this model.
- `ProductStore.Transaction`: no other process works in the directory meanwhile; opening and locking it is one fault (so is a foreign lock file); the Lua callback is any function of the old bytes.
- The two-thread match finder, BCJ2, PPMd and the BWT sort are not part of this model.
