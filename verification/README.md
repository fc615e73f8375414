# Verification of the token engine and its neighbours

A Dafny 4.11 model of the parts of the repository whose correctness rests on invariants that no
single function body shows, with proofs for all inputs, all runs or all interleavings.

- **Tokenizers** (`src/tokenizer`). The gemma4 and SPM lanes find the next merge with a heap over a
  linked list of symbols; the GPT2 lane rescans an array. All three are proved against one naive
  specification (`MergeSpec`: join the lowest-ranked adjacent pair, leftmost on ties, until none is
  ranked). Around them: the open-addressing tables as first-writer-wins maps, the build of the
  merge tables, the hand-written scanner against the meaning of the regular expression it
  documents, the byte alphabet, and what decoding returns for an encoded text in each lane.
- **CPU expert** (`src/backends/cuda/moe_cpu_expert.c`). The worker pool as a state machine of
  interleaved steps, and the packed vector product against a scalar reference. A float is the tree
  of operations that made it, so equality of results is equality of operations and their order.
- **Decode loops** (`tools/sp_daemon/src`). The sampler's masks and draws over whole runs,
  speculative decoding, and the heartbeat loop with its rewind.
- **Routing, ledger, recall.** The Fisher-Yates masks, the receipt file and its canonical order,
  the memory concept file, and the signature text form.

Objects that the source updates in place are classes or arrays here, and each loop is a method
proved against a specification function; what the source promises is then proved of that function.
For the main operations this includes a law: a relation between inputs and result that names neither
the code nor the specification function (`EncodeLaw`, `Gpt2Law`, `DecodeLaw`, `MoeValue`, `MoeOrder`,
`DrawLaw`, `KairosLaw`, `OkfLaw`, and the predicates `IsPiece`, `FollowsTarget`, `RoutingLaw` and
`IsCanonical` of their modules).

## Conventions

- Bytes are `0..255`, texts are byte sequences, ids are integers. Vocabularies have fewer than
  2^31 entries. Hash functions are arbitrary. SPM scores and logits are reals; a logit may also be
  minus infinity. On the sampled path a score may become either infinity or no number. Penalties,
  temperature and probabilities are reals, and the exponential is any function that is never negative
  and not zero at zero.
- The Unicode tables are arbitrary sorted ranges with space, CR and LF in the white-space table. Lemmas about
  what a piece looks like also take no codepoint to be in two of them.
- A random generator is an arbitrary stream; a 64-bit word whose bits matter is the list of its bits.
- The target model of the decode loops is a function of the token prefix, a session is that prefix,
  and the draft model and engine failures are arbitrary.
- A file is a byte sequence.

## Where code and comment disagree

The model follows the code.

- `argmax` of the sampler returns the last maximum (`tools/sp_daemon/src/sampler.rs:505-512`); its
  comment says the first. It is the first exactly when the maximum occurs once (`Logits.LastIsFirst`).
  The one in `eagle_accept.rs` returns the first.
- The ledger comment speaks of dedupe by equality (`tools/sp_daemon/src/pouw_ledger.rs:204-206`); the code
  removes nothing, so a replay holds a duplicate exactly when its source does (`ReceiptLedger.DuplicatesStay`).
- The comment on `okf_body` promises to strip a leading "The user said: "
  (`tools/sp_daemon/src/recall.rs:347-350`); the code does not.
- A minimum thought above the maximum leaves a row with every logit at minus infinity at the step where
  both act, and a run stays live exactly when it ends before that (`Sampling.BudgetsLeaveAToken`,
  `Sampling.CrossedExample`).
- A mask is meant to hold at every temperature (`tools/sp_daemon/src/sampler.rs:316-319`), but the request
  body may carry a repetition penalty of zero or below, and at a positive temperature a negative one
  lifts a masked token that was generated before to plus infinity, so that it is drawn
  (`Sampling.CeilingExample`, `Sampling.GuardExample`; exact conditions in `TokenDraw.MasksHoldIff`,
  `Sampling.ChoiceIsLive` and `Sampling.BudgetsLeaveAToken`).
- `sp_tokenizer_encode` returns no ids for an empty text, so no begin token either
  (`src/tokenizer/tokenizer.c:587`); the lane methods below it add one.
- The gemma4 round trip fails on a truncated lead byte before a space (`Gemma4RoundTrip.TruncatedLead`)
  and on U+2581; `Gemma4RoundTrip.RoundTrip` gives the exact condition for every byte string.
- `sp_tokenizer_decode` does not undo the SPM encoder: a space comes back as U+2581, a byte token as its
  spelling, C3 A9 as E9, and the begin token as text (`SpmRoundTrip.Failures`,
  `SpmRoundTrip.BeginTokenStays`; exact condition in `SpmRoundTrip.RoundTrip`).
- A name with a line feed can end or extend the frontmatter of a concept file (`OkfRoundTrip.FenceInName`;
  exact conditions in `OkfRoundTrip.PolicyRoundTrip` and `OkfRoundTrip.BodyRoundTrip`).

## Model

| member | source | states |
|---|---|---|
| OpenTable.StringMap.Put | src/tokenizer/tokenizer.c:43-50 | Entering a key keeps the first value written for it; the slot array refines exactly that map, and a free slot remains |
| OpenTable.StringMap.Get | src/tokenizer/tokenizer.c:51-58 | Probing terminates and answers the value of the map, or the default exactly when the key is absent |
| OpenTable.PairTable.Put | src/tokenizer/gemma4_bpe.c:40-46 | First writer wins on id-pair keys; the free-slot marker is never stored |
| OpenTable.PairTable.Rank | src/tokenizer/gemma4_bpe.c:48-56 | Probing terminates and answers the rank in the map, -1 exactly when the pair is absent |
| OpenTable.FillRefines | src/tokenizer/tokenizer.c:43-50 | Filling the empty slot that ends a probe adds that key and no other, and keeps a free slot, for any hash function |
| OpenTable.MissIsAbsent | src/tokenizer/tokenizer.c:51-58 | Reaching an empty slot proves that the key is in no slot |
| OpenTable.ProbeReaches | src/tokenizer/gemma4_bpe.c:40-46 | Linear probing visits every slot within capacity steps |
| OpenTable.TableCapacity | src/tokenizer/tokenizer.c:35-40 | The doubling loop yields a power of two, at least 16 and at least twice the entries wanted |
| OpenTable.PairKeyInjective | src/tokenizer/gemma4_bpe.c:36-46 | The 64-bit key of two existing ids determines both and is never the free-slot marker |
| Vocab.BuildIndex | src/tokenizer/tokenizer.c:43-58 | A table filled from a list answers, for every string, the first position of that string, or absence |
| MergeLines.FindSplit | src/tokenizer/gemma4_bpe.c:80-90 | The scan finds the first space at index 1 or later |
| MergeLines.JoinSplits | src/tokenizer/tokenizer.c:417-421 | A key joined with a space from a piece free of spaces splits in one way only |
| MergeSpec.Best | src/tokenizer/tokenizer.c:413-428 | The scan of the naive loop picks the lowest-ranked pair, the leftmost of equals, or reports that none is ranked |
| MergeSpec.BestIsUnique | src/tokenizer/tokenizer.c:413-428 | There is one best pair, so every strategy that joins best pairs does the same joins |
| MergeSpec.MergedStep | src/tokenizer/tokenizer.c:413-428 | Joining the best pair does not change the final result |
| MergeSpec.MergedIsFinal | src/tokenizer/tokenizer.c:413-428 | In the final symbols no two neighbours are ranked |
| MergeSpec.MergedText | src/tokenizer/tokenizer.c:413-428 | Merging loses and invents no byte |
| MergeSpec.MergedInduction | src/tokenizer/tokenizer.c:413-428 | What holds of the initial symbols and is kept by every join holds of every final symbol |
| MergeChain.MergedByLine | src/tokenizer/tokenizer.c:413-428 | Where ranks are numbers of merge lines the result is the end of a chain of lists: in each the first line that joins any pair joins its leftmost such pair, and in the last no line joins a pair |
| MergeLaw.LineChainEnds | src/tokenizer/tokenizer.c:413-428 | Such chains from one list end in one list |
| MergeLaw.ScoreChainEnds | src/tokenizer/tokenizer.c:538-547 | So do chains that join the leftmost pair of highest score |
| Symbols.AbsorbLinked | src/tokenizer/gemma4_bpe.c:239-243 | Joining two linked neighbours leaves a linked list that still tiles the buffer, one symbol shorter, consumed records marked |
| Symbols.AbsorbWords | src/tokenizer/gemma4_bpe.c:239-243 | The join concatenates exactly the two spellings and leaves every other symbol as it was |
| Symbols.StillAdjacent | src/tokenizer/gemma4_bpe.c:234-238 | Two live records with no live record between them are neighbours in the list: once neighbours, neighbours while both live |
| Symbols.WordsText | src/tokenizer/gemma4_bpe.c:149-150 | The live symbols spell the rest of the text from any of them on |
| BinaryHeap.Heap.Push | src/tokenizer/gemma4_bpe.c:159-174 | Sifting up keeps the heap order and adds exactly one entry |
| BinaryHeap.Heap.Pop | src/tokenizer/gemma4_bpe.c:175-187 | Removes exactly one entry, and none left comes before it |
| BinaryHeap.Heap.Grow | src/tokenizer/gemma4_bpe.c:160-165 | Doubling the array keeps the contents |
| BinaryHeap.RootIsFirst | src/tokenizer/gemma4_bpe.c:175-187 | Parent order makes the root first among all entries |
| Gemma4Build.Build | src/tokenizer/gemma4_bpe.c:58-130 | Succeeds exactly when the merge count is in range, every line that is not inert resolves in the vocabulary and all 256 byte tokens exist; then the tables are exact |
| EncodeLaw.BuildableIsFit | src/tokenizer/gemma4_bpe.c:58-130 | That condition in full: from 1 to 2^31 - 1 lines, both sides of every split line and their concatenation tokens, all 256 byte names tokens |
| Gemma4Build.AddLine | src/tokenizer/gemma4_bpe.c:80-113 | One merge line keeps every rank exact; it fails exactly when a side or the concatenation is not a token |
| Gemma4Build.RanksNext | src/tokenizer/gemma4_bpe.c:80-113 | First-writer-wins insertion keeps the table equal to "least merge line that spells this pair" |
| Gemma4Build.RankIsLeastLine | src/tokenizer/gemma4_bpe.c:80-113 | After a build a pair's rank is the least merge line spelling it and its result id spells the concatenation; a canonical pair without rank is spelled by no line |
| Gemma4Build.IdIsSpelling | src/tokenizer/gemma4_bpe.c:235-238 | Ids are equal exactly when spellings are, so the staleness test on ids is a test on symbols |
| Fallback.FillByteTokens | src/tokenizer/gemma4_bpe.c:119-128 | Succeeds exactly when all 256 byte spellings are tokens |
| Gemma4Merge.MergeLoop | src/tokenizer/gemma4_bpe.c:232-246 | For every built table the heap and linked-list loop ends with the symbols of the naive specification; it terminates by 3 * live symbols + heap size and queues at most 3 * (symbols - 1) candidates |
| Gemma4Merge.CandidateFate | src/tokenizer/gemma4_bpe.c:232-238 | A popped candidate is either outdated and can be dropped, or names the very pair the specification joins next |
| Gemma4Merge.FreshIsBest | src/tokenizer/gemma4_bpe.c:233-238 | A candidate whose two ids are unchanged is the best pair, the leftmost on ties |
| Gemma4Merge.DropStale | src/tokenizer/gemma4_bpe.c:233-238 | Dropping an outdated candidate loses no joinable pair |
| Gemma4Merge.MergeEffect | src/tokenizer/gemma4_bpe.c:239-245 | One join and its two re-queued neighbours restore the whole invariant |
| Gemma4Merge.NothingLeft | src/tokenizer/gemma4_bpe.c:232-246 | With the queue empty no neighbours may be joined |
| Gemma4Merge.TryPair | src/tokenizer/gemma4_bpe.c:195-205 | Queues exactly the candidate of a ranked pair |
| Gemma4Encode.Cut | src/tokenizer/gemma4_bpe.c:219-228 | The initial symbols are the text cut by claimed lead-byte lengths, each with the id of its spelling, in an array that is large enough |
| Gemma4Encode.Piece | src/tokenizer/gemma4_bpe.c:208-259 | A piece emits the fully merged symbols, byte tokens for unknown ones, a newline run atomically when it is a token; what these ids are in terms of the merge lines is EncodeLaw.Gemma4KeepsLaw |
| Gemma4Encode.Fragment | src/tokenizer/gemma4_bpe.c:263-284 | Escapes spaces, cuts alternating newline runs and other text, and emits their ids in order |
| Gemma4Encode.Encode | src/tokenizer/gemma4_bpe.c:286-314 | Special surfaces and fragments in text order after the optional begin token; ids beyond the capacity are counted; the law of these ids is EncodeLaw.Gemma4KeepsLaw |
| Gemma4Encode.RunEnd | src/tokenizer/gemma4_bpe.c:275-281 | A run is maximal: all of one kind, ended by the other kind or the end |
| EncodeLaw.Gemma4KeepsLaw | src/tokenizer/gemma4_bpe.c:208-314 | For every byte string, from the text, the token list and the merge lines alone: cut at the first listed special at each place, spaces written as U+2581, maximal newline runs and the rest apart; a newline run that is a token gives its id, every other run the ids of the words at the end of the chain of line joins from its characters, one byte name per byte for a word that is no token |
| EncodeLaw.SegmentsAreCut | src/tokenizer/tokenizer.c:605-622 | The segments are a cut with no special starting inside a text piece and the first listed one taken where one starts |
| CutOnce.OneCut | src/tokenizer/tokenizer.c:605-622 | There is no other such cut |
| Gemma4Decode.Decode | src/tokenizer/gemma4_bpe.c:328-353 | For any ids, valid or not, the text is that of the specification and the buffer is cut off and terminated |
| Gemma4Decode.PutUnescaped | src/tokenizer/gemma4_bpe.c:343-350 | The scan turns each U+2581 met into a space and copies everything else |
| DecodeLaw.Gemma4DecodeKeepsLaw | src/tokenizer/gemma4_bpe.c:328-353 | For any ids, from the spellings alone: nothing for ids out of range and skipped ones, one byte for a name with two hexadecimal digits of either case, else each U+2581 a space and each other byte itself, in order |
| Gemma4RoundTrip.DecodeEncode | src/tokenizer/gemma4_bpe.c:286-353 | For any bytes of which no broken symbol is a token, decoding the encoding gives what the symbols cut from the escaped text read as |
| Gemma4RoundTrip.DecodeEncodeWellFormed | src/tokenizer/gemma4_bpe.c:286-353 | For well-formed UTF-8 (section 4 of RFC 3629), whatever the tokens are, every U+2581 comes back as a space and nothing else changes |
| Gemma4RoundTrip.RoundTripWellFormed | src/tokenizer/gemma4_bpe.c:286-353 | The round trip returns a well-formed text exactly when it contains no U+2581 |
| Gemma4Reading.KeptIff | src/tokenizer/gemma4_bpe.c:144-147 | For every byte string: its symbols read as itself exactly when no symbol reaches a space or is U+2581, a scan a caller can do |
| Gemma4Reading.KeptWellFormed | src/tokenizer/gemma4_bpe.c:144-147 | For well-formed text that scan is the absence of U+2581 |
| Gemma4Reading.CutRun | src/tokenizer/gemma4_bpe.c:263-284 | Cutting run by run is one pass over the escaped text |
| Gemma4RoundTrip.RoundTrip | src/tokenizer/gemma4_bpe.c:286-353 | For every byte string, with well-formed tokens: it comes back exactly when it is kept (Gemma4Reading.Kept) |
| Gemma4RoundTrip.TruncatedLead | src/tokenizer/gemma4_bpe.c:144-147 | A truncated lead byte before a space swallows the first byte of the escaped space: the two-byte text C3 20 does not come back |
| Gemma4RoundTrip.DecodeSpecials | src/tokenizer/gemma4_bpe.c:286-353 | With special parsing on, any byte string comes back segment by segment: texts as they read, specials as their token text |
| Gemma4RoundTrip.RoundTripSpecials | src/tokenizer/gemma4_bpe.c:286-353 | So a text comes back exactly when every piece between specials is kept and every special found is neither skipped, nor spelled like a byte token, nor holds U+2581: any well-formed text, and any byte string when all listed specials are such |
| Gemma4Reading.EscapeFolds | src/tokenizer/gemma4_bpe.c:269-273 | Escaping a well-formed text keeps it well formed and only identifies spaces with U+2581 |
| Text.EscapeSpaces | src/tokenizer/gemma4_bpe.c:268-273 | The in-place normaliser writes U+2581 for each space within 3 * len + 1 bytes |
| Text.Sink.Emit | src/tokenizer/gemma4_bpe.c:189-193 | Every id is counted and only those that fit are stored |
| Text.SinkComplete | src/tokenizer/tokenizer.c:393-399 | The count tells whether the stored ids are all of them |
| Text.Buffer.Put | src/tokenizer/gemma4_bpe.c:317-320 | Bytes beyond the capacity are counted but not stored |
| Specials.Split | src/tokenizer/tokenizer.c:605-622 | The scan cuts the text at the first listed special at each position; with parsing off the text is one segment |
| Specials.SegmentsText | src/tokenizer/tokenizer.c:605-624 | Segments and surfaces tile the text |
| Specials.LongestFirst | src/tokenizer/tokenizer.c:87-92 | With the list sorted longest first the special taken is a longest one that matches |
| Specials.WholeSegments | src/tokenizer/tokenizer.c:605-624 | Specials with well-formed surfaces cut a well-formed text between characters only |
| SpmMerge.MergeLoop | src/tokenizer/tokenizer.c:538-547 | The score heap loop ends with the symbols of the naive specification under "highest score, leftmost on ties"; no more than 3 * (symbols - 1) candidates are ever queued |
| SpmMerge.FreshIsCandidate | src/tokenizer/tokenizer.c:541-541 | Equal summed length alone makes a candidate current, because live symbols only grow and stay contiguous |
| SpmMerge.FreshIsBest | src/tokenizer/tokenizer.c:538-541 | A current candidate is the best pair |
| SpmMerge.CandidateFate | src/tokenizer/tokenizer.c:538-547 | A popped candidate is dropped without loss or is the pair the specification joins next |
| SpmMerge.DropStale | src/tokenizer/tokenizer.c:538-541 | Dropping an outdated candidate loses no joinable pair |
| SpmMerge.MergeEffect | src/tokenizer/tokenizer.c:542-546 | One join and its re-queued neighbours restore the invariant |
| Spm.QueueAll | src/tokenizer/tokenizer.c:518-537 | The heap of 4 * len + 16 entries takes every initial pair |
| Spm.Fragment | src/tokenizer/tokenizer.c:506-557 | A fragment emits the fully merged symbols, byte tokens for unknown ones; the heap is never overrun |
| Spm.Encode | src/tokenizer/tokenizer.c:560-582 | Specials and fragments in text order after the optional begin token |
| EncodeLaw.SpmKeepsLaw | src/tokenizer/tokenizer.c:506-582 | For every byte string, from the text, the tokens and their scores alone: after the begin token, for each segment the ids of the words at the end of the chain that joins the leftmost pair spelling a token of highest score, until no pair spells one |
| SpmRoundTrip.DecodeEncode | src/tokenizer/tokenizer.c:274-301 | For every byte string, with well-formed tokens (and for well-formed text under any tokens): the begin token comes back as its spelling, and each initial symbol by itself, a space as U+2581, a mapped character as one byte, a symbol without token as the names of its byte tokens |
| SpmRoundTrip.RoundTrip | src/tokenizer/tokenizer.c:274-301 | Without begin token a byte string comes back exactly when it is well formed and each character is a token, no space, and not mapped to a byte by the byte-level alphabet |
| SpmRoundTrip.BeginTokenStays | src/tokenizer/tokenizer.c:560-565 | With a begin token spelled in printable ASCII no text comes back |
| SpmRoundTrip.NeverCatchesUp | src/tokenizer/tokenizer.c:274-301 | Printable text in front of the decoding of a text never equals the text |
| SpmRoundTrip.Failures | src/tokenizer/tokenizer.c:274-301 | The smallest failures, decoded from their encodings: a space gives U+2581, C3 A9 gives E9, and a printable byte that is no token gives its name |
| SpmRoundTrip.BrokenExample | src/tokenizer/tokenizer.c:506-557 | A lead byte cut off by a space: C3 20 comes back as the names of C3 E2 96 81 |
| SpmRoundTrip.MergedSymbols | src/tokenizer/tokenizer.c:506-557 | Merging joins whole symbols only, never a broken one, and keeps what the symbols come back as |
| SpmRoundTrip.DecodeSpecials | src/tokenizer/tokenizer.c:560-582 | With special parsing on, any byte string comes back segment by segment: texts as above, specials as the spelling of their token |
| PreTokenizer.FindRange | src/tokenizer/tokenizer.c:308-316 | The binary search decides membership in sorted ranges |
| PreTokenizer.NextPiece | src/tokenizer/tokenizer.c:342-389 | For every text and start: exactly the first match, under ordered alternation and greedy backtracking, of the seven-alternative expression, never empty; and a piece in the sense of PreTokenizer.IsPiece, which speaks of codepoints and ranges only |
| PreTokenizer.PieceIsMatch | src/tokenizer/tokenizer.c:342-389 | The tests in their order find exactly the first match |
| PreTokenizer.MatchIsPiece | src/tokenizer/tokenizer.c:335-389 | The match of the expression is a piece as described in codepoints: an apostrophe suffix, a word after at most one lead, one number, signs and line ends after at most one space, or white space up to its last line end |
| PreTokenizer.OnePiece | src/tokenizer/tokenizer.c:342-389 | One piece starts at each place |
| PreTokenizer.LineEndPiece | src/tokenizer/tokenizer.c:379-384 | A piece that starts with CR or LF is white space up to the last line end of the white run, where no codepoint is in two tables |
| PreTokenizer.LetterPieceShape | src/tokenizer/tokenizer.c:343-362 | A piece with a letter is an apostrophe suffix, or letters after at most one lead that is no line end, letter or number |
| PreTokenizer.NumberPieceShape | src/tokenizer/tokenizer.c:363-364 | A piece with a number, if no suffix, is that one codepoint |
| PreTokenizer.SignPieceShape | src/tokenizer/tokenizer.c:365-378 | A piece with punctuation, if no suffix or word, is punctuation then line ends, after at most one space |
| PreTokenizer.QwenMatch | src/tokenizer/tokenizer.c:335-389 | The order of the tests is the order of the alternatives |
| PreTokenizer.QwenProgress | src/tokenizer/tokenizer.c:342-389 | Every non-empty rest of a text has a non-empty match |
| PreTokenizer.Alt1Match | src/tokenizer/tokenizer.c:343-351 | The contraction tests find the match of the first alternative, in either letter case |
| PreTokenizer.Alt2Match | src/tokenizer/tokenizer.c:352-362 | The letter test with one optional leading character |
| PreTokenizer.Alt4Match | src/tokenizer/tokenizer.c:365-378 | The punctuation test with optional leading space and trailing newlines |
| PreTokenizer.Alt5Match | src/tokenizer/tokenizer.c:379-388 | Backtracking over white space stops after the last newline of the run |
| PreTokenizer.Alt6Match | src/tokenizer/tokenizer.c:379-388 | The negative lookahead gives back one character unless the run ends the text |
| PreTokenizer.SpaceMatch | src/tokenizer/tokenizer.c:379-388 | One scan of the run decides between the three white-space alternatives |
| Gpt2Bytes.BuildByteMaps | src/tokenizer/tokenizer.c:68-85 | The two tables are the alphabet and its inverse |
| Gpt2Bytes.AlphabetBijection | src/tokenizer/tokenizer.c:68-85 | Bytes and used codepoints correspond one to one |
| Gpt2Bytes.SpellingRoundTrip | src/tokenizer/tokenizer.c:274-301 | Any bytes, valid UTF-8 or not, decode back from their byte-level spelling |
| Gpt2.FindBest | src/tokenizer/tokenizer.c:414-424 | The scan over merge keys finds the best pair of the specification: the leftmost pair joined by the first line that joins any, and reports none exactly when no line joins a pair |
| Gpt2.KeyRanksByLine | src/tokenizer/tokenizer.c:414-424 | The rank of a pair is the number of the first line that is its two symbols with a space between |
| Gpt2.JoinAt | src/tokenizer/tokenizer.c:425-427 | Shifting offsets and lengths left joins exactly one pair and keeps the tiling |
| Gpt2.MergeSymbols | src/tokenizer/tokenizer.c:413-428 | The rescanning loop ends with the specification's symbols |
| Gpt2.BpePiece | src/tokenizer/tokenizer.c:401-436 | Emits the ids of the final symbols; fails exactly when one of them is no token; which symbols these are is Gpt2Law.PieceKeepsLaw |
| Gpt2.EncodeText | src/tokenizer/tokenizer.c:439-464 | Emits all pieces in order; fails exactly when some final symbol is no token |
| Gpt2.PiecesText | src/tokenizer/tokenizer.c:455-461 | The pieces partition the text |
| Gpt2RoundTrip.Encode | src/tokenizer/tokenizer.c:603-628 | The whole GPT2 branch equals its specification, failure included |
| Gpt2Law.Gpt2KeepsLaw | src/tokenizer/tokenizer.c:603-628 | For every byte string, from the text, the tables, the merge lines and the tokens alone: the ids, or failure, are those of the segments in order |
| Gpt2Law.TextKeepsLaw | src/tokenizer/tokenizer.c:439-464 | A text is read as codepoints, cut into pieces, each piece joined to its words, and every word gives its id, or some word is no token and encoding fails |
| Gpt2Law.PieceKeepsLaw | src/tokenizer/tokenizer.c:401-436 | The words of a piece end a chain of line joins that starts from its bytes' symbols |
| Gpt2Law.OnePieceWords | src/tokenizer/tokenizer.c:413-428 | A piece has one such list of words |
| Gpt2Law.AlphabetIs | src/tokenizer/tokenizer.c:68-85 | Shown bytes are their own codepoint, the others take those from U+0100 on in order |
| Gpt2Law.DecodesUtf8 | src/tokenizer/tokenizer.c:326-333 | Every codepoint encoded as in section 3 of RFC 3629 is read back, whatever follows |
| SpellingDecode.Decode | src/tokenizer/tokenizer.c:274-301 | The decoding loop equals its specification for any ids |
| DecodeLaw.SpellingDecodeKeepsLaw | src/tokenizer/tokenizer.c:274-301 | For any ids, from the spellings alone: each codepoint gives the byte it stands for, or its own bytes if it stands for none |
| Gpt2RoundTrip.RoundTrip | src/tokenizer/tokenizer.c:274-301 | Whenever encoding succeeds, decoding gives back the bytes, valid UTF-8 or not |
| Gpt2RoundTrip.RoundTripSpecials | src/tokenizer/tokenizer.c:274-301 | With special parsing on, whenever encoding succeeds a byte string comes back exactly when every special found in it reads as itself in the byte-level alphabet |
| Gpt2RoundTrip.TotalRoundTrip | src/tokenizer/tokenizer.c:401-464 | With 256 byte symbols and every merge concatenation in the vocabulary encoding never fails and every byte string survives |
| Gpt2RoundTrip.TextWordsSpell | src/tokenizer/tokenizer.c:401-464 | No final symbol ends inside an encoded byte, and together they spell the text |
| MoePool.RunInv | src/backends/cuda/moe_cpu_expert.c:183-210 | The protocol invariant holds after every interleaving of caller and workers |
| MoePool.SeenIsRecent | src/backends/cuda/moe_cpu_expert.c:188-202 | A worker's generation is always the current one or the one before, wrap-around included |
| MoePool.NoTornRead | src/backends/cuda/moe_cpu_expert.c:275-288 | No worker reads the job or the activation while the caller refills the one or stores the other; none ever read a job half stored |
| MoePool.EveryRowOnce | src/backends/cuda/moe_cpu_expert.c:183-210 | When the wait loop has ended every row was written exactly once: by the one thread that owns it, from the codes and the activation of the current job |
| MoePool.WaitIsExact | src/backends/cuda/moe_cpu_expert.c:204-210 | The wait ends exactly when every worker has reported the current job |
| MoePool.NeverStuck | src/backends/cuda/moe_cpu_expert.c:188-210 | A waiting caller may go on, or some worker has an enabled step that lowers the work left; no lost wake-up |
| MoePool.WorkNeverGrows | src/backends/cuda/moe_cpu_expert.c:188-202 | No worker step, spurious wake-ups included, raises the work left, and every step of an unfinished worker lowers it |
| MoePool.WaitEnds | src/backends/cuda/moe_cpu_expert.c:188-210 | However the workers are scheduled while the caller waits: the unfinished ones take at most as many steps as there is work left, and once they took that many the wait is over |
| MoePool.SharesDisjoint | src/backends/cuda/moe_cpu_expert.c:183-186 | Shares do not overlap |
| MoePool.ShareOf | src/backends/cuda/moe_cpu_expert.c:183-186 | Every row lies in some share |
| MoePool.ReadJobInv | src/backends/cuda/moe_cpu_expert.c:197-198 | The job a worker reads is whole, and reading it keeps the invariant |
| MoePool.ReportInv | src/backends/cuda/moe_cpu_expert.c:199-199 | The done counter counts exactly the finished workers |
| MoePool.BumpInv | src/backends/cuda/moe_cpu_expert.c:205-206 | Raising the generation turns every finished worker into a late one |
| MoeLanes.BiasedLane | src/backends/cuda/moe_cpu_expert.c:140-145 | Biasing nibbles by 8, multiplying as unsigned bytes and subtracting 8 times the activations leaves the signed dot of four bytes |
| MoeLanes.GroupSumsAt | src/backends/cuda/moe_cpu_expert.c:140-146 | After the adjacent-pair add a lane pair holds the signed dot of eight bytes |
| MoeLanes.LanesFit | src/backends/cuda/moe_cpu_expert.c:143-145 | No accumulator comes near 32 bits |
| MoeGemv.ActxFromQ | src/backends/cuda/moe_cpu_expert.c:109-126 | Activations split by parity, corrections, masks and zero-padded scales are as the row loop needs them |
| MoeGemv.PairDot | src/backends/cuda/moe_cpu_expert.c:139-149 | Eight packed bytes of a group give the exact dot of sixteen weights |
| MoeGemv.PicksDots | src/backends/cuda/moe_cpu_expert.c:131-148 | The lane permutations put the two half-chunk dots of chunk 4g + i at place i |
| MoeGemv.DotIsExactFloat | src/backends/cuda/moe_cpu_expert.c:158-159 | Half-chunk dots stay below 2^24 in magnitude, so their conversion to float is exact |
| MoeGemv.FoldBlock | src/backends/cuda/moe_cpu_expert.c:151-166 | Masked blocks fold chunk c into lane c mod 32 in increasing order, tails untouched |
| MoeGemv.LaneBlock | src/backends/cuda/moe_cpu_expert.c:150-166 | Between two multiples of 32 a lane receives one chunk at most |
| MoeGemv.Reduce | src/backends/cuda/moe_cpu_expert.c:167-170 | The in-place halving loop is the 16-8-4-2-1 tree |
| MoeGemv.RowExact | src/backends/cuda/moe_cpu_expert.c:136-171 | A row is the scalar reference, operation by operation; what order that is says MoeOrder.ReferenceInOrder, what number MoeValue.ReferenceValue |
| MoeGemv.GemvRowsExact | src/backends/cuda/moe_cpu_expert.c:127-172 | Exactly the rows asked for are written, each with the scalar reference |
| MoeValue.Gemv | src/backends/cuda/moe_cpu_expert.c:275-288 | Every width that is a multiple of 32 up to 4096 gives all rows, each of which stands for the sum over k of chunk scale, half-chunk scale, signed nibble and activation k; others are refused and leave the output alone. Shares run in turn here; MoeRun.Replay has every interleaving |
| MoeValue.RowIsSum | src/backends/cuda/moe_cpu_expert.c:136-171 | With the operations carried out over the reals, for any value of the inputs: row r is the sum over k of half(bs[k / 32]) * sx[k / 16] * nibble k * qx[k] |
| MoeValue.ReferenceValue | src/backends/cuda/moe_cpu_expert.c:150-171 | The scalar reference of one row stands for that sum |
| MoeOrder.ReferenceInOrder | src/backends/cuda/moe_cpu_expert.c:149-171 | A float is the reference exactly when it comes about so: in each of 32 lanes chunks l, l + 32, .. fused one after the other onto zero, first half over the product of the second, and the lanes halved five times, upper half plus lower half |
| MoeRun.Replay | src/backends/cuda/moe_cpu_expert.c:275-288 | Any interleaving of caller and workers, run on a real activation buffer and output array: whenever it ends with the wait of a call over, every row of the output is the scalar reference of that call and stands for the sum over its weights |
| MoeRun.Perform | src/backends/cuda/moe_cpu_expert.c:275-288 | Each step carries out its writes and keeps every row written so far at the reference of the published job; a row step runs the vector code on what the buffer then holds |
| MoeRun.RowIsCurrent | src/backends/cuda/moe_cpu_expert.c:183-187 | A row is written for the published job and inside its rows, by whichever thread |
| MemoRouting.ShuffleInjective | tools/sp_daemon/src/memo_routing.rs:185-200 | Different draw vectors give different permutations |
| MemoRouting.ShuffleSurjective | tools/sp_daemon/src/memo_routing.rs:185-200 | Every permutation is reached by some draw vector |
| MemoRouting.DrawsArePermutations | tools/sp_daemon/src/memo_routing.rs:185-200 | Draw vectors and permutations of the heads correspond one to one |
| MemoUniform.SubsetsAreUniform | tools/sp_daemon/src/memo_routing.rs:185-206 | Every set of k heads is made active by equally many draw vectors |
| MemoUniform.MaskIsActive | tools/sp_daemon/src/memo_routing.rs:189-206 | The bits of a layer mask are exactly the heads its draw vector makes active |
| MemoRouting.Shuffle | tools/sp_daemon/src/memo_routing.rs:189-200 | The in-place loop performs exactly the swaps of the drawn vector |
| MemoRouting.LayerMask | tools/sp_daemon/src/memo_routing.rs:178-206 | A layer mask is the bitmap of the first k shuffled heads: k bits, none at n_heads or above |
| MemoRouting.MaskHas | tools/sp_daemon/src/memo_routing.rs:202-205 | A head's bit is set exactly when the head is listed |
| MemoRouting.ComputeMemoryRouting | tools/sp_daemon/src/memo_routing.rs:161-214 | Every layer mask has exactly k bits and obeys the law of one layer; the three argument errors in the order the code tests them |
| MemoRouting.LayerKeepsLaw | tools/sp_daemon/src/memo_routing.rs:178-206 | A layer mask is exactly this: from the heads in order, position n - 1 - t exchanged with the one that output t + 1 of the generator names modulo n - t, and the bits of the first k |
| MemoRouting.XorCounts | tools/sp_daemon/src/memo_routing.rs:70-78 | |x xor y| + 2 |x and y| = |x| + |y| |
| MemoRouting.HammingIsEven | tools/sp_daemon/src/memo_routing.rs:62-78 | Masks of one shape and k differ in an even number of bits, at most 2k a layer; the total of active heads is layers times k |
| Sampling.Argmax | tools/sp_daemon/src/sampler.rs:505-512 | A maximum, and the last one (the comment says the first) |
| Logits.LastIsFirst | tools/sp_daemon/src/sampler.rs:503-512 | The last maximum is the first exactly when the maximum occurs once |
| Logits.TieGoesLast | tools/sp_daemon/src/sampler.rs:503-512 | On two equal logits the two choices differ |
| Sampling.BanRepeatNgram | tools/sp_daemon/src/sampler.rs:478-501 | Masks exactly the tokens that follow an earlier copy of the last n - 1 tokens |
| Sampling.BanIsExact | tools/sp_daemon/src/sampler.rs:478-501 | Those are exactly the tokens that would repeat an n-gram |
| Sampling.Sampler.Mask | tools/sp_daemon/src/sampler.rs:265-370 | Exactly the dead tokens go to minus infinity and every other logit is untouched |
| Sampling.MaskLaw | tools/sp_daemon/src/sampler.rs:265-370 | From the configuration, the history and the clock alone: which logits are at minus infinity after the masks, and that the others are as they came |
| Sampling.Sampler.Sample | tools/sp_daemon/src/sampler.rs:265-470 | From the masked row, for every penalty and temperature: the last maximum at temperature zero and below, else a draw from the penalised, cooled, truncated softmax, which obeys DrawLaw.DrawLaw where some token is unmasked and none revived |
| DrawLaw.DrawKeepsLaw | tools/sp_daemon/src/sampler.rs:372-470 | From row, history, parameters and random number alone: logits after the penalties over the temperature, the best top-k by falling score, probabilities that sum to one in the proportion of exp of the distance to the best, the fewest first ones that hold top-p, and the token in whose share the number falls |
| DrawLaw.TemperatureDivides | tools/sp_daemon/src/sampler.rs:401-439 | For kept tokens i and j never generated: prob[i] * exp((l_j - m) / T) = prob[j] * exp((l_i - m) / T), m the best kept logit |
| DrawLaw.RepetitionLowers | tools/sp_daemon/src/sampler.rs:385-394 | A repetition penalty above one lowers a generated token's logit, or leaves it at zero |
| DrawLaw.RepetitionRaises | tools/sp_daemon/src/sampler.rs:385-394 | One between zero and one raises it, or leaves it at zero |
| DrawLaw.FrequencyLowers | tools/sp_daemon/src/sampler.rs:395-397 | A frequency penalty f takes f from a token for each time it was generated |
| DrawLaw.FewerThanTopK | tools/sp_daemon/src/sampler.rs:407-424 | With top-k on, fewer than top-k tokens score above the drawn one |
| TokenDraw.Penalise | tools/sp_daemon/src/sampler.rs:372-399 | Over the history, each generated token of the row is penalised once for repetition and once per occurrence for frequency, whatever the order; a penalty of zero or below gives the infinities and the NaN of the code |
| TokenDraw.Choose | tools/sp_daemon/src/sampler.rs:426-470 | The candidate on which the share u of the nucleus falls, the nucleus being the fewest first candidates that hold probability top-p; the first candidate when the weights have no finite sum |
| TokenDraw.Nucleus | tools/sp_daemon/src/sampler.rs:441-454 | The scan finds that fewest number |
| TokenDraw.Pick | tools/sp_daemon/src/sampler.rs:459-470 | The scan stops at the candidate the number falls on; the fall-through is never taken |
| TokenDraw.OneCandidate | tools/sp_daemon/src/sampler.rs:456-470 | Every number below one falls on exactly one candidate |
| TokenDraw.ShareIsProportional | tools/sp_daemon/src/sampler.rs:456-470 | The numbers that choose a candidate are an interval as long as its share of the nucleus |
| TokenDraw.DrawIsFunctional | tools/sp_daemon/src/sampler.rs:426-470 | One number draws one token from one list of candidates |
| TokenDraw.RankingKeepsLikeliest | tools/sp_daemon/src/sampler.rs:407-424 | No token cut off by top-k exceeds one that is kept, if every score is a number or infinite |
| TokenDraw.DrawAvoidsMasks | tools/sp_daemon/src/sampler.rs:372-470 | For every history, penalty other than zero, temperature, top-k, top-p and random number: with some token unmasked, an unmasked one is drawn exactly when the repetition penalty is positive or no masked token was generated before; at a negative penalty a masked token generated before comes out instead |
| TokenDraw.MasksHoldIff | tools/sp_daemon/src/sampler.rs:372-470 | For every penalty, zero included: no draw from the row is masked exactly when the repetition penalty is positive or no masked token was generated before |
| TokenDraw.ShapedMask | tools/sp_daemon/src/sampler.rs:372-399 | A masked token stays at minus infinity, rises to plus infinity, or is no number, as the penalty is positive, negative or zero and the token was generated before |
| TokenDraw.ZeroMayDrawMasked | tools/sp_daemon/src/sampler.rs:401-437 | At penalty zero a masked token generated before may come first, because its score compares with nothing, and is then drawn |
| Sampling.Sampler.Observe | tools/sp_daemon/src/sampler.rs:248-257 | The close flag means that the close token is in the history |
| Sampling.ChoiceIsLive | tools/sp_daemon/src/sampler.rs:265-470 | Greedy or drawn, at every penalty other than zero: with some token live, the choice is live exactly when the masks hold or no token that may not be chosen was generated before |
| Sampling.ChoiceMayBeMasked | tools/sp_daemon/src/sampler.rs:265-470 | At every penalty of zero or below: if a token that may not be chosen was generated before, some random number draws such a token |
| Sampling.Generate | tools/sp_daemon/src/sampler.rs:247-470 | A sample-then-observe run at any temperature and penalty: each choice keeps to the masks or is a revived token, as ChoiceIsLive tells, and the forced flag tells whether the ceiling fired |
| Sampling.LiveRuns | tools/sp_daemon/src/sampler.rs:247-470 | Of the sampled runs the live ones are those whose every row held a live token and revived none (at penalty zero these are live, and others may be) |
| Sampling.NoNgramRepeats | tools/sp_daemon/src/sampler.rs:359-369 | At any temperature and penalty, with n >= 2, no n-gram ending at the choice from a row that holds a live token and revives none occurs earlier in prompt and history |
| Sampling.CloseIsInWindow | tools/sp_daemon/src/sampler.rs:301-351 | At any temperature a run longer than the maximum emits its first close token between minimum and maximum, if the repetition penalty is positive or the choice greedy, or if it closed before the maximum |
| Sampling.NegativeNeverCloses | tools/sp_daemon/src/sampler.rs:301-399 | Otherwise, at a negative penalty: a run that did not close before the maximum never closes, repeats tokens of its first ones from then on, and the ceiling masks every step |
| Sampling.CeilingFiresOnce | tools/sp_daemon/src/sampler.rs:325-351 | The ceiling masks at most one step of a run whose minimum is not above its maximum if the penalty is positive or the choice greedy; at a negative penalty it masks no step or every one from the maximum on, and the lemma says when |
| Sampling.RowSurvives | tools/sp_daemon/src/sampler.rs:301-351 | A row keeps a live token exactly when floor and ceiling do not both act on it |
| Sampling.BudgetsLeaveAToken | tools/sp_daemon/src/sampler.rs:301-351 | With a positive penalty or greedy choice a sampled run stays live exactly when the minimum is not above the maximum, the maximum is off, or the run ends by the maximum; at a negative penalty exactly when it closed before the maximum, the maximum is off, or it ends by it |
| Sampling.CrossedBudgets | tools/sp_daemon/src/sampler.rs:301-351 | With the minimum above the maximum no live run passes the maximum, whatever guard, clock and suppression do |
| Sampling.CrossedExample | tools/sp_daemon/src/sampler.rs:301-351 | Maximum 1, minimum 2: the second row of two tokens is masked away and its last id comes out |
| Sampling.CeilingExample | tools/sp_daemon/src/sampler.rs:325-399 | Penalty below zero, maximum 1: after one token of two that is not the close token, that token comes again |
| Sampling.GuardExample | tools/sp_daemon/src/sampler.rs:359-399 | Penalty below zero, guard for pairs: after one token twice it comes a third time, so a pair repeats |
| Eagle.Run | tools/sp_daemon/src/eagle_accept.rs:880-1035 | Whatever the draft and the engine failures: every emitted token is the target's first maximum after those before it and no end token, their number the sum of max(1, accepted), at most n_decode - 1 + max(1, K); each accepted count is that of the leading drafts that repeat the target, each single hit a first draft that does; without failure it stops only at the limit or before an end token |
| Eagle.Verify | tools/sp_daemon/src/eagle_accept.rs:1011-1034 | A round accepts exactly the leading drafts the target agrees with and commits the target's token when the first one misses |
| Eagle.Advance | tools/sp_daemon/src/eagle_accept.rs:936-942 | Decode, suppress, take the first maximum |
| Eagle.ChoiceIsNext | tools/sp_daemon/src/eagle_accept.rs:936-942 | The token taken is the one whose unsuppressed logit is no lower than any other and above those of all smaller ids |
| Eagle.GreedyFollows | tools/sp_daemon/src/eagle_accept.rs:977-1035 | A text is the specified greedy continuation exactly when each of its tokens is that one after those before it |
| Eagle.BestIsFirstMax | tools/sp_daemon/src/eagle_accept.rs:839-848 | This argmax returns the first of equal maxima |
| Eagle.RunsAgree | tools/sp_daemon/src/eagle_accept.rs:977-1035 | Of two outputs on one prompt that follow the target one begins the other, whatever draft and K |
| Eagle.EndedRunsAreEqual | tools/sp_daemon/src/eagle_accept.rs:977-1035 | Runs that reached an end token emitted the same text |
| Kairos.DecodeDecision | tools/sp_daemon/src/kairos_runner.rs:182-209 | The bounded greedy loop with early stop equals its specification, session contents included |
| KairosLaw.DecisionKeepsLaw | tools/sp_daemon/src/kairos_runner.rs:182-209 | A decision has a text and leaves a session exactly so: greedy tokens, up to 24 and none an end token, until the text says a closing tag or a no-op; the token that decides is not in the session |
| Kairos.ReplyLaw | tools/sp_daemon/src/kairos_runner.rs:98-110 | A reply that says <ACTION> is an action, else one that says NO_OP or NOOP is idle, else it is malformed, letters in either case |
| Kairos.CaseIsFree | tools/sp_daemon/src/kairos_runner.rs:101-110 | The case of letters changes no decision, and not where decoding stops |
| Kairos.RunTicks | tools/sp_daemon/src/kairos_runner.rs:296-346 | Log, final session and failure are those of the specification, and the counters fit the log |
| KairosLaw.TicksKeepLaw | tools/sp_daemon/src/kairos_runner.rs:296-346 | A run's log obeys the law of ticks from context to context: record, position and the session with idle ticks taken back |
| KairosLaw.LawfulIsRun | tools/sp_daemon/src/kairos_runner.rs:296-346 | And a log that obeys it is the log of the run |
| Kairos.IdleTicksLeaveNoTrace | tools/sp_daemon/src/kairos_runner.rs:299-327 | Deleting any NO_OP ticks from the tape leaves every other record and the final session unchanged |
| Kairos.SessionIsKeptTicks | tools/sp_daemon/src/kairos_runner.rs:318-327 | The session is always the contract followed by what the kept ticks left, in order |
| Kairos.IdleTapeIsFlat | tools/sp_daemon/src/kairos_runner.rs:318-327 | A tape decided NO_OP throughout leaves the session at the contract |
| Kairos.DecideExtends | tools/sp_daemon/src/kairos_runner.rs:182-209 | A decision only appends to the session, at most its frame and 24 tokens |
| Kairos.StoppedAtMarker | tools/sp_daemon/src/kairos_runner.rs:101-110 | Text that ended decoding at a no-op marker is never classified as malformed |
| Kairos.ObservedOk | tools/sp_daemon/src/kairos_runner.rs:123-134 | Each counter counts its kind of tick and together they sum to the tick count |
| Kairos.TapeStuck | tools/sp_daemon/src/kairos_runner.rs:310-311 | An engine failure on a tick fails the run |
| ReceiptLayout.ReadWritten | tools/sp_daemon/src/dialogue.rs:123-135 | Reading back the 64 bytes of a receipt gives the receipt |
| ReceiptLayout.WriteRead | tools/sp_daemon/src/pouw_ledger.rs:397-409 | Writing what was read gives back any 64 bytes |
| ReceiptLayout.Layout | tools/sp_daemon/src/dialogue.rs:41-63 | The place of each field in the 64 bytes, numbers with the low byte first |
| ReceiptLayout.StampIsLocal | tools/sp_daemon/src/dialogue.rs:178-191 | Stamping a rank changes bytes 61 and 62 only, and the rank reads back |
| ReceiptLayout.Mint | tools/sp_daemon/src/dialogue.rs:99-120 | A fresh receipt has the sentinel, rank zero and the given fields; a count that does not fit is the largest that does |
| ReceiptLedger.WriteRecords | tools/sp_daemon/src/pouw_ledger.rs:298-330 | A file that reads without fault is the writing of its records |
| ReceiptLedger.ReadRecords | tools/sp_daemon/src/pouw_ledger.rs:298-330 | Written records read back |
| ReceiptLedger.LedgerIter.Next | tools/sp_daemon/src/pouw_ledger.rs:298-330 | Each record once, the first fault once with its index, then nothing |
| ReceiptLedger.Ledger.Append | tools/sp_daemon/src/pouw_ledger.rs:141-148 | Appends 64 bytes and returns the old length |
| ReceiptLedger.Ledger.Collect | tools/sp_daemon/src/pouw_ledger.rs:166-175 | All records, or the first fault |
| ReceiptLedger.Ledger.CanonicalSort | tools/sp_daemon/src/pouw_ledger.rs:221-231 | The records by ascending rank and then hash, those alike in source order, or the fault |
| ReceiptLedger.Ledger.ReplayCanonicalInto | tools/sp_daemon/src/pouw_ledger.rs:246-252 | Appends the sorted records; writes nothing when the source has a fault |
| ReceiptLedger.Ledger.ReplayFrom | tools/sp_daemon/src/pouw_ledger.rs:348-357 | A sound source is copied byte for byte; otherwise exactly the records before the fault |
| ReceiptLedger.Ledger.BroadcastToPeers | tools/sp_daemon/src/pouw_ledger.rs:254-285 | The records from an aligned offset on, or the first fault from there |
| ReceiptLedger.SortStable | tools/sp_daemon/src/pouw_ledger.rs:221-231 | Records with equal keys keep their source order |
| ReceiptLedger.SortSorted | tools/sp_daemon/src/pouw_ledger.rs:221-231 | The result is in key order |
| ReceiptLedger.SortMultiset | tools/sp_daemon/src/pouw_ledger.rs:221-231 | The result is a rearrangement |
| ReceiptLedger.SortIsCanonical | tools/sp_daemon/src/pouw_ledger.rs:221-231 | The result is a rearrangement that ascends by rank and then by the first hash byte that differs, and keeps the order of records with one rank and hash |
| ReceiptLedger.CanonicalIsUnique | tools/sp_daemon/src/pouw_ledger.rs:221-231 | There is no other such arrangement |
| ReceiptLedger.SortedIsUnique | tools/sp_daemon/src/pouw_ledger.rs:221-231 | A sorted list is determined by the order within each key |
| ReceiptLedger.ReplaysConverge | tools/sp_daemon/src/pouw_ledger.rs:233-252 | Permuted ledgers in which sequence rank and input hash identify a record replay as identical bytes with the same records |
| ReceiptLedger.FilesEqualIff | tools/sp_daemon/src/pouw_ledger.rs:233-252 | Replayed files are equal exactly when the sources agree on the order of equal-key records |
| ReceiptLedger.DuplicatesStay | tools/sp_daemon/src/pouw_ledger.rs:204-231 | Each record is kept as often as it occurs, so the sorted list is free of duplicates exactly when the source is, although the comment promises dedupe |
| ReceiptLedger.EqualKeysKeepOrder | tools/sp_daemon/src/pouw_ledger.rs:221-231 | Two different records with one rank and hash make the replay depend on their order |
| ReceiptLedger.CanonicalIsFixed | tools/sp_daemon/src/pouw_ledger.rs:221-252 | Sorting a canonical ledger changes nothing |
| Signature.ParseSigHex | tools/sp_daemon/src/recall.rs:662-683 | Accepts exactly 64 hex digits of either case and returns the bits they spell |
| Signature.SpellsIsHex | tools/sp_daemon/src/recall.rs:662-683 | The bits spelled are those of the number in 64 hexadecimal digits of either case, bit 255 the highest |
| Signature.ParseInvertsHex | tools/sp_daemon/src/recall.rs:662-683 | What the parser finds in a written signature is that signature |
| Signature.HexInvertsParse | tools/sp_daemon/src/eagle_accept.rs:511-511 | Writing a parsed text gives it back in lower case |
| Signature.RoundTrip | tools/sp_daemon/src/eagle_accept.rs:511-511 | Writing and parsing returns every 256-bit signature |
| Signature.AgreeIsFullIff | tools/sp_daemon/src/recall.rs:651-657 | Agreement lies in 0..256 and is full for equal signatures only |
| Signature.AgreeCounts | tools/sp_daemon/src/recall.rs:651-657 | Agreement is the number of equal bits |
| Signature.BestMatch | tools/sp_daemon/src/recall.rs:1049-1059 | The first registry entry of greatest agreement; none exactly for an empty registry |
| Signature.StoredIsFound | tools/sp_daemon/src/recall.rs:1049-1059 | A stored signature is its own best match |
| Okf.ParsePolicy | tools/sp_daemon/src/recall.rs:324-345 | The line loop computes the fields of the first fenced block, none without a class |
| OkfLaw.ParseKeepsLaw | tools/sp_daemon/src/recall.rs:324-345 | For any file: the policy is that of the lines between the first two fences, each field the last one given, the delivery by default that of the class, the list without brackets and blank items; none without a fence or a class |
| Okf.Body | tools/sp_daemon/src/recall.rs:351-360 | The line loop computes the trimmed lines after the second fence, or the whole text without one |
| OkfLaw.BodyAfterFences | tools/sp_daemon/src/recall.rs:351-360 | For any file with two fences the body is what follows the second, trimmed |
| OkfLaw.BodyWithoutFences | tools/sp_daemon/src/recall.rs:351-360 | For any other file it is the whole, trimmed |
| OkfLaw.WrittenFile | tools/sp_daemon/src/recall.rs:246-267 | The lines of a written file, key by key, for any text, class, name and delivery |
| OkfRoundTrip.PolicyRoundTrip | tools/sp_daemon/src/recall.rs:246-267 | For any strings: a written file parses to the policy of its class exactly when class and delivery are single lines without white margin and the further lines of the name neither end the frontmatter nor set decline fields (or are that policy by themselves) |
| OkfRoundTrip.OneLineNameKeeps | tools/sp_daemon/src/recall.rs:246-267 | For a single-line name the condition on the name says only that class and delivery have no white margin |
| OkfRoundTrip.TextCannotChangePolicy | tools/sp_daemon/src/recall.rs:246-267 | For any strings: the text does not change the policy read back |
| OkfRoundTrip.NameCannotChangePolicy | tools/sp_daemon/src/recall.rs:246-267 | Nor does one single-line name instead of another |
| OkfRoundTrip.FenceInName | tools/sp_daemon/src/recall.rs:246-267 | A name of a line feed and a fence makes the file parse to no policy |
| OkfRoundTrip.ParsedIsOneLine | tools/sp_daemon/src/recall.rs:324-345 | Whatever file is parsed, class and delivery of its policy are single lines |
| OkfRoundTrip.BodyRoundTrip | tools/sp_daemon/src/recall.rs:351-360 | For any strings: the body reads back as the trimmed text exactly when that contains no CR LF and no further line of class, name or delivery is a fence |
| OkfRoundTrip.NoReturnNoLoss | tools/sp_daemon/src/recall.rs:351-360 | A text without carriage returns comes back trimmed unless the frontmatter is closed early |
| OkfRoundTrip.DeclineFields | tools/sp_daemon/src/recall.rs:231-243 | The private class's decline list and message read back as written, other classes write none |

## Left out

- Allocation failure and the error returns it causes, in all three tokenizer lanes; the table build is modelled as if memory sufficed.
- Reading GGUF and `.sp-tokenizer` files, and the setting of special surfaces and flags from them; the lists they yield are parameters.
- The scratch key buffer of the GPT2 lane: keys are built as values, so its size is not checked.
- 32-bit casts of text lengths and symbol counts: texts are taken to fit.
- NaN among SPM scores or incoming logits, and incoming logits of plus infinity.
- `gemv_rows` and `act_prepare`, the first version of the product, whose float order is not promised, and the quantiser `sp_moe_cpu_quant`: IEEE rounding is their point.
- IEEE rounding in the exact product: operations are uninterpreted, so the result is compared operation by operation; its value is stated over the reals.
- `gelu` and the hardware function tables.
- Thread creation: a failed `CreateThread` lowers the thread count while earlier workers already run; the pool model starts with a fixed count.
- Memory weaker than sequential consistency, and fairness of the scheduler: WaitEnds bounds the steps that unfinished workers take, NeverStuck shows that one is enabled, and neither says that it is scheduled.
- 32-bit overflow of `rows * t` in the share bounds, out of reach for the row counts the callers pass.
- SplitMix64, FNV-1a and the KSTE encoder: their outputs are arbitrary parameters, so equal queries giving equal masks is not stated.
- MemoUniform.SubsetsAreUniform: counts draw vectors; the bias of a 64-bit output modulo i + 1 is not modelled.
- `active_fraction` and `estimate_sparse_ttft_ms`: easy members.
- Sampling.Sampler.Sample: the sampled path works on a copy of the masked row, where the source goes on in the caller's buffer. When a score is no number the order of the candidates is left open; a sort that panics on such an order is not modelled.
- IEEE rounding and overflow in penalties, softmax and draw: the draw is exact over the reals. The order of equal logits after the unstable sort is left open.
- SpmRoundTrip.RoundTrip: speaks of vocabularies in which every character of a space-free entry is an entry; others are covered by the encoder and decoder specifications only.
- Gemma4RoundTrip.RoundTripSpecials: for a broken byte string with a special that does not come back, what returns is DecodeSpecials; that it then never equals the text is not stated.
- MoeValue.Gemv: runs the shares one after the other; the outcome for all interleavings is MoeRun.Replay, over the steps of MoePool, in which a row is computed and written in one step.
- The wall clock is a boolean reading per step; the window theorem is about token budgets only.
- Profiling, capture dumps and reporting in `eagle_accept.rs`, and the draft's recurrent features.
- Text framing of events in `kairos_runner.rs` (an event carries its frame tokens), reports and latencies; position and rewind calls are taken to succeed.
- Operating-system failures in the ledger, `replay_list`, SHA-256 and signatures; hashes are opaque bytes.
- The live class-to-delivery map is a parameter of the concept file, and the keyword classifiers and overlap scores of `recall.rs` are arbitrary rules.
- ReceiptLedger.SortByKey: the library's stable sort appears as insertion on values, not as an in-place algorithm; stability and order determine it.
- CUDA, Vulkan, Hexagon and dispatch code, the process plumbing of the daemon, and the networked parts of the repository.
