# A verified model of lighttpd's algorithms

lighttpd 1.4.47 contains a number of self-contained algorithms in which a fast or
incremental form has to agree with a simple one. This project models them in Dafny,
in the form the C code has (loops over arrays, linked nodes, counters and caches
updated in place), and proves the agreement for all inputs, all runs and all
reachable states.

- **Lemon** (`MergeSort`, `LinkedSort`, `ActionTable`, `ParserTables`,
  `GeneratedParser`, `FirstSets`, `FollowSets`): the binary-counter merge sort of
  linked lists is a stable sort; the packed action table, after default compression,
  answers every lookup of the generated parser; the parser that runs on it accepts
  every sentence the recorded actions accept, and nothing that the grammar does not
  derive; nullability, first sets and propagated follow sets are exactly what
  derivations and link paths define.
- **Conditional configuration** (`ConditionCache`): the cache of if/else blocks with
  partial invalidation agrees with uncached evaluation over every run, and a block
  applies exactly when it and all around it are the first branch whose test holds.
- **The byte stream** (`Pieces`, `ChunkQueue`, `Tempfiles`, `QueueRuns`,
  `ChunkedDecode`, `BodyReader`, `ChunkedEncode`, `HeaderSearch`): linked chunk queues
  refine byte sequences and conserve their bytes over every run, also through
  temporary files; chunked decoding and the search for the end of the header do not
  depend on how the stream was cut, with the exact conditions, and the size limit is
  exact over every stream; chunked encoding is read back by a reader of section 4.1 of RFC 7230.
- **Paths and keyed arrays** (`PathSimplify`, `SortedIndex`, `Alias`): in-place path
  simplification equals split and stack, with the laws of "..", "." and empty names
  on texts; binary search over the maintained index equals a linear caseless scan, over every run; what the startup check on aliases
  accepts is stated exactly.
- **Digests and base64** (`Digest`, `Base64`): streaming SHA-1 and MD5 equal their
  one-shot definitions around an abstract compression step, on a padded text fixed by
  its properties; base64 round trips and is canonical.
- **Gateway backends** (`Gateway`, `RoundRobin`): process lists and the counter of
  running processes stay consistent under any events; round robin has bounded waiting.

Each module first defines the meaning (a map, a least fixpoint, a byte stream, a
stack of names), then the operations as methods proved against it, then the laws
about the meaning. Files, clocks, process exits, the results of system calls and the
order chosen by qsort are parameters.

## What the code does where its intent fails

These are results of the proofs, each with its exact condition.

- `msort` keeps all elements exactly below 2^30 of them; beyond that the last bin is
  overwritten and only a tail of the list survives (`MergeSort.KeptAllIff`).
- The overflow test of the chunk-size parser compares with 0, so exactly the sizes
  below 16 are accepted (`ChunkedDecode.SizeLineAccepted`). So the server's own
  decoder reads back what its encoder framed exactly if every piece is shorter than
  16 bytes (`ChunkedEncode.OwnRoundTrip`).
- Chunked decoding depends on segmentation exactly if the trailers exceed the field
  limit, where the code continues with a null pointer
  (`ChunkedDecode.SegmentationIndependent`).
- An LF LF inside one chunk ends only the scan of that chunk, so the end of the
  header can depend on chunk boundaries (`HeaderSearch.BoundariesDoNotMatter`).
- An entry that was named by a running number keeps that mark when it is reset, and
  a later `array_set_key_value` that reuses it stores its value under the next
  number. A value set for a key is found under it exactly if the key was there
  before, or no such entry is reused, or the next number is the key
  (`SortedIndex.SetFound`; `SortedIndex.LostKey` is a run that loses one).
- The alias check sees a hidden alias exactly if no key that sorts between the two
  fails to start with the shorter one (`Alias.PassesExact`, `Alias.CheckRight`). It
  is exact for keys without capitals (`Alias.CheckExact`); with capitals it can miss
  a hidden alias (`Alias.CapitalsEscape`).
- Free slots of the action table are emitted with nsymbol + nrule + 2 rather than
  nstate + nrule + 2; no lookup of a grammar symbol reads them
  (`ParserTables.ReportTable`).
- The comment at chunk.c:154 speaks of at most 4 pooled chunks; the code keeps up to 5.
- A generated parser with an empty stack ignores the end of input, so the empty input
  is never accepted, even if the grammar derives it (`GeneratedParser.Parser.Parse`).

## Model

| member | source | states |
|---|---|---|
| `LinkedSort.Merge` | projects/lighttpd-1.4.47/src/lemon.c:1519-1550 | relinking in place, the cells of both lists come out in the order of the recursive merge that lets the second list go first on ties |
| `MergeSort.MergedStable` | projects/lighttpd-1.4.47/src/lemon.c:1519-1550 | merging the stable sorts of a later and an earlier part gives the stable sort of the earlier part followed by the later one |
| `LinkedSort.MergeOn` | projects/lighttpd-1.4.47/src/lemon.c:1534-1547 | the loop of merge: what is linked and what is left are the cells of both lists, in the order of the merge |
| `LinkedSort.MergeBin` | projects/lighttpd-1.4.47/src/lemon.c:1584-1585 | merging a list into one bin relinks only their cells and touches no other bin |
| `LinkedSort.Carry` | projects/lighttpd-1.4.47/src/lemon.c:1578-1588 | one cell enters the binary counter of lists: bin i stays empty or holds exactly 2^i cells, the stable sort of its part of the input, and exactly the overwritten last bin is lost |
| `LinkedSort.Collect` | projects/lighttpd-1.4.47/src/lemon.c:1589-1590 | relinking the bins from low to high gives a list that is the stable sort of everything they hold, oldest first |
| `LinkedSort.SortWithBins` | projects/lighttpd-1.4.47/src/lemon.c:1571-1592 | for any number of bins: the list returned consists of cells of the given one, in the order of the stable sort of its last Kept elements |
| `LinkedSort.MSort` | projects/lighttpd-1.4.47/src/lemon.c:1571-1592 | for every linked list and total preorder the result is the stable sort of the last Kept(30, n) elements, and below 2^30 exactly all cells are in it |
| `MergeSort.KeptAllIff` | projects/lighttpd-1.4.47/src/lemon.c:1571-1592 | nothing is lost if and only if the list has fewer than 2^30 elements |
| `MergeSort.StableSortIsPermutation` | projects/lighttpd-1.4.47/src/lemon.c:1519-1592 | a stable sort is a permutation, so length and contents are kept |
| `ActionTable.ActTab.Action` | projects/lighttpd-1.4.47/src/lemon.c:464-488 | collects one entry and keeps the least and greatest lookahead of the row |
| `ActionTable.ActTab.FitsFree` | projects/lighttpd-1.4.47/src/lemon.c:530-535 | true exactly if every slot the row needs at this place is free |
| `ActionTable.ActTab.NoneAligned` | projects/lighttpd-1.4.47/src/lemon.c:536-541 | true exactly if no slot of the table, free ones included, carries the lookahead this offset would look for there |
| `ActionTable.ActTab.RowPresent` | projects/lighttpd-1.4.47/src/lemon.c:544-550 | true exactly if every entry of the row is in the table at this place |
| `ActionTable.ActTab.CountAligned` | projects/lighttpd-1.4.47/src/lemon.c:551-555 | counts everything the offset can find |
| `ActionTable.ActTab.TryPlace` | projects/lighttpd-1.4.47/src/lemon.c:529-559 | one place is good if and only if the row fits free slots and nothing else is found there, or the offset finds exactly the row |
| `ActionTable.ActTab.Search` | projects/lighttpd-1.4.47/src/lemon.c:528-560 | the first good place, or the end of the table |
| `ActionTable.ActTab.Reserve` | projects/lighttpd-1.4.47/src/lemon.c:505-519 | room for the worst case, without changing the table |
| `ActionTable.ActTab.Place` | projects/lighttpd-1.4.47/src/lemon.c:561-566 | the table becomes the old one with the row laid over it, entry by entry, and nAction becomes the least number that covers the old slots and the row |
| `ActionTable.ActTab.Insert` | projects/lighttpd-1.4.47/src/lemon.c:497-572 | the offset returned finds exactly the inserted row, every offset that found something before finds the same as before, and the place is the first good one |
| `ActionTable.LaidHits` | projects/lighttpd-1.4.47/src/lemon.c:561-566 | laying a whole row adds exactly the row's map to what its offset finds and leaves all other offsets alone |
| `ActionTable.ExtentLeast` | projects/lighttpd-1.4.47/src/lemon.c:561-566 | the new nAction is the least that covers the old slots and every entry of the row |
| `ActionTable.PlaceOk` | projects/lighttpd-1.4.47/src/lemon.c:528-566 | at a good place or at the end of the table, laying the row makes the offset find exactly the row |
| `ActionTable.SubmapOfSameSize` | projects/lighttpd-1.4.47/src/lemon.c:551-558 | why counting suffices: a row contained in what an offset finds, and of the same size, is all it finds |
| `ParserTables.BestReduce` | projects/lighttpd-1.4.47/src/lemon.c:3637-3652 | the rule of the most frequent reduce and its number of uses, over all rules |
| `ParserTables.CombineReduces` | projects/lighttpd-1.4.47/src/lemon.c:3660-3667 | the first reduce by the rule becomes the default and the later ones are unused, nothing else changes |
| `ParserTables.CompressState` | projects/lighttpd-1.4.47/src/lemon.c:3633-3669 | a state is left alone, or its most frequent reduce (used at least twice) becomes the default, up to the order of actions |
| `ParserTables.CompressTables` | projects/lighttpd-1.4.47/src/lemon.c:3623-3670 | every state is compressed so |
| `ParserTables.DefaultedMeaning` | projects/lighttpd-1.4.47/src/lemon.c:3660-3667 | only reduces by the chosen rule give way to the default; every other action stays as it is |
| `ParserTables.CompressedMeaning` | projects/lighttpd-1.4.47/src/lemon.c:3623-3670 | compression never changes a defined action, and symbols without one get the state's default |
| `ParserTables.RowMeaning` | projects/lighttpd-1.4.47/src/lemon.c:3345-3365 | the row of a state as a map says about each symbol what the state's actions say |
| `ParserTables.Summarize` | projects/lighttpd-1.4.47/src/lemon.c:3311-3326 | row sizes and the default of a state, the error action if it has none |
| `ParserTables.InsertRow` | projects/lighttpd-1.4.47/src/lemon.c:3345-3365 | collects one row of a state and inserts it: its offset finds exactly that row |
| `ParserTables.BuildTable` | projects/lighttpd-1.4.47/src/lemon.c:3342-3369 | after all insertions every row with an offset is exactly what the table holds there (so rows share an offset only if they are the same map), exactly the empty rows have no offset, and the minimum offsets bound all others |
| `ParserTables.ReportTable` | projects/lighttpd-1.4.47/src/lemon.c:3304-3461 | for every state, yy_find_shift_action on terminals and yy_find_reduce_action on nonterminals return the recorded action of the symbol, or the state's default |
| `ParserTables.ProbeAnswers` | projects/lighttpd-1.4.47/src/lempar.c:328-392 | a probe of the emitted tables at the offset of a row answers for the state of that row |
| `ParserTables.GeneratedParserAgrees` | projects/lighttpd-1.4.47/src/lempar.c:328-392 | an answer for the compressed state is the recorded action of the original state, or the default where there is none |
| `ParserTables.Generate` | projects/lighttpd-1.4.47/src/lemon.c:3304-3461 | end to end: compressed, packed in any order the sort may choose, and probed, the tables make the template's parser do what the state records for the symbol (shift to its state, reduce by its rule, accept or fail), and by default reduce by the most frequent rule if one is used twice, else fail |
| `ParserTables.CodeReads` | projects/lighttpd-1.4.47/src/lempar.c:71-80 | the template's tests on an action number recover the kind and the argument of the action it was computed from, for every used action with its argument in range |
| `ParserTables.PerformsWhere` | projects/lighttpd-1.4.47/src/lemon.c:2789-2800 | a lookup that is right about the recorded actions makes the parser perform the recorded action, or the state's default |
| `ParserTables.DefaultReads` | projects/lighttpd-1.4.47/src/lemon.c:3633-3669 | the default of a compressed state is its most frequent reduce if one is used twice, and otherwise the error |
| `GeneratedParser.Parser.Push` | projects/lighttpd-1.4.47/src/lempar.c:397-418 | the state goes on the stack; without room the stack is emptied and the overflow code runs |
| `GeneratedParser.Parser.Reduce` | projects/lighttpd-1.4.47/src/lempar.c:452-495 | the right-hand side comes off the stack and the state below goes on with the left-hand side, or the input is accepted |
| `GeneratedParser.Parser.Act` | projects/lighttpd-1.4.47/src/lempar.c:601-696 | one action on a token is what the lookups say, and the token stays exactly while more actions are due |
| `GeneratedParser.Parser.Parse` | projects/lighttpd-1.4.47/src/lempar.c:570-699 | for any token: no reduction takes more off the stack than is there, the tokens read stay derived from the symbols up the stack, what is accepted is a sentence, and the stack and the author's code end as the lookups say; a parser with an empty stack ignores the end of input |
| `GeneratedParser.Parser.Feed` | projects/lighttpd-1.4.47/src/lempar.c:570-699 | over any input, default reductions included, the accept code runs only for token strings derived from the start symbol |
| `GeneratedParser.Parser.ParseAll` | projects/lighttpd-1.4.47/src/configfile.c:1122-1137 | every sentence that the recorded actions accept is accepted by the parser that runs on the tables, once, and the parser is as before |
| `GeneratedParser.GenerateParser` | projects/lighttpd-1.4.47/src/lemon.c:3304-3461 | the generated tables drive such a parser for every machine |
| `GeneratedParser.LookupsFollow` | projects/lighttpd-1.4.47/src/lempar.c:328-392 | the lookups stay within the machine's states and rules and follow every recorded action |
| `GeneratedParser.ConsumeFollows` | projects/lighttpd-1.4.47/src/lempar.c:601-697 | where the recorded actions deal with a token, the lookups deal with it in the same way |
| `GeneratedParser.ItemSpelled` | projects/lighttpd-1.4.47/src/lemon.c:784-826 | the symbols an item of the top state has seen lie on top of the stack |
| `GeneratedParser.ReduceReads` | projects/lighttpd-1.4.47/src/lempar.c:486-489 | a complete rule lies on the stack, and undoing the reduction is a derivation step |
| `GeneratedParser.ConsumeExplained` | projects/lighttpd-1.4.47/src/lempar.c:601-697 | every action of the tables keeps what has been read derived from the stack, and acceptance means a sentence |
| `GeneratedParser.SmallestAccepts` | projects/lighttpd-1.4.47/src/lemon.c:906-950 | such a machine exists: the one of a single rule, with the sentence it accepts |
| `FirstSets.FindLambdas` | projects/lighttpd-1.4.47/src/lemon.c:637-650 | terminates for every finite grammar; a symbol is flagged exactly if it derives the empty string |
| `FirstSets.LambdaComplete` | projects/lighttpd-1.4.47/src/lemon.c:637-650 | flags closed under the rules cover every symbol with an empty derivation, by induction on the derivation's length |
| `FirstSets.SetAdd` | projects/lighttpd-1.4.47/src/lemon.c:3707-3715 | adds the element, and reports whether it was new |
| `FirstSets.SetUnion` | projects/lighttpd-1.4.47/src/lemon.c:3718-3732 | the union, and whether anything was new |
| `FirstSets.AddRule` | projects/lighttpd-1.4.47/src/lemon.c:657-669 | what one rule adds is justified by derivations, progress is reported exactly if something was added, and afterwards the rule has nothing left to add, self-recursive rules included |
| `FirstSets.FindFirstSets` | projects/lighttpd-1.4.47/src/lemon.c:623-673 | terminates; lambda is exact, and a terminal is in the first set of a symbol exactly if some derived sentential form begins with it |
| `FirstSets.FirstComplete` | projects/lighttpd-1.4.47/src/lemon.c:652-671 | sets closed under the rules contain every terminal a derived form begins with |
| `FirstSets.FirstExact` | projects/lighttpd-1.4.47/src/lemon.c:652-671 | sound and closed sets are exact, both directions |
| `FollowSets.Push` | projects/lighttpd-1.4.47/src/lemon.c:889-899 | pushing one configuration's set along its links adds only what is justified, keeps every complete configuration settled, and reports a change exactly if some set grew |
| `FollowSets.FindFollowSets` | projects/lighttpd-1.4.47/src/lemon.c:868-902 | terminates on every finite link graph; each final set is exactly the union of the initial sets of all configurations that reach it |
| `FollowSets.SettledAlongPath` | projects/lighttpd-1.4.47/src/lemon.c:868-902 | once every configuration is settled, membership travels along every path |
| `FollowSets.Exact` | projects/lighttpd-1.4.47/src/lemon.c:868-902 | settled and justified sets are the least fixpoint |
| `ConditionCache.Cache.CheckNocache` | projects/lighttpd-1.4.47/src/configfile-glue.c:329-403 | in an in-order pass the answer equals the evaluation without any cache |
| `ConditionCache.Cache.CheckCached` | projects/lighttpd-1.4.47/src/configfile-glue.c:573-601 | returns and records the uncached evaluation; the cache stays coherent |
| `ConditionCache.Cache.Pass` | projects/lighttpd-1.4.47/src/configfile.c:579-584 | a pass in order decides every block to its uncached evaluation; once all properties are known, exactly the blocks apply that are, with all around them, the first branch whose test holds |
| `ConditionCache.Cache.ClearNode` | projects/lighttpd-1.4.47/src/configfile-glue.c:605-634 | clears exactly the block and everything nested in it or in its later branches, despite stopping at undecided blocks |
| `ConditionCache.Cache.ResetItem` | projects/lighttpd-1.4.47/src/configfile-glue.c:641-654 | after a property changed, what is still cached agrees with the changed request |
| `ConditionCache.Cache.ChangeItem` | projects/lighttpd-1.4.47/src/configfile-glue.c:641-654 | a change of a property followed by its reset keeps the cache coherent |
| `ConditionCache.Cache.Enable` | projects/lighttpd-1.4.47/src/configfile-glue.c:383-392 | a property becoming available keeps the cache coherent |
| `ConditionCache.Cache.Reset` | projects/lighttpd-1.4.47/src/configfile-glue.c:659-673 | everything undecided and every property unavailable |
| `ConditionCache.Cache.Run` | projects/lighttpd-1.4.47/src/configfile-glue.c:573-673 | over every run of passes, changes with resets, properties becoming available and full resets, every decided result equals the uncached evaluation for the current request, every remembered local result the current test, and an undecided block has only undecided children and an undecided next branch |
| `ConditionCache.EvalMonotone` | projects/lighttpd-1.4.47/src/configfile-glue.c:329-403 | learning a property never changes a decided result |
| `ConditionCache.AppliesExactly` | projects/lighttpd-1.4.47/src/configfile-glue.c:329-403 | once every property is known, a block applies if and only if it and every block around it is the first branch of its chain whose test holds |
| `ConditionCache.ChainMeaning` | projects/lighttpd-1.4.47/src/configfile-glue.c:359-382 | under a parent that applies, a branch is true exactly if it is the first whose test holds, and false exactly if its test fails and so do all before it |
| `ConditionCache.OneBranch` | projects/lighttpd-1.4.47/src/configfile-glue.c:359-382 | whatever is known, all branches before a decided one are false, so two branches of a chain never both apply |
| `ConditionCache.ElseTakesTheRest` | projects/lighttpd-1.4.47/src/configfile-glue.c:394-403 | a chain that ends in else under a parent that applies has exactly one branch that applies |
| `ConditionCache.EvalUnaffected` | projects/lighttpd-1.4.47/src/configfile-glue.c:641-654 | a result depends only on properties compared at or above the block |
| `ConditionCache.UnsetBelow` | projects/lighttpd-1.4.47/src/configfile-glue.c:608-609 | in a closed cache nothing below an undecided block is decided, which justifies the early stop |
| `ConditionCache.FirstStep` | projects/lighttpd-1.4.47/src/configfile-glue.c:625-632 | everything below a block is below its next branch or below the head of one of its child chains |
| `ConditionCache.RecordKeepsClosed` | projects/lighttpd-1.4.47/src/configfile-glue.c:573-601 | recording the exact result of the next block of a pass keeps the cache closed |
| `ConditionCache.ResetAgrees` | projects/lighttpd-1.4.47/src/configfile-glue.c:641-654 | what a reset leaves in place does not depend on the changed property |
| `ConditionCache.LearnAgrees` | projects/lighttpd-1.4.47/src/configfile-glue.c:383-392 | what is cached stays true when an unknown property becomes known |
| `Pieces.WrittenStream` | projects/lighttpd-1.4.47/src/chunk.c:697-724 | marking n bytes written drops exactly the first n bytes of the stream |
| `Pieces.StealStream` | projects/lighttpd-1.4.47/src/chunk.c:416-460 | stealing takes exactly the first min(n, length) bytes in order and leaves the rest |
| `Pieces.CompactedStream` | projects/lighttpd-1.4.47/src/connections-glue.c:52-71 | compaction changes no byte of the stream, and says when it joined something |
| `ChunkQueue.ChunkList.PushUnused` | projects/lighttpd-1.4.47/src/chunk.c:151-163 | a chunk is emptied and pooled exactly while the pool has at most four; the queue is untouched |
| `ChunkQueue.ChunkList.GetUnused` | projects/lighttpd-1.4.47/src/chunk.c:165-182 | an empty chunk, the first of the pool or a new one, in neither list |
| `ChunkQueue.ChunkList.Append` | projects/lighttpd-1.4.47/src/chunk.c:194-205 | the chunk becomes the tail and is counted |
| `ChunkQueue.ChunkList.Prepend` | projects/lighttpd-1.4.47/src/chunk.c:184-192 | the chunk becomes the head and is counted |
| `ChunkQueue.ChunkList.RemoveFinished` | projects/lighttpd-1.4.47/src/chunk.c:726-737 | exactly the finished chunks in front go to the pool |
| `ChunkQueue.ChunkList.MarkWritten` | projects/lighttpd-1.4.47/src/chunk.c:697-724 | the first len bytes are consumed, finished chunks pooled, the counters moved |
| `ChunkQueue.MarkedPieces` | projects/lighttpd-1.4.47/src/chunk.c:697-724 | in the byte stream this is dropping a prefix |
| `ChunkQueue.ChunkList.Length` | projects/lighttpd-1.4.47/src/chunk.c:686-695 | the length counted along the list equals the difference of the counters |
| `ChunkQueue.ChunkList.Reset` | projects/lighttpd-1.4.47/src/chunk.c:207-221 | empty queue, zero counters, pool still bounded |
| `ChunkQueue.ChunkList.AppendMem` | projects/lighttpd-1.4.47/src/chunk.c:261-298 | the bytes are added at the end, nothing for empty data |
| `ChunkQueue.ChunkList.AppendFile` | projects/lighttpd-1.4.47/src/chunk.c:244-259 | a reference to a file range is added at the end |
| `ChunkQueue.ChunkList.PrependMem` | projects/lighttpd-1.4.47/src/chunk.c:274-285 | the bytes are added at the front |
| `ChunkQueue.ChunkList.GetMemory` | projects/lighttpd-1.4.47/src/chunk.c:318-376 | the last chunk is kept if it is in memory and empty or has room, else an empty one is added; the stream is unchanged |
| `ChunkQueue.ChunkList.UseMemory` | projects/lighttpd-1.4.47/src/chunk.c:378-394 | the last chunk grows by the bytes read |
| `ChunkQueue.ChunkList.Steal` | projects/lighttpd-1.4.47/src/chunk.c:416-460 | both queues stay valid and disjoint; destination and source are the two halves of a split of the source |
| `ChunkQueue.MovedPieces` | projects/lighttpd-1.4.47/src/chunk.c:416-460 | what arrives is the taken prefix of the stream, piece by piece |
| `ChunkQueue.KeptPieces` | projects/lighttpd-1.4.47/src/chunk.c:416-460 | what stays is the rest of the stream, piece by piece |
| `ChunkQueue.ChunkList.Join` | projects/lighttpd-1.4.47/src/chunk.c:301-315 | all chunks of one list are linked behind the other; no byte is lost or counted twice |
| `ChunkQueue.ChunkList.Compact` | projects/lighttpd-1.4.47/src/connections-glue.c:52-71 | swapping buffers between nodes joins the first chunk with the next non-empty one and tells whether it did |
| `ChunkQueue.CompactedPieces` | projects/lighttpd-1.4.47/src/connections-glue.c:52-71 | the swap refines the compaction of pieces |
| `ChunkQueue.TotalIsLength` | projects/lighttpd-1.4.47/src/chunk.c:686-695 | the sum of remaining lengths is the length of the byte stream |
| `Tempfiles.AppendMemToTempfile` | projects/lighttpd-1.4.47/src/chunk.c:529-623 | on success exactly the given bytes were added to the stream, whatever the partial writes and file changes on the way |
| `Tempfiles.GrowTemp` | projects/lighttpd-1.4.47/src/chunk.c:575-587 | a write through the last chunk adds its bytes to this stream and, files being append-only, changes no other chunk |
| `Tempfiles.CloseFull` | projects/lighttpd-1.4.47/src/chunk.c:544-566 | the last chunk is usable exactly if it is an unread open temporary file below the limit; at the limit it is closed, without changing the stream |
| `Tempfiles.StealWithTempfiles` | projects/lighttpd-1.4.47/src/chunk.c:625-684 | on success exactly the first min(len, length) bytes changed queues in order, and the source keeps the rest |
| `Tempfiles.KeptStream` | projects/lighttpd-1.4.47/src/chunk.c:625-684 | what moved and what stayed together are the source's stream |
| `Tempfiles.MovedStream` | projects/lighttpd-1.4.47/src/chunk.c:416-460 | stealing by reference takes the same bytes as stealing through files |
| `QueueRuns.StealProgress` | projects/lighttpd-1.4.47/src/chunk.c:416-460 | stealing as one step: what arrived and what is still to come are the same bytes, soundness of files included |
| `QueueRuns.TakePair` | projects/lighttpd-1.4.47/src/chunk.c:416-460 | the streams after a steal are the two parts of the source's stream |
| `QueueRuns.CompactPair` | projects/lighttpd-1.4.47/src/connections-glue.c:52-71 | compaction changes neither stream |
| `QueueRuns.Perform` | projects/lighttpd-1.4.47/src/chunk.c:151-737 | each operation, compaction and spilling to temporary files included, changes the two streams exactly as its effect on two byte sequences; only writes to temporary files can fail |
| `QueueRuns.Work` | projects/lighttpd-1.4.47/src/chunk.c:151-737 | after every sequence of operations from empty queues, as long as no file write failed, the two streams are the fold of the operations over two byte sequences; the counters measure them, last is the tail, the pool has exactly unused_chunks (at most 5) nodes, and no chunk is in two places |
| `ChunkedDecode.SizeLineAccepted` | projects/lighttpd-1.4.47/src/connections-glue.c:134-150 | digits, blanks and a rest: accepted with its value exactly if the value is below 16 and CR or a chunk extension follows |
| `ChunkedDecode.FindLfExact` | projects/lighttpd-1.4.47/src/connections-glue.c:130 | the search finds the first line feed, unless a NUL comes first |
| `ChunkedDecode.FindBlankExact` | projects/lighttpd-1.4.47/src/connections-glue.c:174 | the search finds the first blank line, unless a NUL comes first |
| `ChunkedDecode.TrailersSkipped` | projects/lighttpd-1.4.47/src/connections-glue.c:161-200 | after the line of the last chunk everything up to the first blank line is skipped, and the body is done |
| `ChunkedDecode.LongLines` | projects/lighttpd-1.4.47/src/connections-glue.c:152-159 | a size line that does not end within 1023 bytes is refused once 1024 bytes have come, and waited for before |
| `ChunkedDecode.DecodeSplit` | projects/lighttpd-1.4.47/src/connections-glue.c:117-266 | decoding a stream is decoding a prefix and going on with the rest, unless the prefix faults |
| `ChunkedDecode.ReadsDoNotMatter` | projects/lighttpd-1.4.47/src/connections-glue.c:117-266 | if no read faults, any sequence of reads gives the same body, leftover, status and te_chunked as one read |
| `ChunkedDecode.SegmentationIndependent` | projects/lighttpd-1.4.47/src/connections-glue.c:117-266 | for any size-line parser, every division into reads gives the result of a single read, without a fault, if and only if the trailers of the stream stay within the field limit |
| `ChunkedDecode.LimitExact` | projects/lighttpd-1.4.47/src/connections-glue.c:206-214 | for every stream: 413 exactly if decoding without a limit would announce a body over it, otherwise the limit makes no difference; the body and what the current chunk still announces never exceed it |
| `ChunkedDecode.RefusedAt` | projects/lighttpd-1.4.47/src/connections-glue.c:206-214 | a 413 is answered only at a size line, just consumed, whose value no longer fits behind the body so far |
| `ChunkedDecode.ReadsFit` | projects/lighttpd-1.4.47/src/connections-glue.c:206-214 | the limit holds however the stream is cut into reads |
| `ChunkedDecode.CrlfCheckExact` | projects/lighttpd-1.4.47/src/connections-glue.c:73-101 | the check decides CRLF on the stream; an empty first chunk, which reads never leave, would count as wrong bytes |
| `BodyReader.Reader.FindTrailerEnd` | projects/lighttpd-1.4.47/src/connections-glue.c:172-176 | on the linked queue, joining chunks finds the blank line of the stream |
| `BodyReader.Reader.ReadLine` | projects/lighttpd-1.4.47/src/connections-glue.c:125-231 | consumes one size line as the specification on the stream says, or nothing |
| `BodyReader.Reader.FinishBody` | projects/lighttpd-1.4.47/src/connections-glue.c:161-200 | consumes the last chunk and trailers as the specification says |
| `BodyReader.Reader.ReadChunk` | projects/lighttpd-1.4.47/src/connections-glue.c:235-260 | moves chunk data, by chunk or through temporary files, and its CRLF as the specification on the streams says |
| `BodyReader.Reader.HandleChunked` | projects/lighttpd-1.4.47/src/connections-glue.c:117-266 | one call on the linked queues computes Decode on their streams, for any size-line parser and however the data lies in chunks and files; te_chunked is never 1; a body that fits the limit stays within it, with what the current chunk announces |
| `BodyReader.Reader.Session` | projects/lighttpd-1.4.47/src/connections-glue.c:117-266 | a session of reads and calls computes the stepwise decoding of the stream and, if the trailers fit, the decoding of the stream at once; the limit holds over the whole session, and 413 is answered exactly if the stream announces more |
| `BodyReader.Reader.TakeBytes` | projects/lighttpd-1.4.47/src/connections-glue.c:235-247 | the data moves between the linked queues, by steal up to 64k and through temporary files above, byte for byte |
| `BodyReader.Reader.CheckCrlf` | projects/lighttpd-1.4.47/src/connections-glue.c:73-101 | the walk along the nodes is the check on pieces |
| `BodyReader.TightCompacted` | projects/lighttpd-1.4.47/src/connections-glue.c:52-71 | compaction keeps the queue in the shape reads leave it in |
| `ChunkedEncode.UintHex` | projects/lighttpd-1.4.47/src/buffer.c:235-254 | the text is the hexadecimal of the value, two lower-case digits a byte and no leading zero byte |
| `ChunkedEncode.HexTextValue` | projects/lighttpd-1.4.47/src/buffer.c:235-254 | reading the digits back gives the value |
| `Hex.DigitPlace` | projects/lighttpd-1.4.47/src/buffer.c:363-381 | a byte has the value k exactly if it is the k-th of the sixteen digits, in either case |
| `ChunkedEncode.AppendBody` | projects/lighttpd-1.4.47/src/http_chunk.c:125-160 | through memory or temporary file, exactly the framed (or plain) bytes are added to the stream; nothing for empty data |
| `ChunkedEncode.AppendFrame` | projects/lighttpd-1.4.47/src/http_chunk.c:25-37 | length line, data and CRLF in memory chunks |
| `ChunkedEncode.AppendFrameToTempfile` | projects/lighttpd-1.4.47/src/http_chunk.c:96-123 | length line, data and CRLF through a temporary file |
| `ChunkedEncode.BeginChunked` | projects/lighttpd-1.4.47/src/connections.c:426-439 | what is queued becomes one frame, nothing if there is none |
| `ChunkedEncode.FrameParses` | projects/lighttpd-1.4.47/src/http_chunk.c:25-37 | a reader of section 4.1 of RFC 7230 takes exactly one frame off |
| `ChunkedEncode.RoundTrip` | projects/lighttpd-1.4.47/src/http_chunk.c:96-182 | for every list of pieces and anything that follows, the reader returns their concatenation and leaves what follows untouched |
| `ChunkedEncode.OwnRoundTrip` | projects/lighttpd-1.4.47/src/connections-glue.c:117-266 | the server's own decoder returns what the encoder framed if and only if no piece has 16 bytes or more, and otherwise answers 400 |
| `ChunkedEncode.Respond` | projects/lighttpd-1.4.47/src/http_chunk.c:96-182 | over every run of appends and sends from the first framing to the close, what was sent and what is queued is read back as exactly the body |
| `HeaderSearch.MatchBlankLine` | projects/lighttpd-1.4.47/src/connections.c:767-792 | decides CR LF CR LF at a position of the stream, across chunks |
| `HeaderSearch.NextIsLf` | projects/lighttpd-1.4.47/src/connections.c:801-813 | decides whether the next byte of the stream is LF, across empty chunks |
| `HeaderSearch.ScanChunk` | projects/lighttpd-1.4.47/src/connections.c:760-817 | the first ending that begins in one chunk, and how the scan goes on |
| `HeaderSearch.FindEnd` | projects/lighttpd-1.4.47/src/connections.c:756-819 | the place found is the one Scan defines on the stream |
| `HeaderSearch.ScanExact` | projects/lighttpd-1.4.47/src/connections.c:756-819 | the scan in terms of the stream alone |
| `HeaderSearch.BoundariesDoNotMatter` | projects/lighttpd-1.4.47/src/connections.c:756-819 | the end found is the same for every division into chunks if and only if the first ending is not an LF LF that another ending follows |
| `HeaderSearch.CutMatters` | projects/lighttpd-1.4.47/src/connections.c:795-800 | a stream with such an LF LF, cut right behind it, gives a longer header than uncut |
| `HeaderSearch.FirstBlankLine` | projects/lighttpd-1.4.47/src/connections.c:756-819 | without LF LF the header ends with the first CR LF CR LF, for every division into chunks |
| `HeaderSearch.Connection.TakeHeader` | projects/lighttpd-1.4.47/src/connections.c:822-837 | the request is the prefix of the stream, the queue keeps exactly the rest, and the bytes are counted |
| `HeaderSearch.Connection.HandleRead` | projects/lighttpd-1.4.47/src/connections.c:735-857 | the whole step after a read: header taken or nothing consumed, state, and the 431 limit |
| `PathSimplify.Simplify` | projects/lighttpd-1.4.47/src/buffer.c:882-976 | in place or not, the result is that of splitting at slashes and keeping a stack of names |
| `PathSimplify.FinishName` | projects/lighttpd-1.4.47/src/buffer.c:948-972 | the tests on token length and the last two bytes decide empty name, "." and "..", and the output becomes the stack |
| `PathSimplify.DropName` | projects/lighttpd-1.4.47/src/buffer.c:952-958 | walking back removes exactly the last name |
| `PathSimplify.TokenTests` | projects/lighttpd-1.4.47/src/buffer.c:949-963 | the length and two bytes determine whether the name is special |
| `PathSimplify.SplitJoin` | projects/lighttpd-1.4.47/src/buffer.c:882-976 | splitting undoes joining |
| `PathSimplify.JoinSplit` | projects/lighttpd-1.4.47/src/buffer.c:882-976 | joining undoes splitting |
| `PathSimplify.SimplifiedShape` | projects/lighttpd-1.4.47/src/buffer.c:882-976 | starts with a slash, has no NUL, and is at most one byte longer than the input |
| `PathSimplify.SimplifiedNames` | projects/lighttpd-1.4.47/src/buffer.c:865-876 | no name of the result is empty, "." or "..", except an empty last one |
| `PathSimplify.Idempotent` | projects/lighttpd-1.4.47/src/buffer.c:882-976 | simplifying twice is simplifying once |
| `PathSimplify.ParentDropsName` | projects/lighttpd-1.4.47/src/buffer.c:950-958 | for every directory u and proper name x, u x /../ b simplifies to what u b simplifies to |
| `PathSimplify.ParentAtEnd` | projects/lighttpd-1.4.47/src/buffer.c:950-962 | .. at the end takes the name before it and leaves the directory with its slash |
| `PathSimplify.ParentOfRoot` | projects/lighttpd-1.4.47/src/buffer.c:950-962 | .. at the root is dropped |
| `PathSimplify.EmptyAndDot` | projects/lighttpd-1.4.47/src/buffer.c:964-969 | an empty name or . is left out, inside the text or at its end |
| `PathSimplify.CleanStays` | projects/lighttpd-1.4.47/src/buffer.c:882-976 | a text without such names stays as it is |
| `PathSimplify.TextStarts` | projects/lighttpd-1.4.47/src/buffer.c:918-931 | leading spaces do not count, a missing slash is added, and a NUL ends the text |
| `SortedIndex.CaselessCompare` | projects/lighttpd-1.4.47/src/buffer.c:411-428 | the sign is the lexicographic order of the folded keys |
| `SortedIndex.FoldIs` | projects/lighttpd-1.4.47/src/buffer.c:419-420 | capitals become the small letters at the same place of the alphabet, and nothing else changes |
| `SortedIndex.LessTransitive` | projects/lighttpd-1.4.47/src/buffer.c:411-428 | the order is transitive |
| `SortedIndex.LessTotal` | projects/lighttpd-1.4.47/src/buffer.c:411-428 | any two keys are ordered or equal |
| `SortedIndex.KeyedArray.GetIndex` | projects/lighttpd-1.4.47/src/array.c:91-121 | binary search returns what the linear caseless scan returns, or where the key belongs |
| `SortedIndex.KeyedArray.GetElement` | projects/lighttpd-1.4.47/src/array.c:123-133 | the entry a linear caseless scan finds |
| `SortedIndex.KeyedArray.Extract` | projects/lighttpd-1.4.47/src/array.c:135-172 | the entry goes away, the last one takes its place, the index stays a sorted permutation |
| `SortedIndex.KeyedArray.GetUnused` | projects/lighttpd-1.4.47/src/array.c:174-191 | the first entry kept for reuse; the entries in use are untouched |
| `SortedIndex.KeyedArray.SetKeyValue` | projects/lighttpd-1.4.47/src/array.c:193-208 | the entries, the places kept for reuse and the running number become those of AfterSet |
| `SortedIndex.SetFound` | projects/lighttpd-1.4.47/src/array.c:193-208 | the value is found under the key afterwards if and only if the key was there, or the entry reused was not one named by a running number, or the next number is the key itself |
| `SortedIndex.SetLookup` | projects/lighttpd-1.4.47/src/array.c:193-208 | what every lookup finds after setting a value |
| `SortedIndex.LostKey` | projects/lighttpd-1.4.47/src/array.c:193-208 | a run that loses a key: an unnamed entry, a reset, and the value set for a new key is not found under it |
| `SortedIndex.Run` | projects/lighttpd-1.4.47/src/array.c:91-286 | after every sequence of operations the array is the list the operations make, its index is a permutation of the positions in strictly increasing order of the folded keys, and a lookup returns what a linear caseless scan of that list returns |
| `SortedIndex.InsertLookup` | projects/lighttpd-1.4.47/src/array.c:278-286 | an insertion is found, or its value added, and no other lookup changes |
| `SortedIndex.ReplaceLookup` | projects/lighttpd-1.4.47/src/array.c:267-276 | a replacement is found and no other lookup changes |
| `SortedIndex.ExtractLookup` | projects/lighttpd-1.4.47/src/array.c:135-172 | an extracted key is gone and no other lookup changes |
| `SortedIndex.KeyedArray.FindOrInsert` | projects/lighttpd-1.4.47/src/array.c:211-264 | finds an entry of the same folded key or inserts in order; entries without a key are numbered |
| `SortedIndex.KeyedArray.Replace` | projects/lighttpd-1.4.47/src/array.c:267-276 | replaces or inserts |
| `SortedIndex.KeyedArray.InsertUnique` | projects/lighttpd-1.4.47/src/array.c:278-286 | inserts, or adds the value to the entry that is there |
| `SortedIndex.MergedIsList` | projects/lighttpd-1.4.47/src/data_string.c:36-50 | however often values are added under a key, their list in order, joined by a comma and a space, is stored |
| `SortedIndex.DecimalIs` | projects/lighttpd-1.4.47/src/buffer.c:279-297 | a running number is written in decimal digits without leading zeros, and reads back as the number |
| `SortedIndex.KeyedArray.Reset` | projects/lighttpd-1.4.47/src/array.c:62-72 | no entry is in use; all are kept without key and value |
| `SortedIndex.IndexComplete` | projects/lighttpd-1.4.47/src/array.c:91-121 | the index is a permutation of the positions |
| `SortedIndex.InsertedIndexes` | projects/lighttpd-1.4.47/src/array.c:248-261 | shifting right and inserting at the gap keeps the index sorted |
| `SortedIndex.RemovedIndexes` | projects/lighttpd-1.4.47/src/array.c:144-166 | redirecting the last entry and shifting left keeps the index sorted |
| `SortedIndex.GetInserted` | projects/lighttpd-1.4.47/src/array.c:211-264 | after an insertion the new entry is found and every other lookup is unchanged |
| `SortedIndex.GetExtracted` | projects/lighttpd-1.4.47/src/array.c:135-172 | after an extraction that key is gone and every other lookup is unchanged |
| `SortedIndex.GetReplaced` | projects/lighttpd-1.4.47/src/array.c:267-276 | after a replacement the new entry is found and every other lookup is unchanged |
| `Alias.CheckAliases` | projects/lighttpd-1.4.47/src/mod_alias.c:97-120 | accepts exactly the configurations that pass the run-by-run check over the index |
| `Alias.PassesIff` | projects/lighttpd-1.4.47/src/mod_alias.c:97-120 | for keys without capitals the early stops lose nothing: the check passes if and only if no alias comes after one that is its prefix |
| `Alias.PassesExact` | projects/lighttpd-1.4.47/src/mod_alias.c:97-120 | for any keys: the check passes if and only if every alias that hides another is separated from it in the index by a key that does not start with it |
| `Alias.LongestIff` | projects/lighttpd-1.4.47/src/mod_alias.c:172-191 | for any distinct keys and either case mode: for every path the first alias that applies is the longest, if and only if none hides another |
| `Alias.CheckRight` | projects/lighttpd-1.4.47/src/mod_alias.c:97-120 | for any keys: the check passes exactly the good configurations if and only if no alias hides another, or one does without a key that separates the two |
| `Alias.Between` | projects/lighttpd-1.4.47/src/mod_alias.c:97-120 | keys with a common prefix lie together in the order |
| `Alias.CheckExact` | projects/lighttpd-1.4.47/src/mod_alias.c:97-120 | for keys without capitals: accepted if and only if for every path the first alias that applies is the longest, in both case modes |
| `Alias.AcceptAliases` | projects/lighttpd-1.4.47/src/mod_alias.c:97-120 | for any keys, accepted if and only if every hiding is separated; for keys without capitals, if and only if first match is longest match for every path |
| `Alias.CapitalsEscape` | projects/lighttpd-1.4.47/src/mod_alias.c:97-120 | with capitals a hidden alias can escape the check |
| `Alias.Rewrite` | projects/lighttpd-1.4.47/src/mod_alias.c:156-196 | the path is rewritten by the first alias that applies, or left alone |
| `Digest.Context.Update` | projects/lighttpd-1.4.47/src/algo_sha1.c:130-146 | after any update the state is the fold over all whole blocks, the buffer holds the rest and the two-word count is the bit length modulo 2^64 |
| `Digest.CountAdds` | projects/lighttpd-1.4.47/src/algo_sha1.c:134-135 | the addition with carry is correct modulo 2^64 |
| `Digest.AbsorbRest` | projects/lighttpd-1.4.47/src/algo_sha1.c:130-146 | absorbing whole blocks and then the rest is absorbing all at once |
| `Digest.Context.FinishSha1` | projects/lighttpd-1.4.47/src/algo_sha1.c:150-174 | the padding loop ends; the digest is the big-endian words left by a text of whole blocks: the message, 128, as few zeros as possible, and the bit length modulo 2^64 as a big-endian number (section 4 of RFC 3174) |
| `Digest.Context.FinishMd5` | projects/lighttpd-1.4.47/src/md5.c:174-197 | the same with little-endian numbers (sections 3.1 to 3.5 of RFC 1321) |
| `Digest.DigestMeans` | projects/lighttpd-1.4.47/src/algo_sha1.c:150-174 | the one-shot digests are those of the texts with these properties |
| `Digest.OneText` | projects/lighttpd-1.4.47/src/algo_sha1.c:154-163 | a message has one such text of either kind |
| `Digest.StartWords` | projects/lighttpd-1.4.47/src/algo_sha1.c:119-127 | the start words by their bytes: 01 23 45 67 89 ab cd ef and back, and one word more for SHA-1 |
| `Digest.HashSha1` | projects/lighttpd-1.4.47/src/algo_sha1.c:119-174 | however the message is divided into updates, the digest is that of the whole |
| `Digest.HashMd5` | projects/lighttpd-1.4.47/src/md5.c:118-197 | however the message is divided into updates, the digest is that of the whole |
| `Digest.Encode` | projects/lighttpd-1.4.47/src/md5.c:294-304 | the little-endian bytes of the words |
| `Digest.Decode` | projects/lighttpd-1.4.47/src/md5.c:309-316 | words whose little-endian bytes are the input |
| `Digest.LittleInjective` | projects/lighttpd-1.4.47/src/md5.c:294-316 | words are determined by their bytes, so the two are inverse |
| `Base64.ToBase64NoPadding` | projects/lighttpd-1.4.47/src/base64.c:124-183 | writes the encoding, and nothing outside the reserved room |
| `Base64.ToBase64` | projects/lighttpd-1.4.47/src/base64.c:185-214 | writes the padded encoding, and nothing outside the reserved room |
| `Base64.Decode` | projects/lighttpd-1.4.47/src/base64.c:40-122 | accepts exactly the texts described and returns their bytes, every write inside the reserved room |
| `Base64.UnpackPack` | projects/lighttpd-1.4.47/src/base64.c:124-183 | unpacking the digits of any bytes gives them back, with no bits left over |
| `Base64.PackUnpack` | projects/lighttpd-1.4.47/src/base64.c:101-117 | digits without a lone last one and without left-over bits are the encoding of their bytes |
| `Base64.RoundTrip` | projects/lighttpd-1.4.47/src/base64.c:40-214 | decoding the padded or unpadded encoding returns the input, in both alphabets |
| `Base64.Canonical` | projects/lighttpd-1.4.47/src/base64.c:40-122 | the digits of an accepted text up to its end are the encoding of what it decodes to |
| `Base64.CanonicalText` | projects/lighttpd-1.4.47/src/base64.c:40-122 | without white space the accepted characters are the unpadded encoding itself |
| `Base64.LetterInTable` | projects/lighttpd-1.4.47/src/base64.c:12-31 | the letter of a digit is the one at its place in the table of 64 letters, and the padding character stands behind them |
| `Base64.ReverseIs` | projects/lighttpd-1.4.47/src/base64.c:14-43 | the reverse table: the place of a letter, white space and control characters, padding, anything else |
| `Base64.GroupNumber` | projects/lighttpd-1.4.47/src/base64.c:124-160 | three bytes and their four digits are the same number |
| `Base64.DecodesExactly` | projects/lighttpd-1.4.47/src/base64.c:63-117 | letters and then something that is neither a letter nor white space: accepted exactly if the digits are an encoding and nothing, a NUL, or padding after two or three digits of a group follows |
| `Gateway.Host.SetState` | projects/lighttpd-1.4.47/src/gw_backend.c:90-98 | the counter follows the state |
| `Gateway.Host.Mark` | projects/lighttpd-1.4.47/src/gw_backend.c:90-98 | a listed process changes its state and the counter stays the number of running ones |
| `Gateway.Host.ConnectError` | projects/lighttpd-1.4.47/src/gw_backend.c:242-302 | exactly a remote process, or a running one of that pid, becomes overloaded until its time; lists and counter stay consistent for either list |
| `Gateway.Host.CheckEnable` | projects/lighttpd-1.4.47/src/gw_backend.c:316-325 | an overloaded process runs again after its time, and nothing else changes |
| `Gateway.Host.WaitPid` | projects/lighttpd-1.4.47/src/gw_backend.c:346-374 | an exited process is dead and without pid, any other is unchanged |
| `Gateway.Host.Launch` | projects/lighttpd-1.4.47/src/gw_backend.c:455-631 | state, pid, locality, times and the counter after each outcome of a start |
| `Gateway.Host.Spawn` | projects/lighttpd-1.4.47/src/gw_backend.c:633-690 | the first one set aside that has exited, or a new one, joins in front if it starts and is set aside if it does not; nothing happens if it has exited just now |
| `Gateway.Host.Kill` | projects/lighttpd-1.4.47/src/gw_backend.c:692-712 | the process moves to the front of those set aside, the others in use keep their order, and it no longer counts |
| `Gateway.Host.RestartDeadProcs` | projects/lighttpd-1.4.47/src/gw_backend.c:992-1052 | every process in use goes to the state its old state, exit, load, time and start outcome determine; lists and counter stay consistent |
| `Gateway.Host.FindIdle` | projects/lighttpd-1.4.47/src/gw_backend.c:635-642 | the first process set aside without a pid, and whether it exited too recently |
| `Gateway.Host.ReapProcs` | projects/lighttpd-1.4.47/src/gw_backend.c:2430-2432 | exactly the local processes in use that have exited become dead |
| `Gateway.Host.ReapIdle` | projects/lighttpd-1.4.47/src/gw_backend.c:2477-2479 | exactly the local processes set aside that have exited become dead, without touching the counter |
| `Gateway.Host.Trigger` | projects/lighttpd-1.4.47/src/gw_backend.c:2412-2480 | the work of one second: dead processes are started again unless they have only now exited, a process is added only if all carry more than their share, one is dropped, and lists and counter stay consistent |
| `Gateway.Host.AddProc` | projects/lighttpd-1.4.47/src/gw_backend.c:2440-2456 | a process is started exactly if every one carries more than its share and there may be more |
| `Gateway.Host.DropProc` | projects/lighttpd-1.4.47/src/gw_backend.c:2458-2475 | exactly if there are more than need be, the first that has long been idle is killed and set aside, and the others keep their state and order |
| `Gateway.Host.FindProc` | projects/lighttpd-1.4.47/src/gw_backend.c:1717-1735 | finds a running process if and only if the counter is not zero: the least loaded, the first of several |
| `Gateway.Live` | projects/lighttpd-1.4.47/src/gw_backend.c:633-712 | in every state reachable by any events, both lists are well linked and disjoint, none set aside is running, the counter is the number of running ones in use, and the search succeeds if and only if it is not zero |
| `Gateway.CountUpdate` | projects/lighttpd-1.4.47/src/gw_backend.c:90-98 | one state change moves the number of running processes by at most one |
| `Gateway.BridgedKept` | projects/lighttpd-1.4.47/src/gw_backend.c:692-697 | linking the neighbours past a node leaves the list without it |
| `RoundRobin.Extension.Choose` | projects/lighttpd-1.4.47/src/gw_backend.c:856-891 | the first active host cyclically after the last one used; none exactly if none is active |
| `RoundRobin.Nearer` | projects/lighttpd-1.4.47/src/gw_backend.c:856-891 | every selection that passes over an active host brings its turn strictly nearer |
| `RoundRobin.BoundedWaiting` | projects/lighttpd-1.4.47/src/gw_backend.c:856-891 | a host that stays active is chosen within as many selections as there are hosts, whatever the others do |
| `RoundRobin.ChooseAll` | projects/lighttpd-1.4.47/src/gw_backend.c:856-891 | selections one after another are such a run |

## Left out

- Lemon's grammar reader, the building of states and lookaheads, conflict resolution and code emission; at most one used action per symbol and state, and the way shifts move items, are taken as given, as these steps leave them.
- GeneratedParser.Parser.Parse: needs a bound on the actions of one token, since a cyclic grammar makes the code loop; error symbols, the count that suppresses repeated error messages, and the values of symbols are not modelled.
- GeneratedParser.Parser.Feed: one bound on the actions of a token for all stacks; after a syntax error it speaks of the tokens that were shifted, since the wrong one is dropped.
- The fallback tokens of the generated parser (YYFALLBACK): a third table, read only when no action is found.
- The links of Lemon's lists of actions, rules and configurations: they are sequences in `ParserTables`, `FirstSets` and `FollowSets`; the sort alone is modelled on linked cells.
- The conditions' string, regex and address comparisons, logging and the pattern captures of the condition cache; a comparison is a function of the property's value.
- Condition blocks that break the forest the parser builds; the forest is a requirement of `ConditionCache.Cache`.
- BodyReader.Reader.HandleChunked: needs a queue with no empty chunk but the last, as network reads leave it, and says nothing when a temporary file fails (status 500); the error response itself is not modelled.
- ActionTable.ActTab.Action: takes a lookahead only once per row, as the rows of deterministic states have it.
- ConditionCache.Cache.CheckCached: stands for the calls of an in-order pass; out of order the cache would not stay closed.
- Tempfiles.AppendMemToTempfile: says nothing about failing writes and the retry in another directory, whose clean-up steps past the end of the list; the write outcomes are a finite script.
- Tempfiles.StealWithTempfiles: says nothing on failure; removing a temporary file when its last chunk is dropped is not modelled.
- ChunkQueue.ChunkList.GetMemory: whether a non-empty last chunk has room is a parameter, since buffer sizes are not modelled.
- Appending open file descriptors, opening and mapping file chunks, and the sending backends.
- ChunkedEncode.Respond: says nothing once a write to a temporary file has failed.
- ChunkedEncode.AppendBody: file ranges (http_chunk_append_file) are not appended, and only successful appends are described.
- The rest of the connection state machine, header parsing, keep-alive and timeouts.
- PathSimplify.Simplify: allocation is a requirement on the buffer's length; the backslash conversion of Windows builds is not modelled.
- SortedIndex.KeyedArray.InsertUnique: entries are strings merged with a comma; other entry types, and the merging of response headers, are not modelled.
- Alias.Rewrite: configuration merging before the lookup is not modelled; keys are taken to be free of NUL.
- Digest.Context.Update: needs the waiting bytes and the new length to stay below 2^32 together; beyond that the code's unsigned sum wraps and it copies past its buffer; the compression steps themselves are abstract.
- Base64.Decode: appending to the output buffer is not modelled, only the bytes to append.
- Gateway.Host.Spawn: the number of processes keeps counting a failed start, as in the code; the load is carried along without a claim.
- Gateway.Host.Launch: sockets, environment, fork and exec are reduced to five outcomes.
- Least-connection, hash and sticky balancing; they choose over the same list without state.
- Sockets, event backends, the other modules, CRC and key/value tables: they would add only easy members.
