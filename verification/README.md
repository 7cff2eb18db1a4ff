# A verified model of zoekt's index and search

zoekt answers code searches from a positional trigram index. Its promise is that the index, with all its
skipping, gives the answer that looking at every document would give. This project models the way from a
document that is added to a line that is shown, and proves that promise piece by piece and then as a whole.

The way, and the modules along it:

* **Texts.** `Utf8` is UTF-8 as section 3 of RFC 3629 defines it and as Go decodes it: a text is a sequence of
  tokens, and bytes that encode nothing are tokens of size one. `Corpus` puts documents one after the other.
  `Varint` (unsigned LEB128, section 7.6 of DWARF 4) and `DeltaCodec` are the number lists.
* **Building.** `Postings` is the postings builder: delta lists for each trigram, a byte offset for every hundredth
  rune, and symbol sections converted from bytes to runes. `ShardBuilder` is `IndexBuilder.Add` with its checks and its
  parallel tables.
* **Files.** `SectionFile`, `TableOfContents`, `ShardWriter` and `ShardReader` are the shard file: a printer and a
  parser that undo each other.
* **Finding candidates.** `HitIterators` has the posting iterators, `CaseFolding` the case variants, `TrigramLookup` and
  `NgramSearch` the choice of two trigrams, `DocIterators` the way from corpus positions to documents, `SectionFilter` and
  `SymbolSections` the restriction to symbols.
* **Confirming.** `RuneLookup` finds byte offsets, `ContentMatch` compares, `SubstringMatching` (in `SubstringNode.dfy`)
  is the leaf of the match tree that does both. `ContentSlices` is about the slices it compares. `CaseAgreement` says where the index, the engine and the comparison
  disagree about case.
* **Queries.** `Query` and `Simplify` are the rewriting, `QueryMap` is `Map`, `RegexpQuery` distils substrings from
  regular expressions, `ShardEval` evaluates a query partially on a shard.
* **Searching.** `MatchAtoms`, `MatchTree` and `SearchLoop` are the match tree and the document loop; `TreeBuilder` and
  `QueryTree` build the tree; `ShardSearch` puts one search together; `OpenShard` goes from the builder through the file to
  the search.
* **Showing.** `MatchAssembly` merges matches, `LineAssembly` cuts them into lines and fragments, `DocumentMatches` does
  both for a document that was found.
* **Around it.** `IndexQueue` is the indexing queue, `ShardedSearcher` the protocol that searches many shards while they are
  replaced, and `ShardHistory` what is searchable at any time, told from the calls made so far.

The theorem that ties the search together is `ShardSearch.Search`: for every query and every shard that is the index of
some documents, the documents found are exactly those, below the document where a limit or cancellation struck, on
which the query holds by looking at the documents alone; and the lines shown of each have exactly the bytes, merged, of
the matches that count: those of the atoms that hold together with every and/or above them, and none below a not. The
search ends exactly at the first document it would look at once a limit is reached or it is cancelled, and otherwise at
the end of the shard.
`OpenShard.Open` and `OpenShard.SearchFile` add that a shard that was built, written and read back is the index of the
documents that were added. Patterns have to be suited to the documents; what that takes is decided by the case tables,
the documents and two sizes in the file (`ShardIndex.Scope`, `ShardSearch.AtomSane`), and `ShardSearch.FoldedIsSane` and
`ShardSearch.ExactIsSane` say when a pattern is for all documents.

Where the source updates objects in place, the model has classes with the same fields; where it loops, methods with
loops. Pure code (query rewriting, regular expressions) is functions. 32-bit arithmetic wraps by `Wrap` where a sum can
exceed 2^32. Concurrency is a state machine over steps.

## What the model takes from outside

* Go's regular expression engine is a function from an expression, a case flag and a text to the spans it reports; it
  reports something exactly when the expression matches, and spans of the text (`ShardIndex.EngineOk`). Literals compare
  exactly, or along fold cycles where case does not matter, for the whole expression or for one literal
  (`CaseAgreement.EngineOver`). Character classes and anchors are an arbitrary relation, which may depend on the flag.
* Simple folding is an arbitrary permutation with finite cycles, lower casing an arbitrary function to runes that have an
  encoding (`ContentMatch.CaseTables.Ok`). Nothing is taken to relate the two.
* JSON documents, CRC-64 checksums and decimal numbers in messages are opaque functions.
* Cancellation and the limit of important matches, which are counted by score, are an arbitrary decision before each
  turn of the loop. The limit of lines is computed.
* `sort.Sort` is any order that sorts; results do not depend on ties.

## Where the code does less than it seems to

* A pattern that is not self-contained (it starts with the inside of a rune, or ends inside one) has occurrences that
  its runes do not have. `Utf8.SelfContainedIffNeverMissed` says these are the only ones. UTF-8 patterns are
  self-contained. Documents need not be UTF-8.
* Patterns of one or two runes, and the literals of regular expressions, are looked for by an engine that reads invalid
  bytes as U+FFFD. A pattern with that rune is then found where its bytes are not, unless the documents are UTF-8;
  `Utf8.NoReplacementIffExact` says that it is the only such rune. Patterns of one or two runes that are not UTF-8 make
  the compilation panic (`ShardIndex.Compiles`).
* Up to case, the comparison with the text goes by lower case and the trigram index by fold cycles. The lower case of
  U+0130 is i, and it is on no cycle but its own: "abi" equals "ab" and U+0130, which the index never offers
  (`CaseAgreement.DottedIMissed`). All matches are matches along the cycles exactly when lower case stays on the cycles of
  the pattern's runes (`CaseAgreement.MatchesFoldIff`). In that case none is missed, and otherwise one is
  (`CaseAgreement.NeverMissedIff`), except for patterns that use runes of one cycle with different lower case, of which
  only the outer ones may be looked up (`CaseAgreement.MixedNeverMissed`).
* Up to case, the engine goes by fold cycles, and the substrings that are distilled from an expression by lower case.
  U+017F is on the cycle of s and is its own lower case: `(?i)foos` matches "foo" and U+017F, and the prefilter drops it
  (`CaseAgreement.LongSMissed`). The prefilter is safe for all expressions over some literals exactly when the fold cycles
  of their runes stay in lower case (`CaseAgreement.FoldedPrefilterIff`). A single expression can be safe without
  that, when one alternative finds what another misses (`CaseAgreement.AlternativesCover`).
* The fold-case flag of a literal is lost when it becomes a substring. In a case sensitive query the literal FOO with the
  flag matches "foo", and the prefilter drops that text (`CaseAgreement.FoldFlagMissed`);
  `CaseAgreement.ExactPrefilterIff` says that literals with the flag are safe exactly when their runes have no case
  variants.
* A document that ends inside an encoded rune can make the comparison read into the next document
  (`ContentMatch.ClosedIffNoOverrun`, `ContentMatch.OverrunExample`), and makes the walk in `findOffset` lose count: a
  document is walked through right whatever follows it exactly if it is closed (`RuneLookup.ClosedIffWalksAsApart`).
  Every other document below a hundred bytes has a successor with which a lookup fails (`RuneLookup.UnclosedLookupFails`);
  `RuneLookup.SplitRuneLookup` is an input.
* The slice that is compared exactly may go past the end of the document, and past the end of the file, where the original
  panics. It stays inside exactly if the slice at the end of the last document with room for the pattern does
  (`ContentSlices.SlicesInsideIff`). A pattern of many U+FFFD, in a document of as many bytes that encode nothing, is
  offered and takes three times their size (`ContentSlices.SliceLeavesFile`).
* `findOffset` reads 300 bytes after a sample. It is exact if and only if the target lies within them, and they within
  the file (`RuneLookup.FindOffset`). After runes of up to three bytes it always does (`RuneLookup.ThreeByteRunesFit`),
  after 76 runes of four bytes it does not (`RuneLookup.FourByteRunesOutrun`).
* The interface promises that `first()` is past the limit after `next` (hititer.go:28-30). `compressedPostingIterator`
  breaks it exactly if two or more postings were left and all of them are at or below the limit (`HitIterators.LagsIff`,
  `HitIterators.LagExample`). The contract that holds is `Kept` and strict progress.
* An empty repository set is true for `Simplify` (query/query.go:392-395) and false for a shard (eval.go:47-48):
  `ShardEval.EmptyRepoSetDisagrees`, and `ShardEval.SimplifyFirstAgrees` for all other queries.
* A failed `Add` has changed the postings already; `Postings.PostingsBuilder.NewSearchableString` says how far. Only an
  error found before the text is read leaves the builder as it was (`ShardBuilder.IndexBuilder.Add`).
* `Add` does not check that a section ends after it starts. Such a section is dropped without an error if it starts past
  the end of the text (`Postings.BackwardDropped`), and then the tables do not agree; if it starts at the end of the text
  the original panics, and the model has an error.
* Of a branch name that is repeated, documents are marked with the first place and queries look for the last, so they do
  not find it (`OpenShard.BranchMeaning`).
* The comment on `Queue` calls it a minimum queue on "indexed commit != latest commit"; the code pops repositories for
  which that holds first.

## Model

| member | source | states |
|---|---|---|
| Varint.GetPut | bits.go:247-264 | a varint reads back as the number that was written, whatever bytes follow it |
| Varint.PutIsLeb | bits.go:247-264 | what is written has seven bits a byte, lowest first, the high bit on all bytes but the last, and the value of the number |
| Varint.LebUnique | bits.go:247-264 | nothing else of that form has the value |
| Varint.PutSize | indexbuilder.go:116 | a 32-bit difference fits into the buffer of eight bytes |
| DeltaCodec.ParseDeltas | bits.go:287-302 | every list of 32-bit offsets, sorted or not, comes back from its differences, because differences and sums wrap alike |
| DeltaCodec.ParseSizedDeltas | bits.go:266-285 | the same with the leading count |
| DeltaCodec.DeltasInjective | bits.go:247-264 | different lists have different bytes |
| DeltaCodec.DeltasAppend | indexbuilder.go:113-119 | one more varint for the difference to the last offset gives the bytes of the longer list |
| DeltaCodec.ToSizedDeltas | bits.go:247-264 | the loop writes the bytes of the list, and they parse back to it |
| DeltaCodec.FromDeltas | bits.go:287-302 | the loop yields the list the bytes stand for |
| DeltaCodec.FromSizedDeltas | bits.go:266-285 | the same after the count |
| DeltaCodec.MarshalDocSections | bits.go:210-217 | sections are written so that they parse back to the same sections |
| DeltaCodec.UnmarshalDocSections | bits.go:219-233 | the loop yields the sections the bytes stand for |
| Utf8.ClosedIffStable | contentprovider.go:125-131 | a text decodes the same whatever follows it if and only if it does not end inside an encoded rune |
| Utf8.Synchronizes | matchiter.go:43-48 | a byte that is not a continuation byte starts a rune |
| Utf8.OccurrenceTokens | matchiter.go:43-48 | where the bytes of a self-contained pattern stand, its runes stand, from the start of a rune |
| Utf8.SelfContainedIffNeverMissed | indexdata.go:196-267 | occurrences of a pattern's bytes are occurrences of its runes in all texts if and only if the pattern is self-contained |
| Utf8.DecodeEncode | bits.go:46-54 | an encoded rune decodes to itself, whatever follows |
| Utf8.OccursIffRunes | matchtree.go:619-629 | a valid pattern's bytes stand at a rune exactly when its runes do, if the text is valid or the pattern has no U+FFFD |
| Utf8.NoReplacementIffExact | matchtree.go:619-629 | where a valid pattern's runes stand its bytes stand, in all texts, if and only if it has no U+FFFD |
| Utf8.ValidIsSelfContained | matchiter.go:43-48 | UTF-8 patterns are self-contained |
| Utf8.RunesOfEncodeAll | query/regexp.go:60 | the string of a literal's runes has those runes |
| Ngrams.UnpackPack | bits.go:109-130 | three runes packed into a trigram unpack to the same runes |
| Ngrams.PackOrder | bits.go:109-111 | trigrams are in the order of their runes, the first rune first |
| Ngrams.SplitNGrams | bits.go:148-188 | one entry for each three consecutive runes, with trigram, byte offset, byte size and rune offset |
| Ngrams.FirstMinarg | indexdata.go:140-150 | the first index of a minimum |
| Ngrams.LastMinarg | indexdata.go:152-162 | the last index of a minimum |
| Ngrams.ChooseTwo | indexdata.go:222-227 | the first rarest trigram and the last rarest of the others, in pattern order, the same only if there is one |
| Ngrams.RarestUnique | indexdata.go:222-227 | the choice is determined by the frequencies |
| Corpus.CorpusHitsExact | indexbuilder.go:89-120 | the posting list of a trigram: increasing, and exactly the corpus positions where the trigram stands inside one document |
| Corpus.WidthOfCorpus | indexbuilder.go:98-100 | the widths of all runes add up to the bytes of all documents |
| Postings.PostingsBuilder.constructor | indexbuilder.go:60-66 | an empty builder describes no documents |
| Postings.PostingsBuilder.NoteRune | indexbuilder.go:90-100 | the ASCII flag and the sample table stay right for one more rune |
| Postings.PostingsBuilder.AddTrigram | indexbuilder.go:109-119 | every trigram's blob and last offset stay those of its posting list |
| Postings.PostingsBuilder.ReadDocument | indexbuilder.go:88-120 | the loop over the runes of a document leaves the tables right for it, and converts the section boundaries it passes |
| Postings.PostingsBuilder.NewSearchableString | indexbuilder.go:71-146 | one more document is described by all tables; it fails exactly when a section boundary is left behind or half a section is found; the sections in runes mark the same places as those in bytes that are found in order |
| Postings.TakeBoundaries | indexbuilder.go:101-105 | all boundaries at the current byte are converted, and none is passed over |
| Postings.FinishBoundaries | indexbuilder.go:123-141 | boundaries at the end of the text are converted; an error exactly when one is left behind, or half a section is found |
| Postings.ConvertedIsTaken | indexbuilder.go:101-135 | what has been converted are the boundaries that are found by looking for them in order |
| Postings.FittingTaken | indexbuilder.go:123-125 | of sections in order inside the text one is left behind exactly if a boundary splits a rune, and otherwise all are found |
| Postings.BackwardDropped | indexbuilder.go:123-133 | a section that starts past the end and ends before is dropped without an error |
| HitIterators.InMemoryIterator.Next | hititer.go:169-177 | exactly the hits above the limit remain |
| HitIterators.CompressedPostingIterator.constructor | hititer.go:187-195 | the iterator over a blob stands for the list the blob encodes |
| HitIterators.CompressedPostingIterator.Next | hititer.go:205-222 | no hit above the limit is lost, and a call with first at or below the limit makes strict progress |
| HitIterators.LagsIff | hititer.go:205-222 | first stays at or below the limit exactly if two or more postings were left and none is above it |
| HitIterators.LagExample | hititer.go:205-222 | two postings for which it does |
| HitIterators.MergingIterator.First | hititer.go:244-254 | the least hit of all iterators, or none |
| HitIterators.MergingIterator.Next | hititer.go:256-260 | the union loses no hit above the limit |
| HitIterators.DistanceHitIterator.Turn | hititer.go:50-65 | one turn of the search for two hits at the distance loses no pair and makes progress |
| HitIterators.DistanceHitIterator.FindNext | hititer.go:48-66 | it ends, and the left iterator stands at the first position with a partner at the distance, or there is none |
| HitIterators.DistanceHitIterator.First | hititer.go:68-74 | the least position in the first list whose sum with the distance is in the second |
| HitIterators.DistanceHitIterator.Next | hititer.go:81-90 | no pair above the limit is lost |
| CaseFolding.Turn | bits.go:29-35 | one step of the odometer over the three fold cycles |
| CaseFolding.GenerateCaseNgrams | bits.go:23-44 | it ends, and lists each trigram of the product of the three fold cycles exactly once |
| TrigramLookup.FrequencyZero | indexdata.go:164-170 | the frequency is zero exactly when the trigram does not occur |
| TrigramLookup.NewTrigramIterator | hititer.go:112-147 | the iterator over the variants stands for all positions of any of them |
| NgramSearch.HitIffTrigramAt | hititer.go:112-147 | inside a document the hits of the variants are exactly the places where the trigram of the pattern stands, up to folding |
| NgramSearch.NoHitsNoPattern | indexdata.go:212-218 | if one trigram of the pattern has no variant in the corpus, the pattern is nowhere |
| NgramSearch.CountVariants | indexdata.go:203-210 | the frequencies of the variants are added without wrapping around |
| NgramSearch.Frequencies | indexdata.go:200-221 | for each trigram of the pattern the frequencies of all its variants together; nothing exactly if one of them is zero |
| NgramSearch.MarkedOffers | indexdata.go:222-234 | the document iterator over the two chosen trigrams offers exactly the places where they stand |
| NgramSearch.PatternOffered | indexdata.go:196-267 | every place where the pattern stands rune by rune is offered, whichever trigrams are chosen |
| NgramSearch.NewDistanceIterator | hititer.go:92-110 | the hits are those of the first trigram with the second one at the distance |
| NgramSearch.IterateNgrams | indexdata.go:196-267 | in every document exactly the places are offered, inside the document, where the two rarest trigrams of the pattern stand up to folding, and none if a trigram of it does not occur |
| DocIterators.NextFileIndex | matchiter.go:134-147 | galloping ends, does not overflow, and finds the least file at or after f whose end exceeds the offset |
| DocIterators.NgramDocIterator.NextDoc | matchiter.go:149-155 | the next document that holds a hit; none that could hold the pattern is passed over |
| DocIterators.NgramDocIterator.Prepare | matchiter.go:161-170 | all hits from the document on are kept, for any increasing sequence of documents |
| DocIterators.NgramDocIterator.Candidates | matchiter.go:177-207 | exactly the hits that lie wholly inside the document, as offsets in it |
| SectionFilter.Trim | matchiter.go:247-277 | of sorted candidates exactly those wholly inside one section are kept, though sections are dropped on the way |
| SectionFilter.TrimBySectionIterator.Prepare | matchiter.go:233-245 | sections that are dropped end before the document |
| SectionFilter.TrimBySectionIterator.Candidates | matchiter.go:247-277 | over any increasing sequence of documents the candidates inside sections are kept, and no others |
| SymbolSections.InsideIffInSymbol | indexbuilder.go:101-105 | a range of runes lies inside a section in runes exactly when its bytes lie inside the section in bytes |
| SymbolSections.SectionsAreOk | indexbuilder.go:394 | the sections of all documents together are in order and do not overlap |
| RuneLookup.Walk | contentprovider.go:125-131 | stepping over n runes adds the bytes of n runes |
| RuneLookup.WalkFromSample | contentprovider.go:108-131 | for closed documents the walk from the sample is exact if and only if the window holds the runes up to the target |
| RuneLookup.FindOffset | contentprovider.go:93-134 | the byte offset in the document of a rune, for any documents exact if and only if the walk from the sample passes the bytes of the runes in between, and 0 if the window cannot be read; for closed documents if and only if the text is a name or the window holds it; the ASCII shortcut agrees |
| RuneLookup.ClosedIffWalksAsApart | contentprovider.go:125-131 | walking through a document and its successor passes the runes of each, for all successors and up to every rune, if and only if the document is closed |
| RuneLookup.UnclosedLookupFails | contentprovider.go:93-134 | for every document below a hundred bytes that is not closed, a successor and a rune that is looked up wrong, in any table of the two whose window can be read |
| RuneLookup.SplitRuneLookup | contentprovider.go:93-134 | two documents that split a rune, and a rune that is looked up wrong |
| RuneLookup.ThreeByteRunesFit | contentprovider.go:120 | with runes of at most three bytes the window always suffices |
| RuneLookup.FourByteRunesOutrun | contentprovider.go:120 | with more than 75 runes of four bytes after a sample it does not |
| ContentMatch.ToLower | bits.go:46-54 | the loop encodes the lower case of each rune |
| ContentMatch.CaseFoldingEqualsRunes | bits.go:89-107 | whether the text starts with the runes up to case, and how many bytes they take |
| ContentMatch.MatchIsRunes | matchiter.go:43-61 | a match of a self-contained pattern, or one up to case where lower case stays on the fold cycles, is a match rune by rune |
| ContentMatch.RunesAreMatch | matchiter.go:43-61 | what stands rune by rune is a match where the pattern is legible, or up to case where the fold cycles stay in lower case |
| ContentMatch.FoundIffBytesOccur | matchiter.go:44-48 | a byte by byte search finds exactly the matches at runes |
| ContentMatch.ClosedIffNoOverrun | matchiter.go:45 | the comparison past the end of the document cannot succeed for any pattern and any following text if and only if the document is closed |
| ContentMatch.OverrunExample | matchiter.go:45 | a document and a pattern for which it succeeds |
| CaseAgreement.MatchesFoldIff | bits.go:23-44 | all matches up to case in all texts are matches along the fold cycles if and only if all runes with the lower case of a rune of the pattern are on its cycle |
| CaseAgreement.NeverMissedIff | indexdata.go:196-267 | then the index offers all of them in every corpus; and only then, if no cycle has runes of the pattern with different lower case |
| CaseAgreement.MixedNeverMissed | indexdata.go:222-227 | a pattern with such a cycle that is never missed although lower case leaves it |
| CaseAgreement.DottedIMissed | bits.go:89-107 | a pattern and a text that are equal up to case, of which nothing is offered |
| ContentSlices.SlicesInsideIff | matchiter.go:45 | all slices stay in the file if and only if the one at the end of the last document with room for the pattern does |
| ContentSlices.RoomAfterSuffices | matchiter.go:45 | they do if the file has room for the pattern after the documents |
| ContentSlices.SliceLeavesFile | matchiter.go:45 | a family of documents and patterns that the index offers and whose slice takes three times the size of the document |
| SubstringMatching.SubstringNode.NextDoc | matchtree.go:126-136 | the next document with a hit; no matching document is passed over |
| SubstringMatching.SubstringNode.SettledShows | matchtree.go:467-492 | the candidates left after matching are exactly the matches the iterator offers |
| SubstringMatching.SubstringNode.Prepare | matchtree.go:219-223 | the candidates hold every match of the document |
| SubstringMatching.SubstringNode.PrunedUnique | matchtree.go:480-489 | pruning has one possible outcome, so pruning again changes nothing |
| SubstringMatching.SubstringNode.Prune | matchtree.go:480-489 | exactly the matching candidates are left, at their bytes and with their sizes |
| SubstringMatching.SubstringNode.Matches | matchtree.go:467-492 | sure exactly if there are no candidates or the cost is that of the text (the name before the content), right when sure; the candidates left are confirmed matches |
| SubstringMatching.SubstringNode.MatchContent | matchiter.go:43-61 | whether the candidate matches, and the size of the match |
| MatchAtoms.BruteForceNode.NextDoc | matchtree.go:239-244 | the document after the last |
| MatchAtoms.RegexpNode.Matches | matchtree.go:431-447 | sure at the regexp cost, and then right; one candidate for each span the engine reports |
| MatchAtoms.DocNode.NextDocSkips | matchtree.go:232-237 | the first listed document that is left |
| MatchAtoms.DocNode.Prepare | matchtree.go:185-195 | the node matches the prepared document exactly when it is listed |
| MatchAtoms.BranchNode.NextDoc | matchtree.go:272-285 | the first document that is left in one of the branches |
| MatchAtoms.BranchNode.Matches | matchtree.go:427-429 | whether the document shares a branch with the mask |
| MatchAtoms.Atom.NextDoc | matchtree.go:228-286 | for every kind of leaf, no matching document is passed over, and the jump ends past the cursor at a document with a hit, in the list or in the branch |
| MatchAtoms.Atom.Matches | matchtree.go:387-492 | for every kind of leaf, right when sure, sure at the highest cost, and with its matches at hand when it matches |
| MatchTree.Tree.NextDoc | matchtree.go:246-270 | for any nesting of and, or and not, no document that satisfies the tree is passed over; the jump is the farthest of the children's for and, the nearest for or |
| MatchTree.Tree.Prepare | matchtree.go:180-226 | every leaf is ready for the document |
| MatchTree.Tree.Matches | matchtree.go:387-492 | a sure value is the boolean meaning of the tree on the document, and every tree is sure at the highest cost; if it matches, the table knows every child of every and/or whose matches count |
| MatchTree.Evaluate | matchtree.go:449-460 | the table of known values stays right, and grows by every sure value and by nothing outside the node |
| MatchTree.AllMatch | matchtree.go:395-408 | a sure value is the conjunction |
| MatchTree.AnyMatches | matchtree.go:410-425 | a sure value is the disjunction |
| MatchTree.NextDocOfAll | matchtree.go:246-255 | no document on which all children match is passed over |
| MatchTree.NextDocOfAny | matchtree.go:257-266 | no document on which a child matches is passed over |
| SearchLoop.Decide | eval.go:169-180 | evaluation at rising cost decides each document as its boolean meaning, and leaves a table that is enough to take the matches; the panic for no decision is not reached |
| SearchLoop.Search | eval.go:137-262 | the loop ends; the documents found are exactly those below the cutoff that satisfy the tree, each with lines of its merged matches; the documents looked at are where the tree jumps to, one a turn; before none of them was the search stopped or the limit of lines reached, and the cutoff is the next one if before it either is so, and otherwise the end of the shard |
| SearchLoop.LookAt | eval.go:164-261 | one document gives a file exactly if it satisfies the tree, with the lines of its matches, and leaves the tree ready for the next |
| DocumentMatches.VisitedExact | matchtree.go:345-365 | matches are taken from exactly the leaves that count by the meaning of the tree; these match and hold their matches |
| DocumentMatches.CollectMatches | eval.go:298-307 | the candidates are exactly the matches of those leaves |
| DocumentMatches.GatherDocument | eval.go:298-348 | the merged matches are in order, strictly apart, of one kind, and cover exactly what the matches of those leaves cover, those in the content if there are any |
| DocumentMatches.FillMatches | contentprovider.go:136-164 | all matches in the name, or divided among the lines of the content |
| DocumentMatches.ShowDocument | eval.go:207-227 | the lines show exactly the merged matches of the leaves that count, or the whole name if there are none |
| Query.FoldClean | query/query.go:342-398 | constant folding leaves no constants, no vacuous atoms and no empty and/or, unless all is one constant |
| Query.EvalIsFold | query/query.go:368-398 | evalConstants, through its recursion with Map, is a bottom-up constant fold |
| Query.MapEvalIsFold | query/query.go:326-332 | mapping evalConstants over a query is the same fold |
| Query.FoldIdempotent | query/query.go:368-398 | folding twice is folding once |
| Simplify.FoldMeaning | query/query.go:342-398 | folding keeps the meaning of every query |
| Simplify.FlattenShrinks | query/query.go:283-324 | flatten makes the query smaller if it reports a change, and leaves it alone if not |
| Simplify.FlattenMeaning | query/query.go:283-324 | flattening keeps the meaning |
| Simplify.SimplifyQuery | query/query.go:400-411 | the loop ends, with the simplified query |
| Simplify.SimplifyMeaning | query/query.go:400-411 | Simplify keeps the meaning of every query |
| Simplify.SimplifyNormal | query/query.go:400-411 | a constant, or a query with constants nowhere, every and/or with at least two children and none directly inside its own kind |
| Simplify.NormalFixed | query/query.go:400-411 | a query of that form is left as it is |
| Simplify.AtomSimplified | query/query.go:376-397 | for each kind of atom, when it becomes true; it is left as it is otherwise |
| Simplify.FlattenKeepsAtoms | query/query.go:283-324 | flattening keeps all atoms, in their order |
| Simplify.SimplifyIdempotent | query/query.go:400-411 | simplifying twice is simplifying once |
| QueryMap.MapMeaning | query/query.go:413-424 | replacing atoms is interpreting them as what replaces them |
| QueryMap.SimplifyMeaningHere | query/query.go:400-411 | Simplify keeps the meaning as soon as the vacuous atoms of this query hold |
| RegexpQuery.MatchImpliesQuery | query/regexp.go:54-88 | where an expression matches, the distilled query holds under any meaning that finds each distilled literal where the engine sees it |
| RegexpQuery.PrefilterSound | query/regexp.go:48-88 | for every expression and text, under such a meaning, if the expression matches anywhere the simplified query holds, so adding it changes nothing |
| RegexpQuery.QueryIffWay | query/regexp.go:54-88 | the distilled query holds if and only if all long literals on some way through the expression are found, one way for each choice of alternatives, without what may be left out |
| RegexpQuery.PrefilterIffWay | query/regexp.go:48-88 | and so does the simplified query: no demand is lost and none is added |
| RegexpQuery.PrefilterSoundIff | query/regexp.go:48-88 | for one comparison in the engine and another in the query: the prefilter passes all matches of all expressions over some literals, in all texts, if and only if runes the engine takes for one of theirs are so for the query |
| CaseAgreement.FoldedPrefilterIff | matchtree.go:496-519 | up to case, if and only if every rune on the fold cycle of a rune of these literals has its lower case |
| CaseAgreement.ExactPrefilterIff | matchtree.go:496-519 | for case sensitive queries, if and only if literals with the fold-case flag have no runes with case variants |
| CaseAgreement.LongSMissed | matchtree.go:496-519 | an expression and a text that matches and is filtered out |
| CaseAgreement.AlternativesCover | matchtree.go:496-519 | an expression that is safe although one of its literals is not |
| CaseAgreement.FoldFlagMissed | query/regexp.go:59-63 | the same for the fold-case flag in a case sensitive query |
| ShardEval.ShardSimplifyMeaning | eval.go:42-58 | partial evaluation keeps the meaning of the query on every document of the shard |
| ShardEval.NoRepoLeft | eval.go:42-58 | neither repository atoms nor languages that the shard does not have are left in the simplified query |
| ShardIndex.IsSubstringIff | eval.go:46 | a string contains another exactly if it is the other with something before and after it |
| ShardEval.RepoOnlyCollapses | eval.go:42-58 | a query about repositories only becomes one constant |
| ShardEval.List | eval.go:391-418 | no error for a query about repositories only; the answer is the meaning of the query on every document |
| ShardEval.EmptyRepoSetDisagrees | query/query.go:392-395 | the empty repository set is true for Simplify and false for a shard |
| ShardEval.SimplifyFirstAgrees | eval.go:42-58 | without empty repository sets, simplifying before a shard sees the query changes nothing |
| TreeBuilder.NewSubstringNode | matchtree.go:612-637 | the node offers exactly the places that the index offers, and holds on exactly the documents in which one of them matches |
| TreeBuilder.MatchIsOffered | matchtree.go:612-637 | every match of a comparable pattern is offered |
| TreeBuilder.FindsIffContains | matchtree.go:612-637 | for a comparable pattern what the index finds are exactly the documents that contain it, exactly or up to case |
| TreeBuilder.OffersAllMatches | matchtree.go:467-492 | the node for a comparable pattern offers all its matches |
| TreeBuilder.CandidatesAreMatches | matchtree.go:467-492 | the candidates left after matching are all matches in the document, each once |
| TreeBuilder.CandidatesAreOccurrences | matchtree.go:467-492 | for a case sensitive pattern they are all occurrences of its bytes in the document |
| TreeBuilder.NewSymbolNode | matchtree.go:591-606 | the node holds on exactly the documents in which a place that the index offers matches inside a symbol |
| TreeBuilder.NewRegexpAtom | matchtree.go:511-519 | the leaf holds on exactly the documents in which the engine finds the expression, and its matches are the spans |
| TreeBuilder.ShortFound | matchtree.go:619-629 | where engine and comparison agree on its runes, a pattern is found exactly where the engine finds its literal |
| QueryTree.BranchMask | matchtree.go:555-565 | the mask shares a bit with exactly the masks of the branches the pattern stands for |
| QueryTree.DocsInLanguage | matchtree.go:576-589 | exactly the documents with the code, in order |
| QueryTree.NewLeaf | matchtree.go:552-606 | the leaf for an atom holds where the index finds the atom and shows its matches; an error only for a symbol search of fewer than three runes |
| QueryTree.LiteralFound | matchtree.go:496-504 | a distilled literal is found by the substring search wherever the engine sees it, if its fold cycles stay in lower case in the documents, or exactly if it is legible |
| QueryTree.PrefilterPasses | matchtree.go:496-504 | then the retargeted prefilter holds on every document the expression matches |
| QueryTree.PrefilterIffWay | matchtree.go:496-504 | the prefilter holds on exactly the documents in which the index finds all literals of some way through the expression |
| QueryTree.NewRegexTree | matchtree.go:496-525 | the tree of expression and prefilter holds on exactly the documents the expression matches, and shows its spans; it is the conjunction of the expression and a tree whose matches are not taken, which holds on exactly the documents with all literals of some way through the expression |
| QueryTree.NewMatchTree | matchtree.go:494-610 | the tree of a query holds on exactly the documents the query does by what the index finds, shows exactly the matches that count, shares no leaf, and names no node twice |
| ShardSearch.ExpandedMeaning | query/query.go:428-448 | searching names and contents separately by what the index finds means the same as the query by looking at the documents |
| ShardSearch.ExpandedShows | query/query.go:428-448 | and shows the same matches |
| ShardSearch.FoldedIsSane | eval.go:77-125 | up to case, a pattern for which lower case stays on the fold cycles is suited to all documents |
| ShardSearch.ExactIsSane | eval.go:77-125 | exactly, a UTF-8 pattern is, if the file has room for it |
| ShardSearch.Search | eval.go:77-272 | the documents found are exactly those below the cutoff on which the query holds, by looking at the documents only, and the lines shown have exactly the bytes of the matches that count; the cutoff is where the loop over the tree of the query was halted, and the end of an empty shard or one that cannot match; an error only for a short symbol search that is left after simplification, in a shard that is not empty |
| ShardBuilder.SortSections | indexbuilder.go:264-268 | a permutation in order of the starts |
| ShardBuilder.CheckSections | indexbuilder.go:347-358 | no error exactly when each section ends before the next starts and the last ends in the text; if they end after they start they then fit into the text |
| ShardBuilder.MaskShows | indexbuilder.go:380-387 | the mask of a document has the bit of exactly its branches, at the first place of each name |
| ShardBuilder.LanguageSelects | indexbuilder.go:401-409 | the code of a language is that of exactly the documents in it |
| ShardBuilder.IndexBuilder.DocumentMask | indexbuilder.go:380-387 | no mask exactly when a branch is unknown |
| ShardBuilder.IndexedIsNoted | indexbuilder.go:336-344 | of a binary document a note with its first zero byte is recorded, of one with a reason to be skipped a note with the reason, both without symbols, and any other as it is |
| ShardBuilder.IndexBuilder.Add | indexbuilder.go:333-412 | exactly when it succeeds; then all tables have one more document, recorded as it is or as such a note, and still agree if sections end after they start; an early error changes nothing |
| SectionFile.U32IsBigEndian | section.go:50-54 | four bytes have the value of the number in big endian exactly if they are what is written |
| SectionFile.U64IsBigEndian | section.go:56-60 | the same of eight bytes |
| SectionFile.ReadPiece | read.go:94-96 | in a file below 2^32 bytes a section reads back as what was written between its start and its end |
| SectionFile.SectionsDiffer | read.go:249-255 | sections of different places differ if the first is not empty |
| SectionFile.Writer.WriteSection | section.go:68-74 | the section points at what was written |
| SectionFile.CompoundSection.AddItem | section.go:128-131 | the offsets stay those of the items |
| SectionFile.CompoundSection.End | section.go:119-126 | items and offsets are in the file, and the section points at them |
| SectionFile.ReadU32s | read.go:102-116 | a section of numbers reads back |
| SectionFile.ReadU64s | read.go:118-132 | the same for 64 bits |
| SectionFile.RelativeIsExact | section.go:150-161 | the relative index of a section that was written is that of its items |
| SectionFile.ReadItem | read.go:306-311 | the bytes between two entries of the relative index are the item |
| TableOfContents.SameOrder | toc.go:66-90 | sections are read back into the places they were written from |
| TableOfContents.WriteTOC | write.go:26-32 | the table in bytes |
| TableOfContents.ReadTOC | read.go:61-92 | a file that ends with a table and its position gives that table back |
| ShardWriter.SortedKeys | write.go:44-48 | the trigrams, each once, in order |
| ShardWriter.WritePostings | write.go:42-71 | trigrams, posting lists, samples and ends are in the file |
| ShardWriter.Write | write.go:73-143 | every table is in the file, where the table of contents says |
| ShardReader.ReadKeyed | read.go:249-261 | tables read through a map keyed by section all come back if no two sections are equal |
| ShardReader.KeyedSections | read.go:249-261 | the five sections differ, because each holds at least its count |
| ShardReader.ReadNgrams | read.go:196-204 | every trigram gets the section of its list |
| ShardReader.ReadNameNgrams | read.go:228-235 | every trigram of the names gets its decoded list |
| ShardReader.ReadIndexData | read.go:143-281 | contents, names, newlines, sections, masks, posting lists and tables come back as they were written, exactly if the tables are of one length; tables that are not are never accepted |
| ShardReader.VerifiedIff | read.go:283-304 | what was written passes the check exactly if there is a mask for each document |
| ShardReader.WrittenEndsWithToc | write.go:136-142 | the file ends with the table and its position |
| ShardReader.NewSearcher | read.go:351-364 | reading the file gives back what was written, under the same condition |
| OpenShard.FrequenciesAreSmall | indexdata.go:203-210 | posting lists of a file below 2^32 bytes have frequencies that add up below 2^32 |
| OpenShard.ReadShardIsIndex | read.go:143-281 | what was built, written and read is the index of the documents that were added |
| OpenShard.WriteShard | write.go:73-143 | the file holds the tables of the builder |
| OpenShard.Open | read.go:351-364 | a file that was written for a builder opens as the index of its documents, with the given case tables and engine, and the ASCII flag exactly if all texts are ASCII; what opens at all has tables of one length and the right version |
| OpenShard.SearchFile | eval.go:77-272 | the answer from a file that was written is the documents, of those added, on which the query holds, with the lines of their matches, up to where the search was halted |
| OpenShard.OneMeaning | eval.go:77-272 | the meaning of a query, what it is simplified to and the matches that count are the same for every shard opened from the file |
| OpenShard.LanguageMeaning | matchtree.go:576-589 | a language query selects the documents added with that language |
| OpenShard.BranchMeaning | matchtree.go:555-569 | a branch query selects the documents added with a branch whose name contains it and is not repeated, HEAD those in the first branch |
| MatchAssembly.CoverDetermines | eval.go:325-345 | intervals in order that do not touch are determined by what they cover |
| MatchAssembly.Merge | eval.go:325-345 | the merged intervals do not touch and cover what the candidates cover; only the first object of a run changes, and all objects together cover what they did |
| MatchAssembly.MergeAgain | eval.go:325-345 | merging the changed objects again gives the same intervals |
| MatchAssembly.KeepKind | eval.go:309-323 | name matches are dropped exactly if there is a content match |
| MatchAssembly.GatherMatches | eval.go:298-348 | in order, strictly apart, covering exactly what the kept candidates cover, never mixing names and contents |
| MatchAssembly.TiesDoNotMatter | eval.go:327 | the intervals do not depend on how the sort breaks ties |
| LineAssembly.NewLinesIndices | write.go:156-164 | exactly the positions of the newlines, in order |
| LineAssembly.Line | matchiter.go:68-84 | line number, start and end of the line that holds an offset |
| LineAssembly.ExtendLine | contentprovider.go:197-208 | the first line end at or after the end of the last match |
| LineAssembly.FillContentMatches | contentprovider.go:166-228 | every match is in exactly one record, by the line it starts on, with fragments inside the line; the panic for a line without matches is not reached |
| LineAssembly.FormatFragments | web/snippets.go:125-141 | the pieces of the fragments give back the line; each has what stands between the match before and its own, its match, and nothing after it unless it is the last |
| LineAssembly.FindSection | contentprovider.go:243-256 | a section that holds the match, exactly if there is one |
| IndexQueue.NextIffFirst | cmd/zoekt-sourcegraph-indexserver/queue.go:118-128 | what the heap puts first is what the comments promise: a stale repository if there is one, and of its kind the one added first |
| IndexQueue.RootFirst | cmd/zoekt-sourcegraph-indexserver/queue.go:118-128 | in a heap nothing comes before the root |
| IndexQueue.Queue.Swap | cmd/zoekt-sourcegraph-indexserver/queue.go:130-134 | positions and back-pointers stay in agreement |
| IndexQueue.Queue.Up | cmd/zoekt-sourcegraph-indexserver/queue.go:72 | a heap but for one key that may be too small becomes a heap |
| IndexQueue.Queue.Down | cmd/zoekt-sourcegraph-indexserver/queue.go:48 | a heap but for one key that may be too large becomes a heap, or is ready for the way up |
| IndexQueue.Queue.Fix | cmd/zoekt-sourcegraph-indexserver/queue.go:74 | a heap in which one key has changed becomes a heap |
| IndexQueue.Queue.AddOrUpdate | cmd/zoekt-sourcegraph-indexserver/queue.go:63-77 | a repository not in the queue enters it with a new number, one in the queue keeps its own; it is a step of a run; heap order, back-pointers and distinct numbers are kept |
| IndexQueue.Queue.SetIndexed | cmd/zoekt-sourcegraph-indexserver/queue.go:79-89 | the indexed commit changes, the queue gains nothing; it is a step of a run; all invariants are kept |
| IndexQueue.Queue.Pop | cmd/zoekt-sourcegraph-indexserver/queue.go:40-53 | a stale repository if one is queued, and of its kind the one added first, with its latest commit; nothing exactly if the queue is empty; it is a step of a run |
| IndexQueue.Queue.Len | cmd/zoekt-sourcegraph-indexserver/queue.go:55-61 | the number of queued repositories |
| IndexQueue.NextUnique | cmd/zoekt-sourcegraph-indexserver/queue.go:118-128 | the repository to pop is unique |
| IndexQueue.StaysQueued | cmd/zoekt-sourcegraph-indexserver/queue.go:63-89 | in every sequence of calls a queued repository keeps its place in line until it is popped |
| IndexQueue.NoStarvation | cmd/zoekt-sourcegraph-indexserver/queue.go:24-32 | a repository that stays stale waits for no more pops than there were repositories ahead of it |
| IndexQueue.FirstInFirstOut | cmd/zoekt-sourcegraph-indexserver/queue.go:118-128 | over every sequence of calls, one that is popped before one that was ahead of it is stale then and the other is not; so of two that stay up to date the first added is popped first |
| IndexQueue.RunTells | cmd/zoekt-sourcegraph-indexserver/queue.go:40-89 | after every sequence of calls, what is queued, its commits and its place in line are told by the calls alone: the last call that set each, and when it entered |
| ShardedSearcher.AllCollected | shards/shards.go:175-196 | when as many results are in as there are shards, each shard sent one and no goroutine has a shard |
| ShardedSearcher.NextInv | shards/shards.go:110-375 | every step of every Search, List and replace keeps the invariant |
| ShardedSearcher.NeverClosedInUse | shards/shards.go:133-138 | in every state of every interleaving no shard is closed while a goroutine uses it |
| ShardedSearcher.ReturnsComplete | shards/shards.go:167-196 | a call that returns has exactly one result from each shard, panicking or not, and leaves no goroutine with a shard |
| ShardedSearcher.NeverStuck | shards/shards.go:162-196 | while a call is outstanding some goroutine can take a step: no deadlock |
| ShardedSearcher.Progress | shards/shards.go:167-196 | every step of a collecting call takes away from its own work and from no other call's |
| ShardHistory.ShardsAreTold | shards/shards.go:358-375 | in every state of every interleaving a key has the shard of the last replace of it, or none if that brought none; exactly the shards that were displaced are closed |
| ShardHistory.ReplacedIsClosed | shards/shards.go:358-375 | the shard whose place a replace takes is closed before |
| ShardHistory.SearchSeesReplace | shards/shards.go:358-375 | a Search or List that fans out after a replace, and before the next one of the key, returns with exactly one result from the shard it brought |
| ShardHistory.TakenByRank | shards/shards.go:319-332 | whenever a worker takes a shard, none that is left to its call has a higher rank |

## Left out

- Scores and their order (matchScore, addScore, SortFilesByScore), and truncation to MaxDocDisplayCount: no exact laws.
- query/parse.go and setCase: queries are taken as trees; a Not without a child is not a tree.
- Lower casing of regular expressions (query/regexp.go:24-44), which only `case:auto` uses.
- EstimateDocCount, statistics, tracing, logging, time limits.
- docSections, which are only used for scores, and the text of version and table size errors.
- Branch names of a result (gatherBranches, branchIndex) and subrepository paths of a result.
- CheckText, Repository.verify, template handling, the HTTP and RPC servers, file watching, mmap and OS files.
- shardedSearcher.Close and the early returns of Search and List on an error of a shard: goroutines may outlive the lock there.
- List across shards: the merging of entries by repository name.
- ShardedSearcher.NextInv: waits for the semaphore are served in order, as the semaphore package does, and a cancelled wait is a step; the time a step takes is not modelled.
- IndexQueue.Queue.AddOrUpdate: sequence numbers are unbounded, where the source's are 64 bits wide; the mutex makes each call one step.
- ShardReader.NewSearcher: a blob that is not a list of deltas is an error here, where the original would panic; corrupt files are otherwise unconstrained.
- ShardBuilder.IndexBuilder.Add: the text added so far is taken to stay below 2^32 bytes.
- TreeBuilder.NewSubstringNode: the pattern is taken to be short enough for sums with it to stay below 2^32, and for slices to stay in the file, as `ContentSlices.SlicesInsideIff` characterises.
- ShardSearch.Search: documents are taken to be closed and their windows to fit, as `ContentMatch.ClosedIffNoOverrun` and `RuneLookup.FindOffset` show they have to, and patterns to be comparable with the documents (`ShardIndex.Comparable`, `QueryTree.LiteralFits`), as the lemmas of `CaseAgreement` and `Utf8` show; a pattern up to case with a rune for which the tables disagree is covered if no document has the runes in question.
- MatchAssembly.GatherMatches: the objects that merging changes are made for the merge, not held by the leaves of the match tree; `MatchAssembly.Merge` and `MatchAssembly.MergeAgain` say what changes in them and that it changes no later gathering.
- Postings.FinishBoundaries: half a section is an error here, where the original panics.
- SubstringMatching.SubstringNode.MatchContent: the bytes after a document are those that follow it in the file, as far as the file goes.
