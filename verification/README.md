# Dictionaries, JSON, sorting and edit distance

This project models the data-structure core of a search system and proves that it does what its
callers rely on.

**The double array of `darts.h`.**  Sorted keys become a minimal word graph: `DawgBuilder` inserts
key by key, freezes finished groups of edges, finds equal states through a hash table and recycles
nodes (`DawgStore`, `DawgTable`, `DawgPending`, `DawgNodes`, `DawgReach`, `DawgMinimal`).  The graph, or the
sorted keys themselves, are packed into an array of 32-bit units (`DartsUnit`) whose slots are found
by exclusive-or (`Bits`, `Pigeonhole`); unfixed slots form a circular list over the last 16 blocks
(`FreeRing`).
`Layout` states who owns which slot and which base, `DartsBuilder`, `DartsPlace`, `DartsFromDawg`
and `DartsFromKeyset` keep that plan, and `DartsSearch` proves the three searches against the
language of the node they start from (`Language`).  `Darts` joins both ends: what a build was given
is what a search answers.

**The array with tails of `darts-clone.h`.**  `CloneBuilder` works a stack of key ranges into a trie
that stops where a single key is left (`CloneTrie`, `CloneWork`, `CloneSlots`, `CloneUnit`); the
rests of the keys and the values go into a byte tail, sorted and merged in one variant and in the
original order in the other (`CloneTail`, `CloneArray`).  Leaf units overwrite their own label;
`CloneSearch` proves that the searches are right nevertheless, because the tail starts with that
label.  `CloneMemory` packs the tail into words behind the array.  `Clone` is the entry point with its
checks on order, repetition and NUL bytes, and with saving and loading.

**The JSON reader and printers.**  `JsonReader` is the recursive-descent reader with cursor, node
stack and error recovery, and `JsonGrammar` the function it computes.  `JsonSpelling` is a grammar of
its own that does not mention the reader: which texts stand for a value and which value that is, with
exactly the reader's liberties. They are: comments, numbers in any form the library converts, control
characters and lone low surrogates in strings, any escape for the second half of a pair, a comma behind
an empty name, any token as the separator behind a comment, and any text behind the value.
`JsonLexing`, `JsonStrings` and `JsonAccepted` prove that the reader accepts exactly these texts with
exactly this meaning; `JsonDocuments` that all texts of RFC 8259 (sections 2 to 7) are among them.
`JsonWriter` holds the compact and the styled printer (`JsonText`, `JsonReal`, `JsonValue`,
`JsonPieces`), `JsonLayout` the laws of their layout; `JsonCanonical` shows that the printers spell
values legally, and `JsonRoundTrip` that what a printer writes is read back as the same tree.
`JsonUnicode` holds escapes against UTF-8, as in section 3 of RFC 3629, and `JsonQuirks` shows texts
outside RFC 8259 that are accepted.

**Two smaller algorithms.**  `QuickSort` is the quicksort with an explicit stack, `EditDistance` the
edit-distance table.

Classes stand for the source's classes and are updated by methods; pools, vectors and the tail are
sequences, raw records are maps or sequences.  Words are natural numbers with the field arithmetic
written out.  Exceptions are results (`Wrappers`).  Clocks, files and callbacks do not occur.

Some behaviour differs from what one would expect; the model follows the code:

- `traverse` on a dictionary without keys takes some texts for prefixes of keys, in both designs. The
  exact texts are stated (`DartsSearch.EmptyDictionaryTraversal`, `CloneSearch.EmptyIsWrong`).
- In `darts-clone.h` a NUL inside the given length ends the query. `commonPrefixSearch` reports the
  empty key, unlike its counterpart in `darts.h`, and from an agent that stands at the end of its key
  it does not report that key again.
- `insert` of the word graph overlooks some NULs inside keys and then stores a wrong key
  (`Darts.Overlooked`, `Darts.OverlookedKey`).
- A tail that passes 4 GiB together with its array overwrites the array (`Clone.Save`).
- The reader accepts text behind the value; an object whose last member has an empty name may end in
  a comma; behind a comment after a member's value, any token is taken for the separator; a lone low
  surrogate becomes bytes that are not UTF-8; names and strings end at their first NUL
  (`JsonQuirks`, `JsonUnicode`).
- Real numbers that are not finite are printed as texts that are not read back, or as zero
  (`JsonQuirks.NotFinite`).
- The sort gives up on some arrays from 971 elements on (`QuickSort.ShortestFailure`).

## Model

| member | source | states |
|---|---|---|
| Darts.BuildAndFind | src/QueryMatch/darts.h:291-325 | after any successful build, with values or without, a lookup returns the value at the first place where the text stands among the keys, and -1 if it stands nowhere; the text is the first `length` bytes of the buffer, or its bytes up to the first NUL if the length is 0 |
| Darts.BuildAndFindText | src/QueryMatch/darts.h:308-324 | after a successful build, looking up the bytes of any text and a NUL, without a length, answers for that text |
| Darts.BuildAndTraverse | src/QueryMatch/darts.h:384-419 | after a successful build, a traversal from the root answers -2 iff no key starts with the bytes of the query, -1 if one does but none equals them, and else the first value; the exact answers without keys |
| Darts.BuildAndFindPrefixes | src/QueryMatch/darts.h:329-381 | after a successful build, the results are the keys that start the bytes of the query, in order of length and with their first values; the rest of the buffer is untouched |
| Language.QueriedText | src/QueryMatch/darts.h:308-324 | a buffer has exactly one text: its bytes up to the first NUL if the length is 0, and else its first `length` bytes |
| Darts.Build | src/QueryMatch/darts.h:1383-1395 | a build succeeds, reports the first bad key, or stops because the array would pass 2^29 units; a finished array answers for exactly the dictionary of first values, the empty key set included; without values and below that limit it succeeds iff the keys are sorted and free of NULs |
| Darts.BuildDawg | src/QueryMatch/darts.h:1420-1433 | the word graph of all accepted keys denotes the dictionary of first values, has no two equal states and no state that the root does not reach; a rejected key, one with a noticed NUL included, ends the build with its own complaint |
| Darts.BuildFromKeyset | src/QueryMatch/darts.h:1534-1624 | the build without values succeeds only for sorted keys without NUL and then answers with first positions; it complains about the order only if some pair of keys is out of order, and about a NUL only if some key has one |
| Darts.Accepted | src/QueryMatch/darts.h:993-1013 | when no NUL is overlooked, the one-by-one checks accept a key list iff it is sorted, has no empty key, no key with a NUL and no negative value |
| Darts.FirstComplaint | src/QueryMatch/darts.h:993-1022 | a list that is not accepted has a first bad key, and the complaint is decided by its bytes: a negative value before an empty key, then a NUL on the way along the key before, then the order |
| Darts.Overlooked | src/QueryMatch/darts.h:1000-1022 | a NUL inside a key is overlooked iff the part in front of it comes behind the key before, or no key was inserted before |
| Darts.OverlookedKey | src/QueryMatch/darts.h:1027-1042 | a concrete key with an overlooked NUL: its front part becomes a key whose value is the number of a state, and the key itself is lost |
| Darts.DictionaryGrows | src/QueryMatch/darts.h:1024-1042 | adding a key changes the dictionary only if the key is new |
| DartsSearch.DoubleArray.ExactMatchSearch | src/QueryMatch/darts.h:291-325 | from any node reached, the loop returns the value of the text in that node's language or -1, and the matched length |
| DartsSearch.DoubleArray.CommonPrefixSearch | src/QueryMatch/darts.h:329-381 | the count is the number of nonempty stored prefixes, the first `max` of them are stored in order, and the rest of the buffer is untouched |
| DartsSearch.DoubleArray.Traverse | src/QueryMatch/darts.h:384-419 | -2 iff no key starts with the consumed text, -1 iff it is only a proper prefix, else the value; the returned position stands on the node for the consumed bytes; for an empty dictionary the exact wrong answers |
| DartsSearch.TraversalsCompose | src/QueryMatch/darts.h:384-419 | going on from where a traversal ended equals one traversal of the longer text, for the specified answers |
| DartsSearch.DoubleArray.TraverseInParts | src/QueryMatch/darts.h:384-419 | two traversals, the second one going on from the node position and key position of the first, give the value and the positions of one traversal of the whole text |
| DartsSearch.WalksCompose | src/QueryMatch/darts.h:384-419 | the walk over the slots, of which the positions are the result, composes in the same way |
| DartsSearch.MatchesAreThePrefixes | src/QueryMatch/darts.h:329-381 | the specified matches are exactly the stored nonempty prefixes, with strictly increasing lengths |
| DartsSearch.EmptyDictionaryTraversal | src/QueryMatch/darts.h:1435-1461 | traversing an empty dictionary is right iff the text is not zero bytes followed by at most one byte other than 1; the failing family is the clash of root offset 1 with the filler offset |
| DartsSearch.DoubleArray.StepInside | src/QueryMatch/darts.h:300-306 | one search step: the label check succeeds iff the node has that edge, and then stands on the right child; failure means no key goes on |
| DartsSearch.DoubleArray.Finish | src/QueryMatch/darts.h:319-324 | the leaf bit tells whether the text is a key, and the unit behind it holds the key's value |
| Layout.LabelCheck | src/QueryMatch/darts.h:302-305 | slot base^c carries label c iff the node at that base has a c-edge, for reserved slots, foreign slots and fillers alike |
| Layout.Step | src/QueryMatch/darts.h:302-305 | following offset and byte from a linked slot leads to the slot of the child |
| Layout.LeafValue | src/QueryMatch/darts.h:319-324 | the slot of a base's own number holds the value of a node that ends a key, and never matches a label |
| Layout.PlaceKeeps | src/QueryMatch/darts.h:1510-1531 | placing a node on free slots keeps the whole plan: one owner per slot, one node per base, every edge in its slot |
| Layout.PlaceKeepsSealed | src/QueryMatch/darts.h:1746-1769 | fillers of retired blocks still lead to unused offsets after any later placement |
| Layout.FullBlock | src/QueryMatch/darts.h:1751-1768 | pigeonhole: if every offset of a block is in use, every slot of that block is reserved, so that no filler is needed |
| FreeRing.LiveSlotsDistinct | src/QueryMatch/darts.h:1352-1354 | indexing the records modulo 4096 never confuses two live slots |
| FreeRing.UnlinkKeepsRing | src/QueryMatch/darts.h:1681-1695 | reserving a slot keeps the circular list: mutual next/prev, exactly the other unfixed live slots, head at the end iff it is empty |
| FreeRing.SpliceKeepsRing | src/QueryMatch/darts.h:1719-1732 | a new block joins the list as its last 256 slots |
| FreeRing.RetireKeepsRing | src/QueryMatch/darts.h:1705-1717 | giving up the oldest block keeps the list once that block has no unfixed slot |
| DartsBuilder.DoubleArrayBuilder.Reserve | src/QueryMatch/darts.h:1681-1695 | removes exactly one slot from the list and keeps all invariants of the builder |
| DartsBuilder.DoubleArrayBuilder.ReserveId | src/QueryMatch/darts.h:1681-1695 | the slot becomes taken, its unit is still zero, and a block is added exactly when the slot lies beyond the array |
| DartsBuilder.DoubleArrayBuilder.ExpandUnits | src/QueryMatch/darts.h:1697-1733 | adds one block, retires at most the oldest one, keeps owned units and all invariants |
| DartsBuilder.DoubleArrayBuilder.LinkBlock | src/QueryMatch/darts.h:1719-1732 | the writes in place join the new records to the list and leave the marks of all live records alone |
| DartsBuilder.DoubleArrayBuilder.ClearBlock | src/QueryMatch/darts.h:1710-1717 | the records of the new block are cleared and the other live ones are not |
| DartsBuilder.DoubleArrayBuilder.UnusedOffset | src/QueryMatch/darts.h:1751-1759 | the first unused offset of the block; if there is none the block has no unfixed slot |
| DartsBuilder.DoubleArrayBuilder.FixBlock | src/QueryMatch/darts.h:1746-1769 | all unowned slots of the oldest block become fillers for its first unused offset, and nothing else changes |
| DartsBuilder.DoubleArrayBuilder.FixAllBlocks | src/QueryMatch/darts.h:1735-1744 | afterwards no block is live and every block that was is filled |
| DartsBuilder.DoubleArrayBuilder.IsValidOffset | src/QueryMatch/darts.h:1662-1679 | true iff the distance can be stored, the offset is unused and the slots of all further labels are unfixed |
| DartsBuilder.DoubleArrayBuilder.FindValidOffset | src/QueryMatch/darts.h:1645-1660 | first fit over the list: the offset puts the first label into the first unfixed slot that works, or lies in the next block if none does |
| DartsBuilder.DoubleArrayBuilder.Arrange | src/QueryMatch/darts.h:1510-1531 | the node gets a new base and all its edges their slots; fails only when the array would pass 2^29 units |
| DartsBuilder.DoubleArrayBuilder.WriteEdge | src/QueryMatch/darts.h:1514-1528 | one more edge of the node gets its slot, its label or its value, and the node's leaf bit |
| DartsBuilder.DoubleArrayBuilder.InitRoot | src/QueryMatch/darts.h:1448-1451 | slot 0 is the root with offset 1 and label 0 |
| DartsPlace.BuildEmpty | src/QueryMatch/darts.h:1435-1461 | the array for no keys answers as the empty dictionary |
| DartsPlace.FinishBuild | src/QueryMatch/darts.h:1456-1460 | when nothing waits any more, the fixed array answers for the root's language |
| DartsFromDawg.BuildFromDawg | src/QueryMatch/darts.h:1435-1461 | packing a finished graph gives an array that answers for the graph's language |
| DartsFromDawg.BuildNode | src/QueryMatch/darts.h:1463-1496 | a state is shared or placed with everything below it; nothing else that waits is touched |
| DartsFromDawg.Share | src/QueryMatch/darts.h:1466-1482 | a state that was placed before is linked through the rank-indexed table if the distance can be stored, and otherwise nothing changes |
| DartsFromDawg.PlaceState | src/QueryMatch/darts.h:1498-1532 | a state is placed and, if it is an intersection, remembered under its rank |
| DartsFromDawg.ShareKeeps | src/QueryMatch/darts.h:1473-1480 | linking a slot to a base that already exists keeps the plan |
| DartsFromKeyset.BuildRange | src/QueryMatch/darts.h:1558-1587 | a range of keys is placed with everything below it; order errors are reported only for ranges out of order, NULs only for ranges that have one, and after a success the range has none |
| DartsFromKeyset.CollectLabels | src/QueryMatch/darts.h:1593-1624 | the labels of a range are its different next bytes in increasing order, the terminator's value is the first position, and keys that end here have no NUL inside |
| DartsFromKeyset.RunLang | src/QueryMatch/darts.h:1573-1586 | the language of a run of equal bytes is what follows that byte in the range |
| DartsUnit.OffsetRoundTrip | src/QueryMatch/darts.h:1269-1279 | an encodable offset below 2^29 reads back exactly; label and leaf bit do not change |
| DartsUnit.LabelRoundTrip | src/QueryMatch/darts.h:1252 | a label reads back; offset and leaf bit do not change |
| DartsUnit.LeafRoundTrip | src/QueryMatch/darts.h:1261-1267 | setting the leaf bit changes nothing else |
| DartsUnit.ValueRoundTrip | src/QueryMatch/darts.h:1251 | a value reads back, and its unit matches no byte as a label |
| BitVector.PopCountIsOnes | src/QueryMatch/darts.h:749-757 | the branch-free count equals the number of ones of a 32-bit word |
| BitVector.BitVector.Build | src/QueryMatch/darts.h:724-741 | afterwards the stored ranks are the counts of ones before each word |
| BitVector.BitVector.Rank | src/QueryMatch/darts.h:702-707 | the rank of a position is the number of ones up to and including it |
| BitVector.BitVector.Set | src/QueryMatch/darts.h:709-715 | changes exactly one bit |
| BitVector.BitVector.Append | src/QueryMatch/darts.h:717-722 | adds one bit, which is 0, and keeps the others |
| BitVector.RankInjective | src/QueryMatch/darts.h:910-915 | different set positions have different ranks, between 1 and the number of ones |
| BitVector.RankOnto | src/QueryMatch/darts.h:910-915 | every rank belongs to a set position, so that intersection numbers are a bijection |
| DawgBuilder.DawgBuilder.Insert | src/QueryMatch/darts.h:990-1043 | keeps the builder's invariant; an accepted key changes the denoted dictionary by exactly that key, a rejected one not at all; the five results are decided by value, length, NULs and order |
| DawgBuilder.DawgBuilder.Finish | src/QueryMatch/darts.h:975-988 | the root denotes the dictionary, no two states of the graph are equal, and each but the root has an edge leading to it; without keys there is no state |
| DawgBuilder.DawgBuilder.Init | src/QueryMatch/darts.h:962-973 | the empty builder denotes the empty dictionary |
| DawgBuilder.DawgBuilder.Walk | src/QueryMatch/darts.h:1000-1022 | finds where the key leaves the pending path, and with it the order of the key and the last one, or a NUL of the key on that path |
| DawgBuilder.DawgBuilder.Flush | src/QueryMatch/darts.h:1057-1100 | freezes all levels above a node; the denoted dictionary does not change, and no state is left without an edge to it |
| DawgBuilder.DawgBuilder.FreezeTop | src/QueryMatch/darts.h:1061-1097 | the last group becomes a state, old or new, and its level keeps the same language |
| DawgBuilder.DawgBuilder.FreezeGroup | src/QueryMatch/darts.h:1067-1095 | returns the equal state if there is one, else appends exactly this one; states stay pairwise different and findable |
| DawgBuilder.DawgBuilder.FindNode | src/QueryMatch/darts.h:1134-1147 | probing ends; it returns the state equal to the pending group, or proves there is none and returns the free table slot for it |
| DawgBuilder.DawgBuilder.FindUnit | src/QueryMatch/darts.h:1120-1132 | probing ends at the first free table slot behind the state's own |
| DawgBuilder.DawgBuilder.ExpandTable | src/QueryMatch/darts.h:1102-1118 | doubles the table; every state can still be reached without crossing a free slot |
| DawgBuilder.DawgBuilder.AreEqual | src/QueryMatch/darts.h:1149-1168 | true iff the state has exactly the pending group's edges |
| DawgBuilder.DawgBuilder.HashNode | src/QueryMatch/darts.h:1185-1195 | walking the nodes gives the hash of the group |
| DawgBuilder.DawgBuilder.HashUnit | src/QueryMatch/darts.h:1170-1183 | walking the units in the opposite order gives the same hash |
| DawgBuilder.DawgBuilder.AppendNode | src/QueryMatch/darts.h:1206-1221 | takes a recycled node if there is one, else a new one, cleared either way |
| DawgBuilder.DawgBuilder.FreeChain | src/QueryMatch/darts.h:1091-1095 | all nodes of the frozen group go to the recycle bin |
| DawgBuilder.DawgBuilder.AppendGroup | src/QueryMatch/darts.h:1077-1086 | the new state is stored with its edges in increasing order |
| DawgBuilder.DawgBuilder.MarkSibling | src/QueryMatch/darts.h:1014-1018 | the node at which the new key branches off gets its sibling flag, and no other does |
| DawgBuilder.DawgBuilder.PushKey | src/QueryMatch/darts.h:1027-1042 | the bytes of the key, its NUL and its value are pushed; the dictionary gains exactly the key |
| DawgTable.NotFound | src/QueryMatch/darts.h:1134-1147 | a free slot met while probing proves that no state has the edges searched for |
| DawgTable.StoreOne | src/QueryMatch/darts.h:1087-1088 | using that free slot keeps every other state reachable |
| DawgTable.SomeFree | src/QueryMatch/darts.h:1064-1065 | a table that is not full has a free slot on every probe path |
| DawgStore.AppendState | src/QueryMatch/darts.h:1077-1086 | appending the edges of a finished state keeps the store in order and all old states as they were |
| DawgStore.LookupKept | src/QueryMatch/darts.h:1077-1086 | old states keep their language when states are added |
| DawgPending.FreezeLookup | src/QueryMatch/darts.h:1057-1100 | replacing the last open level by its state keeps every lookup |
| DawgPending.BranchLookup | src/QueryMatch/darts.h:1027-1042 | branching off changes the lookup of the new key only |
| DawgNodes.PushLeaf | src/QueryMatch/darts.h:1027-1042 | pool, stack and bin stay disjoint and in order when the end of a key is pushed |
| DawgMinimal.Minimal | src/QueryMatch/darts.h:1071-1089 | different states have different languages |
| DawgMinimal.StatesAreResiduals | src/QueryMatch/darts.h:1057-1100 | the states of a finished graph are exactly the nonempty residual languages of its dictionary: every state is what can follow after some text, everything that can follow after a text is a state, and only one |
| DawgMinimal.FewestStates | src/QueryMatch/darts.h:1057-1100 | no graph that denotes the same dictionary has fewer states |
| DawgReach.FreezeUses | src/QueryMatch/darts.h:1061-1097 | freezing a group leaves no state without an edge to it, from the open part or from another state |
| DawgReach.AllReached | src/QueryMatch/darts.h:1057-1100 | every state is reached from the root by some text |
| DawgReach.FollowLang | src/QueryMatch/darts.h:1057-1100 | what follows after a text in the graph is the residual of the language |
| Clone.BuildAndFind | src/index/index_da/darts-clone.h:1028-1121 | after any successful build, in either variant, a lookup finds the text iff one of the buffers holds it, and then returns the value at the first such place, or the place itself as a 32-bit number if no values are given; buffers and query are compared byte by byte |
| Clone.BuildAndTraverse | src/index/index_da/darts-clone.h:1180-1228 | the same for a traversal from the root: -2 iff no buffer starts with the text, -1 if one does but none holds it, and else the first value; the exact answers without keys |
| Clone.BuildAndFindPrefixes | src/index/index_da/darts-clone.h:1124-1177 | the results are the keys that start the text, in order of length and with their first values; the rest of the buffer is untouched |
| Clone.FirstComplaint | src/index/index_da/darts-clone.h:1044-1057 | a list that is not accepted has a first bad key: one with a NUL or one below the key before it, as its bytes show |
| Clone.KeptIsAnswer | src/index/index_da/darts-clone.h:1047-1063 | what is found among the kept keys is the answer that the buffers of the input decide |
| Clone.OneText | src/index/index_da/darts-clone.h:1039-1065 | a buffer holds exactly one text: the bytes up to its length, or up to the first NUL if no lengths are given |
| Clone.BothVariants | src/index/index_da/darts-clone.h:1266-1269 | sorting and merging the rests changes no answer of a lookup |
| Clone.BuildSaveAndFind | src/index/index_da/darts-clone.h:901-908 | a dictionary that was built, saved and loaded again answers as the buffers, values and query bytes decide; two gigabytes for the keys, with five bytes more for each, always fit |
| Clone.Save | src/index/index_da/darts-clone.h:695-775 | the memory holds the array and the tail behind it iff both together do not pass 4 GiB, where the 32-bit position of the next byte starts again at 0 |
| Clone.SetArray | src/index/index_da/darts-clone.h:901-908 | the second unit of a saved memory tells where the tail begins; the loaded array has the same keys and values |
| CloneMemory.UnitVector.AppendTail | src/index/index_da/darts-clone.h:695-775 | the bytes of the tail, appended one by one to the vector of words, are in their places iff they end below 4 GiB; otherwise the vector stays too short |
| CloneMemory.UnitVector.AppendByte | src/index/index_da/darts-clone.h:767-775 | one byte is written at the 32-bit position, the vector grows by a unit exactly when it is full, and no other byte changes |
| CloneMemory.ByteRoundTrip | src/index/index_da/darts-clone.h:767-775 | writing one byte of a word leaves the other three |
| CloneMemory.FoundAgain | src/index/index_da/darts-clone.h:901-908 | units and tail are found again in the memory that holds them |
| Clone.Build | src/index/index_da/darts-clone.h:1028-1075 | a build succeeds, names the first bad key, or stops because the array or the tail has become too long; the searches may then start from the root |
| Clone.ReadKeys | src/index/index_da/darts-clone.h:1039-1065 | the loop complains about the first bad key or keeps each different key once, with its first value |
| Clone.Accepted | src/index/index_da/darts-clone.h:1044-1057 | the one-by-one checks accept a key list iff it is sorted, repetitions allowed, and no key contains a NUL |
| Clone.Compare | src/index/index_da/darts-clone.h:167-173 | the sign of the result tells the order of two keys |
| Clone.KeptAnswers | src/index/index_da/darts-clone.h:1047-1063 | the kept keys are the given ones, and each has the value of its first occurrence |
| CloneSearch.TailedArray.ExactMatchSearch | src/index/index_da/darts-clone.h:1086-1121 | from any agent, the text is found iff it completes a key, with that key's value |
| CloneSearch.AskedText | src/index/index_da/darts-clone.h:1086-1121 | a query has one text: the bytes from its start up to the length, or to a NUL if there is one before |
| CloneSearch.TailedArray.CommonPrefixSearch | src/index/index_da/darts-clone.h:1124-1177 | the count is the number of keys that end in the text, the first `max` are stored in order and the rest of the buffer is untouched; an agent at the end of its key does not report that key again |
| CloneSearch.TailedArray.Traverse | src/index/index_da/darts-clone.h:1180-1228 | answers with the value, -1 for a proper prefix of a key or -2; the position stops behind the longest part that starts a key, and the agent stands there, so that a search can go on, or was led from a node to a leaf whose rest does not go on with the next byte; without keys the exact answers and positions from every agent |
| CloneSearch.EmptyIsWrong | src/index/index_da/darts-clone.h:1180-1228 | without keys a traversal is right iff the text is neither empty nor, from the root, a single byte from 2 on |
| CloneSearch.MatchesAreThePrefixes | src/index/index_da/darts-clone.h:1124-1177 | the specified matches are exactly the stored prefixes, with strictly increasing lengths |
| CloneSearch.Step | src/index/index_da/darts-clone.h:1095-1105 | one step from a node: to the leaf of the only key left, to the child node, or nowhere; a leaf of another base is told apart by the first byte behind it |
| CloneSearch.ForeignEdge | src/index/index_da/darts-clone.h:1097-1110 | a slot of another base fails the label check, or is a leaf whose rest starts with another byte |
| CloneSearch.FillerEdge | src/index/index_da/darts-clone.h:656-691 | a filler never passes the label check |
| CloneSearch.LeafDecides | src/index/index_da/darts-clone.h:1108-1118 | the rest behind the leaf decides whether the text is a key |
| CloneSearch.TailedArray.CompareRest | src/index/index_da/darts-clone.h:1108-1118 | compares text and rest up to the NUL or the first difference, inside the tail |
| CloneSearch.TailedArray.MatchRest | src/index/index_da/darts-clone.h:1160-1168 | finds whether the rest ends inside the text |
| CloneSearch.TailedArray.NodeEnd | src/index/index_da/darts-clone.h:1135-1147 | the end flag tells whether a key ends here, and the stray leaf holds its value |
| CloneSearch.TailedArray.TraverseNodes | src/index/index_da/darts-clone.h:1183-1210 | the part of a traversal over nodes decides, or arrives in the leaf of the only key that can go on |
| CloneSearch.TailedArray.TraverseRest | src/index/index_da/darts-clone.h:1212-1227 | the part behind a leaf decides and moves the agent's link along the rest |
| CloneSearch.TailedArray.RestStops | src/index/index_da/darts-clone.h:1212-1227 | how far the comparison of a rest comes, and when the agent then stands on the only key left |
| CloneBuilder.CloneBuilder.Build | src/index/index_da/darts-clone.h:425-429 | every key has its own leaf, whose link leads to the rest of the key and to its value; fails only for 2^29 units or a link that does not fit; the tail takes at most the bytes of the keys and five more for each |
| CloneBuilder.CloneBuilder.BuildTrie | src/index/index_da/darts-clone.h:445-466 | the array is a minimal-prefix trie of the keys: every edge in its slot, every other slot a filler, unit 1 holding the number of units; reserved slots and counted unused ones add up to all units; the exact array for no keys |
| CloneBuilder.CloneBuilder.FinishTrie | src/index/index_da/darts-clone.h:462-465 | fixing the last blocks and storing the size keeps the trie, leaves no slot unfixed and accounts for every slot |
| CloneBuilder.CloneBuilder.BuildTrieSubroutine | src/index/index_da/darts-clone.h:469-538 | the work stack ends with nothing waiting and the trie in order |
| CloneBuilder.CloneBuilder.PlaceNode | src/index/index_da/darts-clone.h:495-536 | one inner node is placed: labels listed, offset found, children reserved and put on the stack, keys advanced; the work left shrinks |
| CloneBuilder.CloneBuilder.MarkLeaf | src/index/index_da/darts-clone.h:484-493 | an edge with one key becomes a leaf and the key steps back; the work left shrinks |
| CloneBuilder.CloneBuilder.ListLabels | src/index/index_da/darts-clone.h:495-513 | the labels are the different next bytes in increasing order, the ranges are their runs of keys |
| CloneBuilder.CloneBuilder.LinkNode | src/index/index_da/darts-clone.h:496-518 | the unit gets its end flag iff a key ends below it and an offset that leads to a new base; fails only beyond 2^29 |
| CloneBuilder.CloneBuilder.ReserveChildren | src/index/index_da/darts-clone.h:520-532 | every edge gets a slot of its own with its label, and no other unit in use changes |
| CloneBuilder.CloneBuilder.FindOffsetIndex | src/index/index_da/darts-clone.h:541-578 | first fit over the list of unfixed slots, or the next block with the index's last byte |
| CloneBuilder.CloneBuilder.IsFree | src/index/index_da/darts-clone.h:553-573 | true iff the offset is unused, the distance can be stored and the slots of all further labels are unfixed |
| CloneBuilder.CloneBuilder.ReserveIndex | src/index/index_da/darts-clone.h:581-597 | the slot leaves the list, its unit is still zero; a block is added exactly when the slot lies beyond the array |
| CloneBuilder.CloneBuilder.UnlinkRecord | src/index/index_da/darts-clone.h:588-596 | the neighbours in the list are joined and the slot is fixed |
| CloneBuilder.CloneBuilder.ExpandTrie | src/index/index_da/darts-clone.h:600-641 | adds one block, fixes at most the oldest one, keeps reserved units and all invariants |
| CloneBuilder.CloneBuilder.LinkBlock | src/index/index_da/darts-clone.h:626-640 | the new block joins the circular list, and the marks of the live records stay |
| CloneBuilder.CloneBuilder.FixBlock | src/index/index_da/darts-clone.h:656-691 | all slots of the oldest block that nobody owns lead to its first unused offset, and nothing else changes |
| CloneBuilder.CloneBuilder.UnusedOffset | src/index/index_da/darts-clone.h:667-677 | the first unused offset of a block; if there is none, the block has no unfixed slot |
| CloneBuilder.CloneBuilder.FixAllBlocks | src/index/index_da/darts-clone.h:644-653 | afterwards every block is fixed |
| CloneBuilder.CloneBuilder.ArrangeSuffixes | src/index/index_da/darts-clone.h:695-746 | every leaf links to its key's rest and value; a rest that is a suffix of the one before it shares its bytes unless all value numbers there are taken by other values; the tail stays within its bound |
| CloneBuilder.CloneBuilder.ArrangeOne | src/index/index_da/darts-clone.h:712-744 | one more key is linked, and the others stay linked |
| CloneBuilder.CloneBuilder.ChooseGroup | src/index/index_da/darts-clone.h:712-732 | a rest goes into the last group iff it is a suffix of the rest before it and its value has a number there or room for one |
| CloneBuilder.CloneBuilder.AppendSuffix | src/index/index_da/darts-clone.h:749-755 | the tail grows by the rest and its NUL |
| CloneBuilder.CloneBuilder.AppendValue | src/index/index_da/darts-clone.h:758-764 | the tail grows by the bytes of the value |
| CloneTail.IsSuffixOf | src/index/index_da/darts-clone.h:176-182 | true iff one rest is a suffix of the other |
| CloneTail.ComesBefore | src/index/index_da/darts-clone.h:134-144 | the loop decides the order of reversed rests |
| CloneTail.BeforeOrders | src/index/index_da/darts-clone.h:134-144 | the comparison is asymmetric, and different rests can always be compared, as a sort needs it |
| CloneTail.BeforeTransitive | src/index/index_da/darts-clone.h:134-144 | the comparison is transitive |
| CloneTail.SortedIsOrdered | src/index/index_da/darts-clone.h:701-705 | the sorted keys are in decreasing order of their reversed rests |
| CloneTail.SortIsStable | src/index/index_da/darts-clone.h:701-705 | keys with equal rests keep their order, and no key is lost |
| CloneTail.SuffixesAreNeighbours | src/index/index_da/darts-clone.h:701-721 | in sorted order a rest that is a suffix of any other one, or of an equal one before it, is a suffix of its predecessor: looking back one step finds all that can be shared |
| CloneTail.ValueRoundTrip | src/index/index_da/darts-clone.h:758-764 | a 32-bit value reads back from its four bytes |
| CloneTail.SuffixIsStored | src/index/index_da/darts-clone.h:734-737 | a suffix of the stored rest is stored as well, ending at the same NUL |
| CloneTail.SortedSize | src/index/index_da/darts-clone.h:695-764 | the bound on the size of the tail does not depend on the order of the keys |
| CloneTrie.PlaceKeeps | src/index/index_da/darts-clone.h:515-533 | placing a span at a new base keeps the trie: one owner per slot, every edge of every node in its slot |
| CloneTrie.LeafKeeps | src/index/index_da/darts-clone.h:484-493 | marking a leaf keeps the trie |
| CloneTrie.TerminatorIsSingle | src/index/index_da/darts-clone.h:482-484 | only one key ends in a node, so that the terminator's edge is always a leaf |
| CloneWork.NodePlaced | src/index/index_da/darts-clone.h:495-536 | every key stays done or waiting in exactly one slot, at that slot's depth, and the work left shrinks |
| CloneWork.LeafPlaced | src/index/index_da/darts-clone.h:484-493 | the same for a finished leaf, whose key now stands on the leaf's label |
| CloneSlots.FullBlock | src/index/index_da/darts-clone.h:667-679 | pigeonhole: a block without unused offset has no unfixed slot, as the assertion there demands |
| Pigeonhole.AllOwned | src/index/index_da/darts-clone.h:667-679 | if every number of a block owns a slot of the block, every slot is owned |
| CloneSlots.FixStep | src/index/index_da/darts-clone.h:681-690 | turning the first unfixed slot into a filler keeps list, owners and fillers |
| CloneSlots.ChosenStorable | src/index/index_da/darts-clone.h:541-578 | an offset that was chosen and lies below 2^29 can be stored without loss |
| CloneUnit.OffsetRoundTrip | src/index/index_da/darts-clone.h:278-304 | a storable offset reads back exactly; label, leaf and end bits do not change |
| CloneUnit.TailRoundTrip | src/index/index_da/darts-clone.h:286-307 | value number and link of a leaf read back |
| CloneUnit.LinkRoundTrip | src/index/index_da/darts-clone.h:287-307 | moving the link changes neither the leaf bit nor the value number |
| JsonRoundTrip.WriteFastAndRead | src/jsoncpp/json_writer.cpp:208-274 | whatever the compact printer writes is read back as the same tree, with or without the extra space after colons, provided that the library restores the real numbers in it from their shortened text |
| JsonRoundTrip.WriteStyledAndRead | src/jsoncpp/json_writer.cpp:288-444 | whatever the styled printer writes is read back as the same tree, under the same condition on real numbers |
| JsonRoundTrip.FastRoundTrip | src/jsoncpp/json_writer.cpp:219-274 | the compact text denotes the value |
| JsonRoundTrip.StyledRoundTrip | src/jsoncpp/json_writer.cpp:303-444 | the styled text denotes the value |
| JsonRoundTrip.ReadsBack | src/jsoncpp/json_reader.cpp:186-233 | any layout of a value's tokens, with any spaces between them, is read as that value |
| JsonAccepted.AcceptedIff | src/jsoncpp/json_reader.cpp:142-182 | a document is read iff a text of the independent grammar stands at its beginning, and then as the meaning of that text: everything malformed is refused |
| JsonAccepted.SpansRead | src/jsoncpp/json_reader.cpp:186-233 | from any position, what the independent grammar spells is read as its meaning, and the reader stops where it ends |
| JsonAccepted.ValueFound | src/jsoncpp/json_reader.cpp:186-233 | from any position, what the reader reads is spelled by the independent grammar, with the value as its meaning |
| JsonAccepted.ElementsFound | src/jsoncpp/json_reader.cpp:542-567 | elements that are read are separated by commas, with nothing but spaces and comments in front of them, and end in a closing bracket |
| JsonAccepted.MembersFound | src/jsoncpp/json_reader.cpp:475-524 | members that are read have a name, a colon without a comment in front of it, a value, and a comma or one of the liberties, and end in a closing brace |
| JsonLexing.AnyTokenLexed | src/jsoncpp/json_reader.cpp:265-336 | which characters the reader takes for one token behind a comment |
| JsonLexing.LexedGap | src/jsoncpp/json_reader.cpp:237-251 | the next token that is no comment stands behind spaces and comments only |
| JsonLexing.CommentLexed | src/jsoncpp/json_reader.cpp:369-405 | a comment reaches from a slash and a star to the next star and slash, or from two slashes to the end of the line |
| JsonLexing.NumberLexed | src/jsoncpp/json_reader.cpp:443-451 | a number is the longest run of number characters behind a digit or a minus sign |
| JsonLexing.StringLexed | src/jsoncpp/json_reader.cpp:455-467 | a string ends at the first quote that no backslash stands in front of |
| JsonLexing.HexIs | src/jsoncpp/json_reader.cpp:754-776 | four hexadecimal digits, in either case, are read as the number they stand for by their places in the list of digits; anything else is refused |
| JsonLexing.NumberMeaningIs | src/jsoncpp/json_reader.cpp:573-623 | digits up to 2147483647 give a signed number, up to 2^64 - 1 an unsigned one, behind a minus sign up to 2^63 a negative one, each exactly; all others are left to the library |
| JsonStrings.CharsDecode | src/jsoncpp/json_reader.cpp:678-720 | plain characters, escapes and pairs of escapes are decoded to their bytes |
| JsonStrings.InsideChars | src/jsoncpp/json_reader.cpp:678-720 | whatever is decoded consists of such characters |
| JsonDocuments.EveryDocumentIsRead | src/jsoncpp/json_reader.cpp:142-182 | every text of RFC 8259, with any spelling of its strings and numbers and any spaces between its tokens, is a text of the reader's grammar and read as its meaning; with a strict root exactly the arrays and objects are |
| JsonDocuments.ReadsSpelled | src/jsoncpp/json_reader.cpp:186-233 | any spelling of a value, at any place where it can end, is read as its meaning |
| JsonCanonical.SpelledMeaning | src/jsoncpp/json_writer.cpp:219-274 | the spelling that the printers choose is legal and means the value |
| JsonCanonical.ShortestEscape | src/jsoncpp/json_writer.cpp:120-183 | the printers choose the shortest legal spelling of every character, with capitals for hexadecimal digits |
| JsonLayout.WriteStyled | src/jsoncpp/json_writer.cpp:288-299 | the styled text of a document is the list of its lines, each behind three spaces for every container around it that takes several lines, and a line end |
| JsonLayout.StyledIndentation | src/jsoncpp/json_writer.cpp:303-444 | on the text alone: every line starts with exactly three spaces for each bracket that is still open at the end of an earlier line, one less if the line starts by closing it |
| JsonLayout.StyledDocument | src/jsoncpp/json_writer.cpp:303-361 | the printer with its current indentation, its collected texts and its look at the last character prints these lines |
| JsonLayout.LayoutIs | src/jsoncpp/json_writer.cpp:417-444 | an array stands on one line iff it has fewer than 25 elements, each a scalar or empty, and the line with brackets, commas and spaces is shorter than 74 characters |
| JsonLayout.WriteCompact | src/jsoncpp/json_writer.cpp:208-215 | the compact text is the tokens of the value one after the other, with a space behind colons if that is asked for, and a line end |
| JsonLayout.CompactIsTokens | src/jsoncpp/json_writer.cpp:219-274 | the compact printer adds nothing to the tokens of the value |
| JsonValue.FirstDifference | src/jsoncpp/json_reader.cpp:505-515 | members are ordered by the first difference of their names |
| JsonCanonical.ShortenedIsNumber | src/jsoncpp/json_writer.cpp:75-112 | a JSON number stays one when zeros at its end are removed |
| JsonReader.Reader.Parse | src/jsoncpp/json_reader.cpp:142-182 | ends for every text, leaves only the root on the node stack, succeeds iff the error list is empty and iff a text of the independent grammar stands at the beginning, whose meaning is then the root |
| JsonReader.Reader.ReadValue | src/jsoncpp/json_reader.cpp:186-233 | the value on top of the stack becomes the one the grammar gives; on failure at least one error is recorded and the rest of the stack is kept |
| JsonReader.Reader.ReadObject | src/jsoncpp/json_reader.cpp:471-526 | reads the members the grammar gives, recovering from errors at the closing brace |
| JsonReader.Reader.ReadMember | src/jsoncpp/json_reader.cpp:497-524 | one member: name, colon, value and separator |
| JsonReader.Reader.ReadArray | src/jsoncpp/json_reader.cpp:530-569 | reads the elements the grammar gives |
| JsonReader.Reader.ReadElement | src/jsoncpp/json_reader.cpp:542-567 | one element and the mark behind it |
| JsonReader.Reader.ReadToken | src/jsoncpp/json_reader.cpp:265-336 | the token at the cursor, and the cursor behind it, for every text |
| JsonReader.Reader.SkipCommentTokens | src/jsoncpp/json_reader.cpp:237-251 | the next token that is no comment, if comments are allowed |
| JsonReader.Reader.ReadNumber | src/jsoncpp/json_reader.cpp:443-451 | the cursor moves behind the longest run of number characters |
| JsonReader.Reader.ReadString | src/jsoncpp/json_reader.cpp:455-467 | the cursor moves behind the first quote that is not escaped |
| JsonReader.Reader.ReadComment | src/jsoncpp/json_reader.cpp:369-393 | recognises block and line comments |
| JsonReader.Reader.RecoverFromError | src/jsoncpp/json_reader.cpp:794-807 | stops behind the first token of the kind asked for, or behind the last token, and drops the errors met on the way |
| JsonReader.Reader.DecodeNumberToken | src/jsoncpp/json_reader.cpp:573-623 | whole numbers that fit are stored exactly, with the sign and the width the source chooses; all others go to the real-number path |
| JsonReader.Reader.ReadDigits | src/jsoncpp/json_reader.cpp:598-616 | the accumulated number is exact and never passes the limit; digits are handed on iff the number denoted is larger than the limit |
| JsonReader.Reader.DecodeText | src/jsoncpp/json_reader.cpp:678-720 | the decoded string is what the token denotes; every malformed escape is reported |
| JsonReader.Reader.DecodeUnicodeCodePoint | src/jsoncpp/json_reader.cpp:724-750 | one escape, or two for a surrogate pair, give the code point |
| JsonReader.Reader.DecodeUnicodeEscapeSequence | src/jsoncpp/json_reader.cpp:754-776 | four hexadecimal digits give their number, anything else an error |
| JsonText.Utf8ReadsBack | src/jsoncpp/json_tool.h:18-52 | a code point up to 10FFFF decodes back from its UTF-8 form by the rules of section 3 of RFC 3629, whatever follows, iff it is no surrogate |
| JsonUnicode.EscapeIsUtf8 | src/jsoncpp/json_reader.cpp:724-750 | a decoded escape is UTF-8 iff it is no low surrogate without a high one in front |
| JsonUnicode.DecodedIsUtf8 | src/jsoncpp/json_reader.cpp:678-720 | a string whose bytes are UTF-8 decodes to UTF-8 iff its surrogates are paired |
| JsonUnicode.LoneSurrogate | src/jsoncpp/json_reader.cpp:724-750 | a lone low surrogate is accepted and becomes bytes that are not UTF-8 |
| JsonQuirks.BraceBehindComma | src/jsoncpp/json_reader.cpp:475-492 | an object may end behind a comma iff the name of its last member is empty |
| JsonQuirks.EmptyNameAndComma | src/jsoncpp/json_reader.cpp:475-492 | a text with a comma behind a member with an empty name is read |
| JsonQuirks.SeparatorBehindComment | src/jsoncpp/json_reader.cpp:506-521 | behind a value and a comment every token but the closing brace counts as the separator |
| JsonQuirks.ColonBehindComment | src/jsoncpp/json_reader.cpp:506-521 | a text with a colon in the place of that separator is read |
| JsonQuirks.TextBehindValue | src/jsoncpp/json_reader.cpp:142-182 | what follows the value is not looked at |
| JsonQuirks.NotFinite | src/jsoncpp/json_writer.cpp:75-112 | what the printers write for infinities and for not-a-number is not read back; negative infinity at the root is read as zero |
| JsonText.UintToString | src/jsoncpp/json_tool.h:78-89 | writing digits backwards gives the decimal text |
| JsonText.DecimalReadsBack | src/jsoncpp/json_tool.h:78-89 | the decimal text denotes the number |
| JsonText.IntToString | src/jsoncpp/json_writer.cpp:35-47 | signed 64-bit numbers, the smallest included, are written with their sign |
| JsonReal.RealToString | src/jsoncpp/json_writer.cpp:75-112 | the two loops over the printed text of a real number cut off the zeros at its end as specified |
| JsonReal.ShortenedIsSame | src/jsoncpp/json_writer.cpp:75-112 | only zeros behind the decimal point are removed, at least one digit stays there, and the digits denote the same fraction |
| JsonReal.ShortenedWhen | src/jsoncpp/json_writer.cpp:75-112 | a printed number is shortened iff it ends in two zeros behind a point and nothing but digits follows that point |
| JsonText.ValueToQuotedString | src/jsoncpp/json_writer.cpp:120-183 | every character is escaped or copied as specified, on the fast path as on the slow one |
| JsonValue.PutKeepsOrder | src/jsoncpp/json_reader.cpp:505-515 | members stay ordered by name; the new member can be found and the others do not change |
| JsonWriter.FastWriter.Write | src/jsoncpp/json_writer.cpp:208-215 | the text is the compact form and a line end |
| JsonWriter.FastWriter.WriteValue | src/jsoncpp/json_writer.cpp:219-274 | appends exactly the compact form of the value |
| JsonWriter.StyledWriter.Write | src/jsoncpp/json_writer.cpp:288-299 | the text is the styled form and a line end |
| JsonWriter.StyledWriter.WriteValue | src/jsoncpp/json_writer.cpp:303-361 | appends the styled form at the current indentation, or collects the text of a simple value; the indentation is restored |
| JsonWriter.StyledWriter.WriteArrayValue | src/jsoncpp/json_writer.cpp:364-413 | the array on one line or on many, with the collected texts used exactly when they exist |
| JsonWriter.StyledWriter.IsMultineArray | src/jsoncpp/json_writer.cpp:417-444 | decides the layout as specified and leaves the texts of all elements behind when the array fits on a line |
| JsonWriter.StyledWriter.WriteIndent | src/jsoncpp/json_writer.cpp:458-469 | a line end unless one is there, then the indentation |
| QuickSort.QuickSortAsc | src/include/gary_common/gary_sort.h:11-111 | on 0 the range is sorted and a permutation of its input with everything outside unchanged; on -1 it is still a permutation; -1 comes only from ranges that are at least 96 times the halvings and 11 elements long, and of every such length some range gives it; the explicit stack is never indexed past its end |
| QuickSort.Partition | src/include/gary_common/gary_sort.h:53-91 | everything left of the pivot is not larger and everything right of it not smaller; only the range is shuffled |
| QuickSort.SortShort | src/include/gary_common/gary_sort.h:29-52 | ranges below 16 are sorted by insertion behind the sunken least element |
| QuickSort.RangesSpread | src/include/gary_common/gary_sort.h:92-96 | many pending ranges need many elements, which bounds the stack exactly |
| QuickSort.GivesUp | src/include/gary_common/gary_sort.h:11-111 | for every length from the bound on there is an array that the sort gives up on |
| QuickSort.ShortestFailure | src/include/gary_common/gary_sort.h:11-111 | sorting from index 0 can fail for 971 elements and for no fewer |
| QuickSort.TrapSprings | src/include/gary_common/gary_sort.h:53-91 | one partition of such an array splits off its last three elements and leaves an array of the same kind |
| EditDistance.EditTokens | src/include/common/EditDist.cpp:20-68 | the table's last cell is the distance |
| EditDistance.NoShorterScript | src/include/common/EditDist.cpp:20-68 | no script of insertions, deletions and substitutions is shorter than the distance |
| EditDistance.BestScript | src/include/common/EditDist.cpp:20-68 | some script has exactly that length |
| EditDistance.Symmetric | src/include/common/EditDist.cpp:20-68 | the distance is symmetric |
| EditDistance.ZeroOnlyForEqual | src/include/common/EditDist.cpp:20-68 | it is zero only for equal sequences |
| EditDistance.Triangle | src/include/common/EditDist.cpp:20-68 | it satisfies the triangle inequality |

## Left out

- Darts.Build: keys that go through the word graph have less than 2^30 bytes together, so that its words can number them, and none has a NUL that `insert` overlooks; what such keys leave in the graph is shown for one key only. Their length says where keys end, and the byte there is NUL, as `insert` reads it. Values are 32-bit numbers.
- CloneBuilder.CloneBuilder.ArrangeSuffixes: the sort is a library call there; it is modelled by a stable insertion sort on values. The tail is built as a sequence and packed by `Clone.Save` afterwards, while the source writes links and bytes in turn; below 4 GiB they touch different units. Bytes of a word are numbered from the lowest.
- CloneTail.ComesBefore: proved for the comparison alone; the modelled sort uses the order it decides.
- JsonReader.Reader.DecodeDouble: real numbers are read and printed by a library; which text it reads as which number is a parameter, and a number is represented by what the library prints for it with 16 digits, so that numbers with the same print are not told apart.
- JsonReader.Reader.AddError: the texts of messages are not modelled, nor are the errors that recovery would add and drops again.
- QuickSort.QuickSortAsc: the last index lies below 2^30, so that the sum of two indices does not overflow; the order is that of an integer key of each element.
- Comments kept with values, StyledStreamWriter, stream operators, and Value beyond its tree of null, booleans, 64-bit integers, strings, dense arrays and objects; the source's sparse arrays and conversions are easy by comparison.
- Opening and saving files, progress callbacks, failed allocations, raw memory of pools; the second copies of darts.h, darts-clone.h and the JSON library, which have the same code.
- The search service around these cores: segmentation, configuration, HTTP, database access and logging; simhash, which rests on a hash function that is not part of this model.
