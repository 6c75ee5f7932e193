# Two-party set operations: a verified model

This project models the three set-operation protocols of the library, together with the helpers they
rest on, and proves what their runs compute.

* **ECDH-PSI** shuffles, encrypts, exchanges, encrypts again, truncates, exchanges back, unshuffles,
  sorts, searches and filters.
* **KKRT-PSI** groups the sender's OPRF masks by hash function, shuffles and truncates them, and lets
  the receiver search one slice for each bin of its cuckoo table.
* **Circuit-PSI** carries one hint for each of the sender's tagged entries in a garbled cuckoo filter.
  The parties reduce what the receiver reads from it to shares of a membership bit and of features.
* **Helpers**: random permutations and their undoing, NUL-terminated string lists, and a CSV table
  that is written once and read back in batches.

## How it is built

`Network.dfy` gives the setting: each party is a program that sends, receives, makes a joint call or
returns, and two FIFO channels join the parties. A run is any interleaving. `EveryScheduleAgrees` shows
that the interleaving does not matter, so each protocol theorem speaks of every schedule: `AlwaysEnds`
says that one number of moves bounds all runs, and that all of them can be continued to the same end.

The loops of the source are methods over arrays, objects and growing vectors, each proved against a
function that states its result (`Permutation`, `Serialize`, `Bytes`, `Ecdh`, `Kkrt`, `CircuitTables`,
`CircuitHints`, `CircuitShares`, `CsvProvider`, `CsvReader`). The role programs (`EcdhProtocol`,
`KkrtProtocol`, `CircuitProtocol`) put the same functions in the order in which the source calls the
loops, between its sends and receives. The remaining files prove what the runs mean (`CircuitRun`,
`CircuitJoin`, `CircuitTotals`, `CircuitSession`, `CsvRoundTrip`, `CsvLines`). `CommonSeed` holds the generator that
two parties seed alike and draw their table seeds from; `ObliviousPrf` and `Hashing` hold the parameters
that KKRT-PSI and Circuit-PSI have in common.

The cryptographic and hashing libraries are parameters. What is asked of them is in `Ecdh.CurveOk`,
`KkrtProtocol.IdealOk`, `CircuitProtocol.IdealOk` and `Hashing.LibOk`, which says no more than that
addresses are in range. The contract of the hash tables is asked for run by run, for the lists which that
run inserts (`KkrtProtocol.Kept`, `CircuitRun.Kept`); the roles themselves assume nothing, and a party
whose table breaks the contract returns `Broken`. Each call brings its own OPRF and its own joint
functionalities, so sequences of calls (`KkrtProtocol.Session`, `CircuitSession.Session`) share nothing
but the generator that is passed on. Collision freedom is separate and is asked for only where soundness
needs it (`Ecdh.NoCollision`, `KkrtProtocol.NoCollision`, `CircuitJoin.Sound`), and is read on bytes: the
last 12 of 33 for ECDH-PSI, the first 12 of a mask for KKRT-PSI. `Instances.dfy` and `CircuitInstance.dfy`
give small concrete libraries and inputs that satisfy all of it (`EcdhHypotheses`, `KkrtHypotheses`,
`CircuitHypotheses`, the last with three table functions).

A function that serves as the specification of a loop, or of both roles, is tied down a second time by
statements that do not mention it: on indices and bytes (`Hashing.TagBytes`, `Ecdh.SameTagIff`,
`Permutation.OneMoreSwap`, `CircuitHints.TweakedBytes`), on numbers (`Words.WordsWrap`,
`Hashing.BinsRoundUp`, `CircuitSession.WordsUsed`) or on the pieces of a text (`CsvReader.CountsOfText`,
`CsvLines.AnyTextRead`).

## What the proofs brought out

* ECDH-PSI returns early when the other party's list is empty, and then reports its own shuffled keys as
  the intersection. `EcdhProtocol.OutputIsIntersectionIff` has the exact condition and
  `EcdhProtocol.EmptyRemoteReportsOwnKeys` an input. The cardinality run is right in that case too
  (`EcdhProtocol.CardinalityIsSizeIff`).
* The two KKRT parties read `sender_obtain_result` from their own configuration and never compare it.
  `KkrtProtocol.EndsCleanIffFlagsAgree`: with different flags one party waits for a message that never
  comes, or a message stays unread. `Instances.FlagsDiffer` is such a run.
* A KKRT sender that does not obtain the result leaves its output list as the caller passed it
  (`KkrtProtocol.SenderKeepsList`).
* A common key that holds a NUL reaches a KKRT sender in pieces. `KkrtProtocol.PartiesAgreeIffNulFree` has
  the exact condition and `Instances.NulKeyDiffers` an input.
* When the hint table of Circuit-PSI has a stash, the sender has drawn from the common generator twice
  and the receiver once. `CircuitSession.LeadIsHintAborts`: the sender is ahead by exactly the number of
  such aborts, and `CircuitSession.SameSeedsIffNoHintAbort`: the next call hashes with the same seeds if
  and only if there was none. `Instances.HintStashDesynchronizes` is such a call, after which the parties
  hash with different seeds. KKRT draws once on every path, so it stays in step through every abort
  (`KkrtProtocol.AlwaysInStep`).
* A CSV table with no row and no header cannot be read back with payloads: the column count is zero and
  the subtraction of the item columns wraps. A header whose line does not have one piece that is not empty
  for each column makes the reader miscount the columns, and a header of no names is not written, so that
  the first row is taken for it. `CsvRoundTrip.RoundTripIff` and `CsvRoundTrip.ItemsRoundTripIff` have the
  exact conditions; `CsvRoundTrip.EmptyFileFails` and `CsvRoundTrip.ShortHeaderLosesPayload` are inputs.
* The CSV reader counts the lines that are not empty, but reads that many lines whether empty or not, so
  every empty line among them costs a row at the end (`CsvLines.AnyTextRead`, `CsvLines.RowsDeliveredIff`;
  `CsvLines.EmptyLineLosesRow` has the inputs).
* Function ids enter the tags as one byte, so from 257 table functions on even a single key clashes with
  itself (`CircuitJoin.OneKeySeparateIff`).

## Model

| member | source | states |
|---|---|---|
| Network.EveryScheduleAgrees | src/setops/psi/ecdh_psi.cpp:264-340 | two programs over FIFO channels are confluent: once one interleaving ends after n moves, every interleaving is at most that long and ends in the same state |
| Permutation.GeneratePermutation | src/setops/util/permutation.h:34-41 | any sequence of swaps from the identity, for any size, is carried out and stays a permutation |
| Permutation.OneMoreSwap | src/setops/util/permutation.h:40-40 | one more swap exchanges exactly the two entries that it names |
| Permutation.EveryPermReached | src/setops/util/permutation.h:34-41 | every permutation of the positions is the outcome of some swaps from the identity |
| Permutation.PermuteAndUndo | src/setops/util/permutation.h:52-66 | permuting puts entry p[k] at k; undoing puts entry k at p[k] |
| Permutation.UndoUnique | src/setops/util/permutation.h:59-63 | undoing has at most one outcome, so its specification determines it |
| Permutation.UndoRestoresMapped | src/setops/util/permutation.h:52-66 | undo after permute is the identity, also with an element-wise map in between |
| Permutation.PermuteRestores | src/setops/util/permutation.h:52-66 | permute after undo is the identity |
| Permutation.PermuteKeepsMultiset | src/setops/util/permutation.h:55-58 | permuting keeps every element as often as it occurred |
| Serialize.SerializeStringToChar | src/setops/util/serialize.h:29-38 | the nested loops append every string, each followed by NUL, to what the output held |
| Serialize.DeserializeStringFromChar | src/setops/util/serialize.h:46-55 | on an empty or NUL-terminated buffer the scan stays in bounds, ends, and appends the deserialized list |
| Serialize.SerializedInjective | src/setops/util/serialize.h:29-38 | NUL-free lists with the same serialization are equal |
| Serialize.DeserializedUnique | src/setops/util/serialize.h:46-55 | the deserialized list is the only NUL-free list that serializes to the buffer |
| Serialize.RoundTripIffNulFree | src/setops/util/serialize.h:29-55 | deserializing a serialized list gives the list back if and only if no string holds a NUL |
| Serialize.DeserializedNoShorter | src/setops/util/serialize.h:29-55 | deserializing a serialized list never loses a string |
| Serialize.BufferRoundTrip | src/setops/util/serialize.h:29-55 | a buffer is some list's serialization if and only if it is empty or ends in NUL, and then serializing its deserialization gives it back |
| Bytes.FlattenRecords | src/setops/psi/ecdh_psi.cpp:276-280 | the buffer is the concatenation of the records |
| Bytes.SliceRecords | src/setops/psi/ecdh_psi.cpp:293-304 | the records are the buffer's slices at multiples of the width, all in bounds |
| Bytes.SortSorts | src/setops/psi/ecdh_psi.cpp:134-134 | lexicographic sorting yields a sorted list with the same elements as often |
| Bytes.LessIff | src/setops/psi/ecdh_psi.cpp:134-134 | one record is below another exactly when the first difference says so: a smaller byte, or an end |
| Bytes.BinarySearch | src/setops/psi/ecdh_psi.cpp:234-235 | on a sorted list binary search decides membership |
| Sequences.SlicesFlatten | src/setops/psi/ecdh_psi.cpp:276-304 | re-slicing what flattening produced gives the records back, for every width |
| Sequences.EmitFlagged | src/setops/psi/ecdh_psi.cpp:240-246 | the output is resized to the count and filled exactly, with the flagged inputs in input order |
| Sequences.CountByTarget | src/setops/psi/kkrt_psi.cpp:236-253 | when no two counted bins share a target, counting bins counts flagged targets |
| Ecdh.EncryptKeys | src/setops/psi/ecdh_psi.cpp:200-209 | every key is hashed to the curve, encrypted and encoded |
| Ecdh.CopyTail | src/setops/psi/ecdh_psi.cpp:218-221 | byte by byte, the reversed copy holds the last bytes in order |
| Ecdh.DoublelyEncryptKeys | src/setops/psi/ecdh_psi.cpp:211-223 | in place, every record becomes bytes 21 to 32 of its second encryption |
| Ecdh.SameTagIff | src/setops/psi/ecdh_psi.cpp:200-223 | two keys compare equal if and only if the encodings of their points under both secret keys agree in the last 12 of 33 bytes |
| Ecdh.TagSymmetric | src/setops/psi/ecdh_psi.cpp:211-223 | a key encrypted by both parties has the same truncated value in either order |
| Ecdh.PrimitivesGiveNoCollision | src/setops/psi/ecdh_psi.cpp:200-223 | injective encryption, and a hash and a truncation that separate the keys in play, exclude accidental matches |
| Ecdh.CalculateIntersection | src/setops/psi/ecdh_psi.cpp:225-247 | the inputs whose own record is in the sorted remote list, in input order; with any empty list the old output stays |
| Ecdh.CalculateCardinalityOnly | src/setops/psi/ecdh_psi.cpp:249-262 | the number of own records in the sorted remote list; zero with an empty list |
| EcdhProtocol.ExchangeMeets | src/setops/psi/ecdh_psi.cpp:264-340 | from any two record lists of one width, the exchange leads to both parties holding the other's list, whatever they do next |
| EcdhProtocol.ExchangeIsRendezvous | src/setops/psi/ecdh_psi.cpp:264-340 | every interleaving of the exchange terminates within one bound, with both channels empty and each party holding the other's exact list |
| EcdhProtocol.EveryRun | src/setops/psi/ecdh_psi.cpp:69-192 | every interleaving of the whole protocol terminates within one bound, with these two results and both channels empty |
| EcdhProtocol.FirstRound | src/setops/psi/ecdh_psi.cpp:97-117 | in the first exchange a party hands over its encrypted keys, 33 bytes each, in the order of its permutation |
| EcdhProtocol.BackUndone | src/setops/psi/ecdh_psi.cpp:102-132 | unshuffling the records that came back puts them in the order of the inputs, for every shuffle |
| EcdhProtocol.FinalKeys | src/setops/psi/ecdh_psi.cpp:97-143 | without any collision hypothesis: the output is the inputs whose tag the other party has, or the shuffled copy when only the other list is empty |
| EcdhProtocol.NotObtained | src/setops/psi/ecdh_psi.cpp:129-140 | a party that does not obtain the result ends with no keys and count zero |
| EcdhProtocol.NothingMissed | src/setops/psi/ecdh_psi.cpp:97-143 | with no collision hypothesis, the output list holds every key that the other party holds, as often as the input does |
| EcdhProtocol.OutputIsIntersectionIff | src/setops/psi/ecdh_psi.cpp:97-143 | the output is the inputs that occur in the other list, in order and with duplicates, if and only if no tag collides and not only the other list is empty |
| EcdhProtocol.EmptyRemoteReportsOwnKeys | src/setops/psi/ecdh_psi.cpp:228-230 | one key against an empty list is reported as common |
| EcdhProtocol.CardinalityCountsMatches | src/setops/psi/ecdh_psi.cpp:145-192 | the cardinality run, which never unshuffles, counts the keys whose tag the other party has, with no collision hypothesis |
| EcdhProtocol.CardinalityIsLength | src/setops/psi/ecdh_psi.cpp:145-192 | against a list that is not empty, the cardinality run returns the length of the full run's output, whatever either run shuffles, and whether tags collide or not |
| EcdhProtocol.CardinalityRunMatches | src/setops/psi/ecdh_psi.cpp:97-192 | over every schedule of a full run and of a cardinality run of the same parties with other shuffles, a party that obtains the result against a list that is not empty ends the second with the length of its list from the first |
| EcdhProtocol.CardinalityIsSizeIff | src/setops/psi/ecdh_psi.cpp:145-192 | the number is the size of the intersection if and only if no tag collides, for empty lists as well |
| EcdhProtocol.CardinalitiesAgree | src/setops/psi/ecdh_psi.cpp:145-192 | on duplicate-free inputs both parties get the same number |
| EcdhProtocol.EndToEnd | src/setops/psi/ecdh_psi.cpp:97-143 | over every schedule and both shuffles, with non-empty lists and no collision, each party ends with its own common keys or with nothing, by its flag |
| EcdhProtocol.CardinalityEndToEnd | src/setops/psi/ecdh_psi.cpp:145-192 | over every schedule and both shuffles, for empty lists as well, without collisions a cardinality run gives each party the number of its own common keys or zero, by its flag |
| Hashing.MarkedEqualIff | src/setops/pjc/circuit_psi.cpp:244-246 | two tagged items coincide exactly when the items agree after byte 0 and differ there by the function ids |
| Hashing.TagBytes | src/setops/pjc/circuit_psi.cpp:244-246 | a tag is the item with the function id exclusive-ored into byte 0, and all other bytes as they were |
| Hashing.OneItemTags | src/setops/pjc/circuit_psi.cpp:244-246 | one item has the same tag under two functions exactly when their ids agree modulo 256 |
| Hashing.BinsRoundUp | src/setops/psi/kkrt_psi.cpp:108-108 | the number of bins is the product of keys and factor, rounded up |
| Hashing.EmptyStashFits | src/setops/psi/kkrt_psi.cpp:202-207 | an empty stash means at most as many inputs as bins |
| Kkrt.CollectByFunction | src/setops/psi/kkrt_psi.cpp:150-157 | group f holds the masks of the entries that function f placed, in walking order |
| Kkrt.FunctionsInRange | src/setops/psi/kkrt_psi.cpp:135-155 | every function id in the sender's table is below the number of functions, so the group that an entry is pushed to exists |
| Kkrt.GroupsOfTable | src/setops/psi/kkrt_psi.cpp:119-157 | on the sender's own table the loop collects, for each function, one mask for each key, as often as it occurs |
| Kkrt.GroupReordered | src/setops/psi/kkrt_psi.cpp:150-157 | the order of entries in the table only reorders each group |
| Kkrt.GroupIsMasks | src/setops/psi/kkrt_psi.cpp:150-157 | each group has one mask for each key of the sender: its size is the sender's data size |
| Kkrt.ReduceAndFlatten | src/setops/psi/kkrt_psi.cpp:169-177 | the buffer holds the first 12 bytes of every mask of every group, in order |
| Kkrt.SliceIsGroup | src/setops/psi/kkrt_psi.cpp:228-247 | after flattening and re-slicing, records f*n up to (f+1)*n are the truncated group f |
| Kkrt.MatchBins | src/setops/psi/kkrt_psi.cpp:236-251 | the loop over bins flags the inputs of hit bins and counts the hits, all indices in bounds |
| Kkrt.EmptyStashPlacesOnce | src/setops/psi/kkrt_psi.cpp:202-210 | an empty stash gives occupied bins distinct input positions within the input |
| Kkrt.HitsCountInputs | src/setops/psi/kkrt_psi.cpp:236-253 | the count over bins equals the number of flagged inputs |
| Kkrt.ReceiverIntersect | src/setops/psi/kkrt_psi.cpp:236-259 | the output, resized by the bin count and filled by the input flags, is filled exactly with the flagged inputs in order |
| KkrtProtocol.EveryRun | src/setops/psi/kkrt_psi.cpp:94-444 | every interleaving terminates, after equally many moves, in the state given for the two flags, an abort or no bins, in both the full and the cardinality run |
| KkrtProtocol.EndsCleanIffFlagsAgree | src/setops/psi/kkrt_psi.cpp:446-449 | by any schedule, a run that is not aborted ends with both parties done and nothing unread if and only if the two flags agree |
| Instances.FlagsDiffer | src/setops/psi/kkrt_psi.cpp:180-191 | a sender that expects the result from a receiver that does not send it ends waiting |
| KkrtProtocol.SenderKeepsList | src/setops/psi/kkrt_psi.cpp:180-191 | a sender that does not obtain the result returns with its output list unchanged |
| KkrtProtocol.SliceIsPermutation | src/setops/psi/kkrt_psi.cpp:150-247 | after grouping, shuffling, truncating, flattening and re-slicing, the slice of function f is a permutation of the truncated masks of the sender's keys under f |
| KkrtProtocol.SliceMembers | src/setops/psi/kkrt_psi.cpp:150-247 | for every shuffle, the slice of function f holds exactly the truncated masks of the sender's keys under f |
| KkrtProtocol.FlagMeaning | src/setops/psi/kkrt_psi.cpp:236-251 | for any OPRF, a receiver key is flagged if and only if the first 12 bytes of its mask, at the function that placed it, agree with those of some sender key's |
| KkrtProtocol.NothingMissed | src/setops/psi/kkrt_psi.cpp:236-251 | a common key is never missed, for any OPRF |
| KkrtProtocol.CountsAgree | src/setops/psi/kkrt_psi.cpp:236-259 | in one run the count over bins is the length of the list of flagged inputs, for any OPRF |
| KkrtProtocol.CountIsSizeIff | src/setops/psi/kkrt_psi.cpp:416-433 | the count over bins is the size of the intersection if and only if no truncated mask collides for a key the sender lacks |
| KkrtProtocol.OutputIsIntersectionIff | src/setops/psi/kkrt_psi.cpp:236-259 | the list found is the receiver's input filtered by membership, in input order, if and only if no truncated mask collides for a key the sender lacks |
| KkrtProtocol.ReceiverListIff | src/setops/psi/kkrt_psi.cpp:236-273 | for all four pairs of flags and by any schedule, the receiver ends a full run with that list if and only if no truncated mask collides |
| KkrtProtocol.SenderWithoutResult | src/setops/psi/kkrt_psi.cpp:180-191 | by any schedule a sender without the flag returns its list as passed in, or zero from a cardinality run, and one with the flag against a receiver without it is left waiting |
| KkrtProtocol.SenderResultIff | src/setops/psi/kkrt_psi.cpp:180-191 | with both flags set the sender ends with the common keys, or their number, if and only if no truncated mask collides and, for the list, no common key holds a NUL |
| KkrtProtocol.LeftUnread | src/setops/psi/kkrt_psi.cpp:263-273 | what stays unread is the serialized list, or the number, that a receiver sends to a sender which did not ask for it |
| KkrtProtocol.EarlyEnds | src/setops/psi/kkrt_psi.cpp:128-133 | by any schedule both parties leave before the OPRF if and only if there are no bins or the receiver's cuckoo table has a stash |
| KkrtProtocol.PartiesAgree | src/setops/psi/kkrt_psi.cpp:180-273 | with both flags set the parties end, by any schedule, with the same list if and only if the list found is NUL-free |
| KkrtProtocol.PartiesAgreeIffNulFree | src/setops/psi/kkrt_psi.cpp:180-273 | without collisions, by any schedule, the two lists agree if and only if the common keys are NUL-free |
| Instances.NulKeyDiffers | src/setops/psi/kkrt_psi.cpp:180-273 | a common key that is one NUL makes the two lists differ |
| KkrtProtocol.EndToEnd | src/setops/psi/kkrt_psi.cpp:94-275 | over every schedule both parties end with the receiver's common keys in the receiver's order |
| KkrtProtocol.CardinalityIsSizeIff | src/setops/psi/kkrt_psi.cpp:277-444 | by any schedule a cardinality run gives the receiver the size of the intersection if and only if no truncated mask collides, and with both flags set the sender the same |
| KkrtProtocol.CardinalityRunMatches | src/setops/psi/kkrt_psi.cpp:94-444 | a full run and a cardinality run on the same keys, each with its own seed, OPRF and shuffles and each by any schedule: without collisions both parties end the second with the length of the list that the receiver ends the first with |
| KkrtProtocol.OneDrawEach | src/setops/psi/kkrt_psi.cpp:119-204 | on every path past the sizes each party draws exactly one seed from the common generator, so a party that returns leaves its copy one draw further |
| KkrtProtocol.AlwaysInStep | src/setops/psi/kkrt_psi.cpp:119-204 | over any sequence of calls, each with its own OPRF, call n hashes with block n of the common stream, and a sender that returns stands where the receiver stands |
| Words.XorCancels | src/setops/pjc/circuit_psi.cpp:396-397 | masking a 64-bit word twice by the same pad gives it back |
| Words.XorDigitAt | src/setops/pjc/circuit_psi.cpp:396-397 | exclusive-or works binary digit by binary digit |
| Words.WordsWrap | src/setops/util/defines.h:32-32 | sums, differences and products wrap at 2^64, and the comparison sees the low 62 bits |
| Words.TotalWraps | src/setops/pjc/circuit_psi.cpp:474-479 | a total of words is the sum of the numbers, wrapped once |
| Words.TotalOfOne | src/setops/pjc/circuit_psi.cpp:453-457 | words of which at most one is not zero have that word as sum and as exclusive-or |
| Words.TotalOfSums | test/pjc/circuit_psi_test.cpp:285-294 | opening the totals of two share vectors gives the total of the opened vector, for sums mod 2^64 and for exclusive-or |
| Words.Reindex | test/pjc/circuit_psi_test.cpp:295-305 | a sum over bins is a sum over keys when no two selected bins share their key |
| CircuitTables.BinHolds | src/setops/pjc/circuit_psi.cpp:134-148 | a value stands in a bin of the sender's table if and only if it is some key tagged with a function that maps the key to the bin |
| CircuitTables.FilterInputsDistinct | src/setops/pjc/circuit_psi.cpp:180-191 | without tag clashes no two filter inputs are equal |
| CircuitTables.LocateEntries | src/setops/pjc/circuit_psi.cpp:180-191 | the nested loops build the list of all entries and the map from entry to bin and index |
| CircuitTables.LocationsBijective | src/setops/pjc/circuit_psi.cpp:180-191 | with distinct entries the map sends the entry of every bin and index to that bin and index |
| CircuitTables.PlaceUnique | src/setops/pjc/circuit_psi.cpp:180-191 | with distinct entries, an entry stands at one bin and index only |
| CircuitTables.LocatedLast | src/setops/pjc/circuit_psi.cpp:180-191 | an entry that stands at several places is located at the last of them |
| CircuitHints.DrawPad | src/setops/pjc/circuit_psi.cpp:221-225 | drawing function id + 1 words leaves the word of that function |
| CircuitHints.TweakedBytes | src/setops/pjc/circuit_psi.cpp:271-271 | the pad seed of a feature is the mask with the number of the feature exclusive-ored into its low 64 bits |
| CircuitHints.DrawContents | src/setops/pjc/circuit_psi.cpp:173-178 | one fresh word for each bin; the generator has advanced by the number of bins |
| CircuitHints.EncodeTable | src/setops/pjc/circuit_psi.cpp:163-168 | every entry has the mask of its own bin and value |
| CircuitHints.BuildMemberFilter | src/setops/pjc/circuit_psi.cpp:208-230 | an occupied slot holds the content of its entry's bin under that entry's pad; free slots take the next random words in order |
| CircuitHints.CollectFeatures | src/setops/pjc/circuit_psi.cpp:238-250 | the loops build the map from tagged key to features, first insertion kept |
| CircuitHints.FeatureMapFirst | src/setops/pjc/circuit_psi.cpp:238-250 | of several keys that share a tag the first gives it its features |
| CircuitHints.FeatureMapIsOwn | src/setops/pjc/circuit_psi.cpp:238-250 | without tag clashes every tagged key maps to its own key's features |
| CircuitHints.BuildFeatureFilter | src/setops/pjc/circuit_psi.cpp:252-288 | fresh contents for all bins, then feature minus content under the tweaked pad in occupied slots and random words in free ones |
| CircuitHints.Decode | src/setops/pjc/circuit_psi.cpp:387-399 | the flat vector holds, for bin i and hint function j, the filter word at the address of bin i's value under j, unmasked by word j |
| CircuitShares.XorInto | src/setops/pjc/circuit_psi.cpp:453-457 | the first column becomes the exclusive-or of the shared bits over the hint functions; the others stay |
| CircuitShares.AddBin | src/setops/pjc/circuit_psi.cpp:474-479 | each feature column of the bin becomes the sum of its shares over the hint functions; all else stays |
| CircuitShares.Reduce | src/setops/pjc/circuit_psi.cpp:448-488 | the in-place loops leave membership, sender-feature and own-feature columns as specified |
| CircuitShares.MembershipReconstructs | src/setops/pjc/circuit_psi.cpp:453-457 | with at most one matching hint position, the two parties' first columns reconstruct whether there is a match |
| CircuitShares.FeatureReconstructs | src/setops/pjc/circuit_psi.cpp:474-479 | with at most one matching hint position, the summed shares reconstruct the value opened there, or zero |
| CircuitProtocol.HintReady | src/setops/pjc/circuit_psi.cpp:212-219 | past the stash checks every occupied hint slot holds an entry whose location and features are known |
| CircuitProtocol.OwnFeaturesHave | src/setops/pjc/circuit_psi.cpp:403-411 | every receiver key has an entry in its feature map, with the features of some position of the same hash |
| CircuitProtocol.OwnFeaturesFirst | src/setops/pjc/circuit_psi.cpp:403-411 | among receiver keys of one hash the first gives its features |
| CircuitProtocol.SeedsDrawn | src/setops/pjc/circuit_psi.cpp:132-196 | the two tables hash with the next two blocks of the common stream, in this order |
| CircuitProtocol.HintBinsLeaveRoom | src/setops/pjc/circuit_psi.cpp:114-119 | with a factor of at least one the hint table has a slot for every entry of the sender and for every bin |
| CircuitProtocol.WordsTaken | src/setops/pjc/circuit_psi.cpp:173-288 | membership and every feature take equally many words from the sender's own generator: one for each bin, and one for each hint slot that no entry occupies |
| CircuitProtocol.WordOrder | src/setops/pjc/circuit_psi.cpp:173-288 | the contents of the bins are the first words of each of these runs, in the order of the bins |
| CircuitProtocol.FreeMemberSlot | src/setops/pjc/circuit_psi.cpp:228-230 | a free slot of the membership filter holds the next word after the contents and the free slots before it |
| CircuitProtocol.FreeFeatureSlot | src/setops/pjc/circuit_psi.cpp:284-286 | likewise for a feature filter, wherever the generator stands |
| CircuitProtocol.FilterStands | src/setops/pjc/circuit_psi.cpp:252-288 | the filter sent for feature k is built from run k + 1 of the words |
| CircuitRun.VectorsPass | src/setops/pjc/circuit_psi.cpp:413-415 | the filters sent one by one arrive as the same list |
| CircuitRun.EveryRun | src/setops/pjc/circuit_psi.cpp:92-491 | every interleaving terminates, all in one state: no bins, an abort at either stash check with each generator where the draws have left it, or both parties done with shares from the shared comparison and multiplexing |
| CircuitJoin.OneSlotEach | src/setops/pjc/circuit_psi.cpp:195-216 | with an empty hint stash every filter input occupies exactly one slot, at the address of its recorded function |
| CircuitJoin.SlotPadded | src/setops/pjc/circuit_psi.cpp:212-227 | the slot of an entry of bin i holds bin i's content padded from that entry's mask under its recorded function |
| CircuitJoin.FeatureSlotPadded | src/setops/pjc/circuit_psi.cpp:263-284 | likewise for feature minus random content under the tweaked mask |
| CircuitJoin.HintDecodes | src/setops/pjc/circuit_psi.cpp:387-399 | for any generator and OPRF, when the receiver's value is among the sender's entries of its bin, unmasking at the one recorded hint function gives exactly the bin's content, and each feature less its random content |
| CircuitJoin.BinMembership | src/setops/pjc/circuit_psi.cpp:295-317 | without accidental matches, the bits of a bin reconstruct whether the receiver's value is held |
| CircuitJoin.BinFeature | src/setops/pjc/circuit_psi.cpp:252-331 | the feature shares of a bin add up to the held key's feature, or to zero: the random content cancels |
| CircuitJoin.JoinedIsHeld | src/setops/pjc/circuit_psi.cpp:134-148 | a common key is held in its bin, with no hypothesis on tags or matches |
| CircuitJoin.TagsSeparateIff | src/setops/pjc/circuit_psi.cpp:244-246 | tagged keys are separate exactly when no two hashes agree after byte 0 and differ there by two function ids |
| CircuitJoin.OneKeySeparateIff | src/setops/pjc/circuit_psi.cpp:243-246 | every single key keeps its tags apart if and only if there are at most 256 table functions |
| CircuitJoin.HeldIsJoined | src/setops/pjc/circuit_psi.cpp:134-148 | a held value belongs to a common key, when tags separate and empty bins hold no entry of the sender |
| CircuitJoin.JoinedFeatures | src/setops/pjc/circuit_psi.cpp:238-250 | the features found for a joined bin are those of the sender's own key |
| CircuitJoin.OwnShareIsFeature | src/setops/pjc/circuit_psi.cpp:459-487 | the receiver's own columns hold the features of the key in each bin, zero in an empty bin |
| CircuitTotals.EndShares | src/setops/pjc/circuit_psi.cpp:448-488 | bin by bin the two outputs reconstruct membership bit, sender features of the common key and receiver features of its key |
| CircuitTotals.ByReceiver | src/setops/pjc/circuit_psi.cpp:340-354 | joined bins and common keys correspond one to one, by the receiver's positions |
| CircuitTotals.BySender | src/setops/pjc/circuit_psi.cpp:134-148 | joined bins and common keys correspond one to one, by the sender's positions |
| CircuitTotals.BitsTotal | test/pjc/circuit_psi_test.cpp:295-305 | the opened bits add up to the size of the intersection, mod 2^64 |
| CircuitTotals.SenderFeatureTotal | test/pjc/circuit_psi_test.cpp:295-305 | opened bit times sender feature adds up to that feature over the common keys, mod 2^64 |
| CircuitTotals.ReceiverFeatureTotal | test/pjc/circuit_psi_test.cpp:295-305 | opened bit times receiver feature adds up to that feature over the common keys, mod 2^64 |
| CircuitTotals.EndToEnd | src/setops/pjc/circuit_psi.cpp:92-491 | over every schedule, past both stash checks, both parties are done, nothing is unread, and the shares join the two inputs; the parties hash with the seeds they draw in the run |
| CircuitTotals.OpenedTotals | test/pjc/circuit_psi_test.cpp:285-309 | over every schedule, the totals that a caller opens are the intersection size and every feature column summed over the common keys |
| CircuitInstance.CircuitHypotheses | src/setops/pjc/circuit_psi.h:74-75 | all hypotheses hold together of a call with three table functions, for a common key and for one that the sender lacks |
| CircuitInstance.CallOpens | src/setops/pjc/circuit_psi.cpp:180-226 | by any schedule the opened bits of that call count one common key, or none |
| CommonSeed.SeedsAgree | src/setops/pjc/circuit_psi.cpp:48-58 | every schedule terminates with both parties combining the exchanged blocks into the same seed |
| CommonSeed.XorBlockUndone | src/setops/pjc/circuit_psi.cpp:54-54 | whatever block a party sends, each seed comes from exactly one block of the other, and a block of zeros changes nothing |
| CircuitSession.DrawsPerCall | src/setops/pjc/circuit_psi.cpp:193-206 | counted on the generators that the draws of a call move: a call that completes or stops at the first stash check draws equally often on both sides; one stopped by a hint stash lets the sender draw once more |
| CircuitSession.HowCallsEnd | src/setops/pjc/circuit_psi.cpp:139-206 | by any schedule the first stash aborts a call, else the hint stash does, and without either it completes, at both parties |
| CircuitSession.WordsUsed | src/setops/pjc/circuit_psi.cpp:173-288 | by any schedule a completed call has moved the sender's own generator by equally many words for membership and each feature, and the receiver's not at all |
| CircuitSession.EmptyCallEnds | src/setops/pjc/circuit_psi.cpp:113-119 | a call without bins ends before anything is drawn or joined |
| CircuitSession.LeadIsHintAborts | src/setops/pjc/circuit_psi.cpp:193-206 | over any sequence of calls, each with its own OPRF and joint functionalities, the sender's copy of the generator is the receiver's after as many further draws as there were hint-stash aborts |
| CircuitSession.InStepIffNoHintAbort | src/setops/pjc/circuit_psi.cpp:193-206 | over such a sequence the two copies of the generator are equal if and only if no hint stash has stopped a call, and then the next call hashes with the same seeds |
| CircuitSession.SameSeedsIffNoHintAbort | src/setops/pjc/circuit_psi.cpp:126-206 | as long as the generator has repeated no block, the next call hashes with the same seeds if and only if no hint stash has stopped a call before it |
| Instances.HintStashDesynchronizes | src/setops/pjc/circuit_psi.cpp:201-206 | two sender keys that overflow the hint table leave the sender two draws on and the receiver one, and whatever they call next they hash with different seeds |
| CircuitSession.SessionJoins | src/setops/pjc/circuit_psi.cpp:48-491 | from the seed agreed at initialization, every completed call of any sequence before which no hint stash stopped one shares the join of its inputs |
| CsvText.GetsField | src/setops/data/csv_data_provider.cpp:123-123 | extraction up to a delimiter yields the field and leaves the rest |
| CsvText.SplitGlues | src/setops/data/csv_data_provider.cpp:123-123 | the pieces of a text hold no delimiter, and with delimiters between them they are the text |
| CsvText.ExtractsPiece | src/setops/data/csv_data_provider.cpp:117-123 | from any text, extractions give its pieces one after the other |
| CsvText.ExtractsNoMore | src/setops/data/csv_data_provider.cpp:117-128 | behind the last piece an extraction leaves the string as it was |
| CsvText.ParsesPrefix | src/setops/data/csv_data_provider.cpp:128-128 | any text of spaces, a sign, digits and a rest converts by its digits alone, with errors for no digit and for 2^64 or more, and wraps with a minus sign |
| CsvText.ValueOfNext | src/setops/data/csv_data_provider.cpp:128-128 | one more digit makes ten times the number and adds the digit |
| CsvText.CharacterClasses | src/setops/data/csv_data_provider.cpp:128-128 | which character codes count as digits and as spaces |
| CsvText.NumberRoundTrip | src/setops/data/csv_data_provider.cpp:128-128 | every 64-bit number printed in decimal parses back, and its print is free of separators |
| CsvProvider.WriteDataToFile | src/setops/data/csv_data_provider.cpp:135-172 | the text is the header line and one joined line for each row; without item columns it is refused |
| CsvReader.SplitLine | src/setops/data/csv_data_provider.cpp:120-129 | the two loops take item fields and then numbers from one line stream, or stop at the first that is no number |
| CsvReader.CountRowsAndColumns | src/setops/data/csv_data_provider.cpp:184-211 | of any text, the loops count the lines after the first that are not empty, one more without a header, and the pieces of the first line that are not empty |
| CsvReader.CountsOfText | src/setops/data/csv_data_provider.cpp:192-206 | the two counts are those of the newline-separated and comma-separated pieces that are not empty |
| CsvReader.ResizedAt | src/setops/data/csv_data_provider.cpp:113-114 | resizing the vectors drops the last columns or adds empty ones, and keeps the others |
| CsvReader.CsvDataProvider.constructor | src/setops/data/csv_data_provider.cpp:24-42 | a new provider has counted the text and stands behind the header |
| CsvReader.CsvDataProvider.SeekBegin | src/setops/data/csv_data_provider.cpp:174-182 | from any state the provider stands where a new one stands |
| CsvReader.CsvDataProvider.GetNextBatchWithPayloads2d | src/setops/data/csv_data_provider.cpp:107-133 | one batch as specified, the cursor never passing the row count; a column count below the item columns is a length error |
| CsvReader.CsvDataProvider.GetNextBatch2d | src/setops/data/csv_data_provider.cpp:61-81 | the same for the item columns alone |
| CsvRoundTrip.LineRoundTrip | src/setops/data/csv_data_provider.cpp:120-169 | a written line parses into the row it was written from |
| CsvRoundTrip.CountsLines | src/setops/data/csv_data_provider.cpp:199-206 | the lines of the rows from any row on are counted exactly |
| CsvReader.CountsPieces | src/setops/data/csv_data_provider.cpp:194-198 | the columns counted in a line are its comma-separated pieces that are not empty |
| CsvRoundTrip.OpensWithCounts | src/setops/data/csv_data_provider.cpp:184-211 | for a readable file, opening counts the table's rows and columns |
| CsvRoundTrip.BatchReads | src/setops/data/csv_data_provider.cpp:107-133 | a batch from row j appends the next rows, as many as asked for and left, and moves the cursor behind them |
| CsvRoundTrip.DrainedBounds | src/setops/data/csv_data_provider.cpp:107-133 | on any text, the vectors never grow beyond the rows that were counted, and get the payload columns that were counted |
| CsvRoundTrip.BatchesGiveRows | src/setops/data/csv_data_provider.cpp:107-172 | from a readable file, batches of any positive sizes into empty vectors give the first rows, by column and in order |
| CsvRoundTrip.RoundTripIff | src/setops/data/csv_data_provider.cpp:107-172 | for any header of newline-free names, writing and reading until exhausted gives the table back if and only if the header is not empty and its line has as many filled pieces as the table has columns, or there is no header and some row |
| CsvRoundTrip.EmptyFileFails | src/setops/data/csv_data_provider.cpp:113-114 | a table of one item column and no row cannot be read back without a header |
| CsvRoundTrip.ShortHeaderLosesPayload | src/setops/data/csv_data_provider.cpp:192-198 | one header name for an item and a payload column loses the payload |
| CsvRoundTrip.ItemsRoundTripIff | src/setops/data/csv_data_provider.cpp:61-81 | for any header of newline-free names, the reader of items alone gives the item columns back, an empty file included, if and only if no row is taken for a header of no names |
| CsvRoundTrip.ZeroBatchesSkipped | src/setops/data/csv_data_provider.cpp:62-64 | batches of size zero among others change nothing |
| CsvRoundTrip.WrittenText | src/setops/data/csv_data_provider.cpp:135-172 | a header of two names and a row of one item and one payload, character by character |
| CsvLines.FieldsOfLine | src/setops/data/csv_data_provider.cpp:120-125 | the item fields of any line are its first pieces, with the last piece repeated on a short line |
| CsvLines.NumbersOfLine | src/setops/data/csv_data_provider.cpp:126-129 | the payloads of any line are the numbers that the next pieces spell, or the error of the first that spells none |
| CsvLines.AnyTextRead | src/setops/data/csv_data_provider.cpp:107-133 | on any text, batches of any positive sizes add the lines behind the header one after the other, as many as there were rows counted, empty lines among them |
| CsvLines.RowsDeliveredIff | src/setops/data/csv_data_provider.cpp:107-206 | reading until exhausted gives as many rows as were counted if and only if none of the lines read is empty |
| CsvLines.EmptyLineLosesRow | src/setops/data/csv_data_provider.cpp:112-206 | of two lines with an empty one between them two rows are counted and only the first is returned |

## Left out

- The curve, the hashes, the generators, the OT extensions and the MPC operations are library code that is not part of this model; they enter as functions and joint calls with the properties named above. Privacy, simulation and probability are not stated; accidental collisions are explicit hypotheses.
- The hash-table library is described by what it stores. A table without bins (an empty receiver list) is given no behaviour: both roles then end with `NoBins`.
- Serialize.DeserializeStringFromChar: asks for a buffer that is empty or ends in NUL, because on any other the source reads past its end; strings of 2^31 characters, where the `int` length overflows, are not modelled.
- CsvProvider.WriteDataToFile: asks that no column is shorter than the first item column, because the source reads past the end of a shorter one.
- CsvReader.CsvDataProvider.GetNextBatchWithPayloads2d: when a payload is no number, what the vectors hold at the moment of the exception is not described.
- Permutation.GeneratePermutation: the library shuffle is any given sequence of swaps; which sequence the generator yields is not modelled.
- Words.Reindex: states the regrouping of sums that the test of the repository relies on; the repository has no such function.
- `std::sort` is modelled by its result; the search loops of `std::binary_search` and `std::find` are methods.
- Resizing and refilling a vector is a fresh array in the model, so aliasing between a caller's vectors is not captured.
- `ceil` of the bin counts is exact on reals; rounding of doubles is not modelled.
- Both parties use the same parameters; the consistency checks, JSON parsing and defaults are left out.
- OpenMP loops are sequential; their iterations are independent.
- Sockets, timeouts, files, logging and the one-dimensional batch readers (the two-dimensional ones with one column of each kind) are left out.
