# Verified model of the boost_connector cores

A Dafny model of the parts of boost_connector that do not talk to the network: keys
over a JSON document, the bid ladder, the coroutine queues, URL decoding, the type-erased property
value, layered property maps and lifetime pointers. `dafny verify dfyconfig.toml` checks everything.

| files | what they model |
|---|---|
| `Json.dfy`, `JsonProofs.dfy`, `JsonHash.dfy` | JSON values with Boost.JSON's equality, the byte stream that is hashed, and the functions that feed it |
| `Paths.dfy`, `PathProofs.dfy` | splitting, printing and following paths |
| `Keys.dfy`, `KeyProofs.dfy` | mutable and immutable keys, their equality, and runs of operations on them |
| `BidLadder.dfy`, `BidLadderProofs.dfy` | the ladder's `set` and its runs against a book without bound |
| `AsyncQueues.dfy`, `AsyncQueueProofs.dfy` | the queue, the circular buffer and its specialisation, as transition systems over items, parked and woken consumers |
| `Url.dfy`, `UrlProofs.dfy`, `UrlDecoding.dfy` | the backtracking matcher, a scan it is equal to, and decoding |
| `PropertyValues.dfy`, `PropertyValueRuns.dfy` | inline and heap storage, moves, ownership over runs |
| `PropertyMaps.dfy`, `PropertyMapProofs.dfy` | layers on a shared heap, mutable and fixed maps |
| `LifetimePtr.dfy` | starts and stops driven by two reference counts |
| `TextOrder.dfy`, `Collections.dfy`, `Wrappers.dfy` | the order of keys, sequences without repetition, Option |

How to read it:

- Where the source updates things in place, a class or a method with a loop does so here too, and
  its `ensures` ties the new state to a function of the old one. Lemmas about that function, and
  about any sequence of operations, state what the source promises.
- A C++ `char` is a Dafny `char`; no proof depends on how many there are.
- SHA-256 is a parameter `hash`, any function from what was fed to 32 characters. Nothing is assumed
  of it; where collisions matter the lemma says so.
- A double inside a JSON value is its 64-bit pattern, with the comparison of IEEE 754 spelled out
  (NaN equals nothing, the two zeros are equal). Prices and depths are `real`.
- `unsigned long` and `std::size_t` are 64 bits wide; the inline storage of a property value is 32
  bytes.
- A coroutine runs without interruption between suspension points, `cancel_one` wakes the waiter that
  has waited longest, and the executor may resume woken coroutines in any order.

Where the code does not do what its documentation or its design suggests, the model follows the code:

- `bid_ladder::set` with depth zero at a price without a level inserts a level of depth zero
  (`ZeroIsInserted`), although its comment says the level is removed. A level that was evicted does
  not come back when room appears (`EvictedLevelIsLost`); `StepKeepsBestIff` says exactly which call
  ends the ladder being the best part of the book, and `BestThroughoutIff` which runs never do.
- Different values can feed the same bytes, for two reasons: the hashed stream has no delimiters or
  lengths, so a text and any array of its pieces feed the same (`StreamNotInjective`), and no tags for
  kinds, so the same 64 bits feed the same as an integer of either kind, a double or a text of eight
  characters, and `null`, `1` and `0` as texts or as values (`KindsAlias`). Among values of the same
  shape (`SameShape`: same kinds, same lengths, same keys) the stream does determine the value
  (`StreamDecidesValue`).
- `0.0` and `-0.0` are equal but hashed differently (`SignedZerosDiffer`), so the digest test can
  reject keys whose contents are equal (`AgreeingKeysCanDiffer`); `DigestTestAcceptsAgreement` and
  `EqualUpToCollision` say exactly when, and `EqualExactlyWhenAgree` gives the condition a caller can
  check. A key with a NaN in a used part does not equal itself (`NaNKeyDiffersFromItself`), and only
  such a key does not (`EqualReflexive`).
- `mutable_key::merge` does not check that merged paths resolve, so `fix` can throw
  (`ForeignMergeCanFail`); `FixSucceedsIff` is the exact condition.
- Copying a `mutable_property_map` shares its layer, so a fixed map can change afterwards
  (`CopyBreaksFixedMap`); `SetHarmlessIff` is exact in any state.
- A woken consumer can find no item and park again. That happens in a full schedule of resumptions
  exactly when the woken consumers outnumber the items (`EveryWokenServedIff`), and there are three
  ways to get there: a newcomer takes the item first (`WokenCanBeOvertaken`), `clear` is called after
  the wake-up, or a push onto a full circular buffer overwrites one item and wakes another consumer.
  `StepKeepsCoveredIff` and `AlwaysCoveredIff` say that there are no others.

## Model

| member | source | states |
|---|---|---|
| TextOrder.LessIff | src/jsonext.cpp:62-68 | of two texts the one comes first that is a proper prefix, or has the smaller character at the first place where they differ |
| TextOrder.SortedUnique | src/jsonext.cpp:62-68 | two sequences strictly sorted by key with the same elements are the same sequence, so sorting distinct keys has one outcome |
| JsonHash.SortByKey | src/jsonext.cpp:68 | the sort of the members gives a permutation in key order, for all inputs |
| JsonHash.SortedMembersGiveEntries | src/jsonext.cpp:66-73 | whatever sort is used, members with distinct keys are visited in the one canonical order |
| JsonHash.UpdateBool | src/jsonext.cpp:15-20 | appends the canonical bytes of a boolean to what was fed |
| JsonHash.UpdateArray | src/jsonext.cpp:22-27 | appends the canonical bytes of an array, element by element |
| JsonHash.UpdateObject | src/jsonext.cpp:56-74 | appends the canonical bytes of an object, which JsonProofs.LeastMemberFirst and TextOrder.LessIff give in terms of its members |
| JsonProofs.LeastMemberFirst | src/jsonext.cpp:62-73 | the bytes of an object are the key that comes first, its value's bytes, and the bytes of the object without that member, at every depth |
| JsonProofs.MemberOrderIrrelevant | src/jsonext.cpp:56-74 | any permutation of the members of an object feeds the same bytes and, unless it holds a NaN, is equal to it |
| JsonHash.UpdateSha256 | src/jsonext.cpp:77-100 | appends exactly the canonical bytes of any value to what was fed before |
| JsonProofs.LittleEndianReadsBack | src/jsonext.cpp:29-48 | the bytes of an integer, read least significant first, spell the integer |
| JsonProofs.SameBitsSameStream | src/jsonext.cpp:56-100 | values equal up to member order at every depth and up to int64/uint64 kind feed the same bytes |
| JsonProofs.SameLength | src/jsonext.cpp:56-100 | equal values feed equally many bytes |
| JsonProofs.SameStreamSameBits | src/jsonext.cpp:15-100 | values of the same shape that feed the same bytes are equal, with the same bits in every double |
| JsonProofs.ShapesOfScalars | src/jsonext.cpp:77-100 | scalars of the same shape: same kind, with equal lengths for texts, and non-negative integers of either kind |
| JsonProofs.StreamDecidesValue | src/jsonext.cpp:15-100 | among values of the same kinds, lengths and keys, whatever their numbers and characters, the same bytes are fed if and only if the values are equal bit for bit |
| JsonProofs.StreamDecidesBits | src/jsonext.cpp:77-100 | for equal values, same bytes if and only if same bits in every double |
| JsonProofs.NoNegativeZeroSameBits | src/jsonext.cpp:43-48 | equal values without a negative zero are the same bit for bit |
| JsonProofs.StreamNotInjective | src/jsonext.cpp:22-27 | any text cut in two, as an array, feeds the same bytes as the array of the whole text |
| JsonProofs.KindsAlias | src/jsonext.cpp:15-54 | values of different kinds that feed the same bytes: every 64-bit word as either integer kind, double or text; null and the booleans as texts |
| JsonProofs.SignedZerosDiffer | src/jsonext.cpp:43-48 | 0.0 and -0.0 are equal and feed different bytes |
| JsonProofs.ObjectsSameIff | src/entity/immutable_key.cpp:51-54 | objects are equal exactly when they have equally many members and every member of one has an equal one under the same key in the other, at any place |
| JsonProofs.IntegersSame | src/entity/immutable_key.cpp:53-54 | integers are equal exactly when their values are, whatever their kinds |
| JsonProofs.DoubleClasses | src/jsonext.cpp:43-48 | which bit patterns are NaNs and zeros, by exponent and fraction |
| JsonProofs.PartnerOf | src/entity/immutable_key.cpp:51-54 | equality of objects, which looks up one side's keys only, pairs up the members of both sides |
| JsonProofs.SameReflexive | src/entity/immutable_key.cpp:53-54 | a value equals itself if and only if it holds no NaN; by bits always |
| JsonProofs.SameSymmetric | src/entity/immutable_key.cpp:53-54 | equality of values is symmetric |
| JsonProofs.SameTransitive | src/entity/immutable_key.cpp:53-54 | equality of values is transitive |
| Paths.DissectPath | src/jsonext.cpp:102-125 | the loop computes the maximal slash-free runs of the input |
| Paths.ToPath | src/jsonext.cpp:127-140 | the loop prints a range of segments, each after a slash, or a lone slash |
| Paths.FindPath | src/jsonext.cpp:148-172 | succeeds exactly when the path resolves and then gives what is there; a failure names the longest prefix that resolves and the segment after it |
| Paths.FindPathText | src/jsonext.cpp:224-228 | the same for a path as text, failure included |
| Paths.ResolveConcat | src/jsonext.cpp:157-161 | following a concatenated path is following one part and then the other |
| PathProofs.DissectGivesSegments | src/jsonext.cpp:112-122 | every segment is non-empty and free of slashes |
| PathProofs.DissectSegment | src/jsonext.cpp:112-122 | a text without a slash is one segment, or none if it is empty |
| PathProofs.DissectAtSeparator | src/jsonext.cpp:112-122 | a slash anywhere, doubled or not, splits a text in two; with the row above this determines splitting |
| PathProofs.DissectPrinted | src/jsonext.cpp:102-146 | splitting what was printed gives back every list of non-empty slash-free segments |
| PathProofs.NormaliseKeepsMeaning | src/entity/mutable_key.cpp:51-55 | lookup by the normal form equals lookup by the original, and normalising is idempotent |
| PathProofs.NormaliseAlike | src/entity/mutable_key.cpp:51-55 | two inputs normalise alike if and only if they dissect alike |
| PathProofs.CanonicalIffShape | src/entity/mutable_key.cpp:27-28 | the fixed points of normalising are the lone slash and the texts that begin with a slash, end otherwise and have no two in a row |
| PathProofs.MemberStep | src/jsonext.cpp:197-200 | a step into an object finds the value under exactly that key, and none when there is no such key |
| PathProofs.StepsElsewhere | src/jsonext.cpp:148-216 | no step leads into a scalar; a path of no steps stays, a path of one is that step |
| PathProofs.ArrayStep | src/jsonext.cpp:176-206 | every name of an array element: empty for the first, blanks, sign and digits for the value they spell in 64 bits, and nothing else |
| PathProofs.NulEndsName | src/jsonext.cpp:205 | what follows a NUL in the name of an array element is ignored |
| PathProofs.DigitsStep | src/jsonext.cpp:176-206 | a digits-only segment of any length steps into an array if and only if its decimal value is an index, despite saturation |
| PathProofs.MinusStep | src/jsonext.cpp:176-206 | what a minus sign and digits step to: the index wraps modulo 2^64, saturation included |
| PathProofs.LeadingZero | src/jsonext.cpp:176-206 | a leading zero is a different spelling of the same element |
| Keys.MakeImmutableKey | src/entity/immutable_key.cpp:8-21 | construction succeeds exactly when every indexed path resolves; the digest is the hash of paths and canonical values in index order |
| Keys.EqualContents | src/entity/immutable_key.cpp:35-59 | the lockstep loop decides that the index sets are equal and the documents agree at every indexed path |
| Keys.Equals | include/boost/connector/entity/impl/immutable_key.hpp:16-20 | operator== holds exactly when the digests are equal and the contents agree |
| Keys.Mutate | src/entity/immutable_key.cpp:23-27 | a new mutable key over the same document with the same index |
| Keys.MutableKey.constructor | src/entity/mutable_key.cpp:7-11 | the key holds the document and index it was given |
| Keys.MutableKey.Use | src/entity/mutable_key.cpp:13-32 | gives what the path resolves to and adds its normal form to the index; a path that leads nowhere leaves the index unchanged |
| Keys.MutableKey.Merge | src/entity/mutable_key.cpp:34-43 | the index gains every path of the other key |
| Keys.MutableKey.Fix | src/entity/mutable_key.cpp:45-49 | succeeds exactly when every indexed path resolves, and gives the key with the digest of the used parts |
| KeyProofs.StreamsDecideBits | src/entity/immutable_key.cpp:14-20 | for documents that agree along an index, the hashed streams are equal if and only if they agree there bit for bit |
| KeyProofs.DigestTestAcceptsAgreement | include/boost/connector/entity/impl/immutable_key.hpp:16-20 | of two agreeing keys, the ones built with any hash function have equal digests under every hash function if and only if they agree bit for bit |
| KeyProofs.EqualUpToCollision | include/boost/connector/entity/impl/immutable_key.hpp:16-20 | unless the hash collides on the two streams, operator== is agreement on set and values, by == and by bits |
| KeyProofs.EqualExactlyWhenAgree | include/boost/connector/entity/impl/immutable_key.hpp:16-20 | for used parts without negative zeros and any hash function, keys over any two documents are equal if and only if the index sets are equal and the values there agree |
| KeyProofs.UnusedPartsIgnored | src/entity/immutable_key.cpp:14-20 | documents with the same values at the indexed paths give the same digest and equality, whatever else they hold |
| KeyProofs.EqualReflexive | include/boost/connector/entity/impl/immutable_key.hpp:16-20 | a key equals itself if and only if no used part holds a NaN |
| KeyProofs.AgreeingKeysCanDiffer | include/boost/connector/entity/impl/immutable_key.hpp:16-20 | two constructed keys whose contents agree and that are not equal |
| KeyProofs.NaNKeyDiffersFromItself | include/boost/connector/entity/impl/immutable_key.hpp:16-20 | under any hash function there is a constructed key that does not equal itself |
| KeyProofs.EqualSymmetric | include/boost/connector/entity/impl/immutable_key.hpp:16-20 | operator== is symmetric |
| KeyProofs.EqualTransitive | include/boost/connector/entity/impl/immutable_key.hpp:16-20 | operator== is transitive |
| KeyProofs.RunCollects | src/entity/mutable_key.cpp:13-43 | after any run of uses and merges the index is the old paths and the canonical paths collected |
| KeyProofs.RunsDependOnCollectedOnly | src/entity/mutable_key.cpp:13-49 | runs that collect the same set of paths leave the same index, so they fix to the same key |
| KeyProofs.SpellingIrrelevant | src/entity/mutable_key.cpp:21-28 | replacing a path anywhere in a run by one that dissects alike changes nothing |
| KeyProofs.MergeIntoEmptyIsSame | src/entity/mutable_key.cpp:34-49 | merging a key into an empty one over its document gives its index back |
| KeyProofs.OperationKeepsGood | src/entity/mutable_key.cpp:13-43 | a use, and a merge of a key that is sorted, canonical and resolves, keep an index so |
| KeyProofs.ReachableIsGood | src/entity/mutable_key.cpp:13-49 | in every run of making keys, use, merge of keys over the same document, fix and mutate, from no keys at all, every index is sorted, canonical and resolves in its document, and no fix has thrown |
| KeyProofs.DraftFollowsItsOps | src/entity/mutable_key.cpp:7-43 | however the operations on many keys are interleaved, a mutable key has the index that its own uses and merges give |
| KeyProofs.FixAndMutate | src/entity/immutable_key.cpp:8-27 | fixing gives the key over that index or throws if a path does not resolve, and mutating it gives the document and index back |
| KeyProofs.FixSucceedsIff | src/entity/mutable_key.cpp:34-49 | after any run, fix succeeds if and only if every merged path resolves in this document |
| KeyProofs.ForeignMergeCanFail | src/entity/mutable_key.cpp:34-43 | merging a key over another document can make fix throw |
| BidLadder.Ladder.constructor | include/boost/connector/types/bid_ladder.hpp:43-44 | an empty ladder with 1024 levels unless told otherwise |
| BidLadder.Ladder.LowerBound | src/types/bid_ladder.cpp:18-19 | the binary search finds how many levels are above the price |
| BidLadder.Ladder.Set | src/types/bid_ladder.cpp:15-36 | the in-place edit gives the vector with the level erased, overwritten, or inserted and trimmed |
| BidLadder.PlacedLists | src/types/bid_ladder.cpp:27-32 | overwriting or inserting a level is a map update on the book it lists, and keeps the order |
| BidLadder.ErasedLists | src/types/bid_ladder.cpp:24-25 | erasing a level is a map deletion, and keeps the order |
| BidLadder.ListsUnique | src/types/bid_ladder.cpp:15-36 | a book has one listing in decreasing price |
| BidLadderProofs.LadderInvariant | src/types/bid_ladder.cpp:15-36 | after any run the ladder is strictly decreasing and within its bound |
| BidLadderProofs.DropsAtMostOne | src/types/bid_ladder.cpp:34-35 | a call evicts at most one level |
| BidLadderProofs.AgreesAboveEvicted | src/types/bid_ladder.cpp:15-36 | after any run, erasures included, ladder and untrimmed book agree on membership and depth at every price above all evicted ones |
| BidLadderProofs.TrimCommutes | src/types/bid_ladder.cpp:32-35 | placing a level in a trimmed ladder and trimming is trimming after placing it in the whole book |
| BidLadderProofs.BestAreBest | src/types/bid_ladder.cpp:34-35 | trimming keeps as many levels as fit, and exactly those with fewer than that at a higher price |
| BidLadderProofs.StepKeepsBestIff | src/types/bid_ladder.cpp:15-36 | a call keeps the ladder the best part of the book if and only if it does not erase a shown level while the book is over-full |
| BidLadderProofs.HarmlessRunIsBest | src/types/bid_ladder.cpp:15-36 | after any run without such a call the ladder is exactly the best levels of the book, in order, with the depths last written |
| BidLadderProofs.BestThroughoutIff | src/types/bid_ladder.cpp:15-36 | the ladder is the best part of the book after every prefix of a run if and only if the run has no such call |
| BidLadderProofs.NonZeroRunIsBest | src/types/bid_ladder.cpp:18-35 | in particular after any run of non-zero depths, even when evicted prices are set again |
| BidLadderProofs.ZeroIsInserted | src/types/bid_ladder.cpp:32 | zero at an absent price adds a level of depth zero if and only if fewer than the maximum are better |
| BidLadderProofs.EvictedLevelIsLost | src/types/bid_ladder.cpp:24-35 | a run after which the book has a level and the ladder is empty |
| AsyncQueues.AsyncQueue.Push | include/boost/connector/util/async_queue.hpp:50-55 | appends the item and wakes the longest-parked consumer |
| AsyncQueues.AsyncQueue.Pop | include/boost/connector/util/async_queue.hpp:40-48 | takes the front item or parks |
| AsyncQueues.AsyncQueue.Resume | include/boost/connector/util/async_queue.hpp:43-47 | a woken consumer tests again: takes the front item or parks again |
| AsyncQueues.AsyncQueue.Clear | include/boost/connector/util/async_queue.hpp:34-38 | drops the items and leaves consumers alone |
| AsyncQueues.AsyncCircularBuffer.Push | include/boost/connector/util/async_circular_buffer.hpp:49-54 | appends the item, overwriting the oldest when full, and wakes the longest-parked consumer |
| AsyncQueues.AsyncCircularBuffer.Pop | include/boost/connector/util/async_circular_buffer.hpp:39-47 | takes the front item or parks |
| AsyncQueues.AsyncCircularBuffer.Resume | include/boost/connector/util/async_circular_buffer.hpp:42-46 | a woken consumer tests again |
| AsyncQueues.AsyncCircularBuffer.Clear | include/boost/connector/util/async_circular_buffer.hpp:33-37 | drops the items |
| AsyncQueues.AsyncSlot.Push | include/boost/connector/util/async_circular_buffer.hpp:95-100 | replaces the item and wakes the longest-parked consumer |
| AsyncQueues.AsyncSlot.Pop | include/boost/connector/util/async_circular_buffer.hpp:85-93 | takes the item or parks |
| AsyncQueues.AsyncSlot.Resume | include/boost/connector/util/async_circular_buffer.hpp:88-92 | a woken consumer tests again |
| AsyncQueues.AsyncSlot.Clear | include/boost/connector/util/async_circular_buffer.hpp:79-83 | drops the item |
| AsyncQueueProofs.EveryRunKeepsWakeups | include/boost/connector/util/async_queue.hpp:34-55 | in every reachable state of either container, while a consumer is parked the items do not outnumber the woken consumers |
| AsyncQueueProofs.EveryScheduleDrains | include/boost/connector/util/async_queue.hpp:40-55 | in any order of resumption each uses up one woken consumer, and when none is left no item waits beside a parked consumer |
| AsyncQueueProofs.WokenInParkingOrder | include/boost/connector/util/async_queue.hpp:53-54 | consumers are woken in the order in which they parked |
| AsyncQueueProofs.ConsumersConserved | include/boost/connector/util/async_queue.hpp:40-55 | every call of pop is parked, woken or served, exactly one of them |
| AsyncQueueProofs.QueueIsFifo | include/boost/connector/util/async_queue.hpp:40-55 | without clear, deliveries followed by what is queued are the pushes in order |
| AsyncQueueProofs.QuiescentDeliveries | include/boost/connector/util/async_queue.hpp:40-55 | once no consumer is woken, as many items are delivered as the smaller of pushes and calls |
| AsyncQueueProofs.ClearDropsItems | include/boost/connector/util/async_queue.hpp:34-38 | clear after any run drops the items and changes nothing else |
| AsyncQueueProofs.ClearForgets | include/boost/connector/util/async_queue.hpp:34-55 | in every continuation of every run, whatever is delivered after clear was pushed after it |
| AsyncQueueProofs.StepKeepsCoveredIff | include/boost/connector/util/async_circular_buffer.hpp:33-54 | woken consumers come to outnumber the items exactly by a pop that takes the last promised item, a clear after a wake-up, or a push that overwrites a promised item and wakes another |
| AsyncQueueProofs.AlwaysCoveredIff | include/boost/connector/util/async_circular_buffer.hpp:33-54 | woken consumers never outnumber the items in a run if and only if no event of the run is one of those |
| AsyncQueueProofs.ResumptionsDeliver | include/boost/connector/util/async_queue.hpp:40-48 | in any order of resumption the buffered items are delivered oldest first, as many as there are resumptions or items |
| AsyncQueueProofs.EveryWokenServedIff | include/boost/connector/util/async_queue.hpp:40-48 | every woken consumer is served in every full schedule of resumptions if and only if they do not outnumber the items |
| AsyncQueueProofs.WokenCanBeOvertaken | include/boost/connector/util/async_queue.hpp:43-47 | a run in which a woken consumer loses its item to a later call |
| AsyncQueueProofs.EveryRunInPushOrder | include/boost/connector/util/async_circular_buffer.hpp:33-54 | in every run the buffer is a suffix of the pushes, and deliveries come in strictly increasing push order without duplicates |
| AsyncQueueProofs.EveryRunWithinCapacity | include/boost/connector/util/async_circular_buffer.hpp:49-54 | a circular buffer never exceeds its capacity |
| AsyncQueueProofs.LossNeedsNewerPushes | include/boost/connector/util/async_circular_buffer.hpp:49-54 | without clear, an item that is neither buffered nor delivered has at least capacity newer pushes |
| AsyncQueueProofs.SpecialisationIsFaithful | include/boost/connector/util/async_circular_buffer.hpp:67-111 | under all interleavings the specialisation and the generic buffer at capacity one make the same deliveries and stay in corresponding states |
| Url.DeducePort | src/util/url.cpp:12-28 | the reassigned local holds the given port or the scheme's default, or the deduction fails |
| Url.BuildTarget | src/util/url.cpp:59-76 | appending in place gives path, query and fragment with their introducing characters |
| Url.DecodeUrl | src/util/url.cpp:80-107 | the steps in order compute the parts of the first match, or the first error |
| UrlProofs.GreedyMatches | src/util/url.cpp:90 | terms that may be empty, the last taking all but spaces, match with every repetition at its longest |
| UrlProofs.MatchHasNoSpace | src/util/url.cpp:90 | no match of terms that reject spaces spans a space |
| UrlProofs.SchemesExclusive | src/util/url.cpp:90 | at most one scheme alternative is followed by the mark |
| UrlDecoding.IEqualsIff | src/util/url.cpp:19-21 | two texts are equal ignoring case exactly when they differ in nothing but ASCII capitals and their small letters |
| UrlProofs.MatchBody | src/util/url.cpp:90 | past the scheme there is a match if and only if no space is left and the host is not empty, and it is greedy throughout |
| UrlProofs.MatchIsScan | src/util/url.cpp:89-101 | longest-first backtracking and one scan from left to right accept the same subjects with the same six captures |
| UrlDecoding.DecodeIff | src/util/url.cpp:80-107 | decoding succeeds if and only if the letters of a known scheme or their capitals, the mark and a host are there and no space follows; the deduction errors are unreachable; TLS holds exactly for wss and https |
| UrlDecoding.DeductionsSucceed | src/util/url.cpp:12-57 | a protocol that spells a known scheme in any case deduces that scheme's service and transport |
| UrlDecoding.DeductionsFail | src/util/url.cpp:12-57 | any other protocol deduces no port and is an invalid scheme |
| UrlDecoding.TransportOfPort | src/util/url.cpp:35-46 | without a scheme the port decides the transport, in any case, or the deduction fails |
| UrlDecoding.CapturesWellShaped | src/util/url.cpp:90-101 | captures are free of the delimiters that end them; an empty path forces empty query and fragment |
| UrlDecoding.PartsWellShaped | src/util/url.cpp:103-106 | host and service are not empty and free of delimiters; the target begins with a slash |
| UrlDecoding.DecodeAssembled | src/util/url.cpp:80-107 | any scheme in any spelling with well-shaped host, optional port, path, query and fragment decodes to exactly those parts |
| UrlDecoding.DecodePlainText | src/util/url.cpp:59-107 | the same with every part written out: which texts give which host, service, target and transport |
| UrlDecoding.RebuildRoundTrip | src/util/url.cpp:59-107 | rebuilding scheme, host, service and target and decoding again gives the same four parts |
| PropertyValues.PropertyValue.Construct | include/boost/connector/property_value.hpp:293-308 | small values go inline with the short table, others to the heap with the long table |
| PropertyValues.PropertyValue.MoveConstruct | src/property_value.cpp:24-30 | the contents go over, the source is void |
| PropertyValues.PropertyValue.MoveAssign | src/property_value.cpp:32-47 | between different objects the old contents are destroyed and the source's go over; from itself nothing changes |
| PropertyValues.PropertyValue.Destroy | src/property_value.cpp:49-52 | what the value owns on the heap is released |
| PropertyValues.PropertyValue.Equals | src/property_value.cpp:63-67 | equal exactly when type and value are, wherever they are kept |
| PropertyValueRuns.EveryRunOwnsAndReleasesOnce | src/property_value.cpp:24-52 | in every run each heap object has exactly one owner until it is released once; when no property value is left all are released |
| PropertyValueRuns.CreateHolds | include/boost/connector/property_value.hpp:212-219 | a new value holds what it was made from and no other changes |
| PropertyValueRuns.AssignCarries | src/property_value.cpp:32-47 | a move assignment carries type and value, self-assignment included, voids the source and touches no other |
| PropertyValueRuns.MoveCreateCarries | src/property_value.cpp:24-30 | a move construction carries type and value and voids the source |
| PropertyValueRuns.CreateVoidHolds | include/boost/connector/property_value.hpp:225-229 | a default property value holds nothing and no other changes |
| PropertyValueRuns.DestroyReleases | src/property_value.cpp:49-52 | destroying releases exactly what the property value owns, and no other changes |
| PropertyValueRuns.AssignReleases | src/property_value.cpp:32-47 | assigning releases exactly what the destination owned, and a self-assignment nothing |
| PropertyMaps.PropertyMapLayer.constructor | include/boost/connector/property_map.hpp:22-26 | an empty layer that sees what its parent sees |
| PropertyMaps.PropertyMapLayer.Query | include/boost/connector/property_map.hpp:30-39 | the recursive query is lookup in the view, the chain with nearer layers winning |
| PropertyMaps.PropertyMapLayer.Set | include/boost/connector/property_map.hpp:41-53 | one entry of the layer is emplaced or overwritten, and its view changes at that name only |
| PropertyMaps.MutablePropertyMap.constructor | src/property_map.cpp:14-17 | a fresh layer over the given parent |
| PropertyMaps.MutablePropertyMap.Set | include/boost/connector/property_map.hpp:87-93 | one entry of the map's own layer is written and its view changes there only |
| PropertyMaps.MutateMap | include/boost/connector/property_map.hpp:120-124 | a mutable map over a fresh layer whose parent is the fixed map's layer, with the fixed map's view |
| PropertyMaps.FixMap | include/boost/connector/property_map.hpp:126-130 | the layer goes over to a fixed map and the mutable map is left without one |
| PropertyMapProofs.ObjectsAnswerAsHeap | include/boost/connector/property_map.hpp:30-39 | layers as linked objects see and answer what the numbered layers do, over which runs are stated |
| PropertyMapProofs.SetOfObjectIsSetIn | include/boost/connector/property_map.hpp:41-53 | writing through one layer object is the write to the numbered layer |
| PropertyMapProofs.NewObjectIsNewLayer | src/property_map.cpp:14-17 | a layer object made over another is one numbered layer more |
| PropertyMapProofs.QueryIsFlattened | include/boost/connector/property_map.hpp:30-39 | a query at any depth is lookup in the flattened chain |
| PropertyMapProofs.SetSeenFrom | include/boost/connector/property_map.hpp:30-53 | writing to a layer changes the view of any layer at that key only, and exactly when the query gets there |
| PropertyMapProofs.SetIsLocal | include/boost/connector/property_map.hpp:87-93 | writing through a mutable map changes its view at one key only |
| PropertyMapProofs.NewMutableIsEmpty | include/boost/connector/property_map.hpp:83-85 | a mutable map made anew answers nothing, and making it changes no view |
| PropertyMapProofs.MutateStartsFromView | include/boost/connector/property_map.hpp:120-124 | a mutable map starts from the view of the fixed map |
| PropertyMapProofs.FixHandsOverView | include/boost/connector/property_map.hpp:126-130 | a fixed map answers as its mutable map would have |
| PropertyMapProofs.FixedMapsNeverChange | include/boost/connector/property_map.hpp:41-130 | in any run without copies of mutable maps every fixed map keeps its whole view |
| PropertyMapProofs.EveryRunIsPrivate | include/boost/connector/property_map.hpp:83-130 | in such runs the layer of a mutable map is shared with no other map and no layer is built on it |
| PropertyMapProofs.SetHarmlessIff | include/boost/connector/property_map.hpp:41-53 | in any state, a write leaves a fixed map's view unchanged if and only if the query does not get to the written layer or the answer was that value |
| PropertyMapProofs.CopyBreaksFixedMap | include/boost/connector/property_map.hpp:83-118 | a run with a copy after which a fixed map changes |
| LifetimePtr.Implementation.BeginMake | include/boost/connector/entity/lifetime_ptr.hpp:36-41 | a proxy with its flag unset and a deleter holding the implementation |
| LifetimePtr.Implementation.EndMake | include/boost/connector/entity/lifetime_ptr.hpp:41-44 | the flag is set after start returned |
| LifetimePtr.Implementation.AbortMake | include/boost/connector/entity/lifetime_ptr.hpp:39-41 | when start throws the proxy goes without stop |
| LifetimePtr.Implementation.DropPtr | include/boost/connector/entity/lifetime_ptr.hpp:19-23 | only the last lifetime pointer runs the deleter, which calls stop |
| LifetimePtr.Implementation.EndStop | include/boost/connector/entity/lifetime_ptr.hpp:22-27 | once stop returned, the flag goes, then the deleter's hold on the implementation |
| LifetimePtr.StartsBalanceStops | include/boost/connector/entity/lifetime_ptr.hpp:16-45 | in every run, including starts that throw and starts and stops that make, copy or drop pointers themselves, completed starts minus stops is the number of live proxies whose flag is set, and the implementation is alive throughout every start and stop and destroyed at most once |
| LifetimePtr.StoppedIff | include/boost/connector/entity/lifetime_ptr.hpp:16-45 | stop is called exactly once for a proxy that was started and whose last pointer is gone, and otherwise never |
| LifetimePtr.EveryRunBalances | include/boost/connector/entity/lifetime_ptr.hpp:16-45 | over every run, pointers left are those made and copied less those dropped, for the implementation and each proxy; stop was called exactly for started proxies of which all pointers ever made were dropped |
| LifetimePtr.AliveAtEveryCall | include/boost/connector/entity/lifetime_ptr.hpp:19-45 | whenever start or stop is called or ends the implementation is there |

## Left out

- websocket_stream_variant, connect_range, TLS, executors, async_void: network and library coroutines.
- async_latch, entity_key, dependency_map, snapshot, timestamp, condition, describe operators: they would only add easy members.
- Stream printing of digests, keys, levels, snapshots and property values.
- SHA-256 itself, boost::hash_combine and hash_value of keys and property values: hashing is a parameter, and hash values are functions of digests and contents.
- std::sort is modelled by an insertion sort; std::set, std::vector, std::deque and boost::circular_buffer by sequences; std::set::insert by insertion at the sorted place.
- Exception types and nesting: a failure is a result value; find_path keeps the two texts its message is made of, the other messages are not kept.
- Reference identity of what find_path returns: values stand for references into the shared document.
- NaN prices and rounding of prices and depths.
- Locales other than "C" in the URL matcher and comparison, and the recursion depth of std::regex.
- Destruction of a coroutine while it waits, and use of one queue from several threads.
- Destructors of objects kept inline: the object left behind by a move is never destroyed by the source, so release-once is stated for heap objects only.
- Querying a default property_map, whose layer pointer is null.
- Property values inside a property map are opaque, and runs over many maps are stated over numbered layers, to which the layer objects are tied by a correspondence.
- LifetimePtr.Implementation: the object of type T and its control block in one; one implementation is modelled at a time, its strong count as numbers; weak pointers do not occur, and what the destructor of T does is not modelled.
- std::shared_ptr ownership of documents: a document is an immutable value.
- entity_cache, entity_context and ask_ladder: declared without bodies in the repository.
