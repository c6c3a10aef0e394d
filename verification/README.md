# Poseidon, modelled and proved in Dafny

Poseidon is a publish/subscribe daemon written in C. Nodes advertise the topics they want in routing
filters, clients hold sessions whose messages arrive as length-prefixed frames, deleted channels leave
tombstones, and timers, memory and hashes come from the daemon's own small libraries. This project
models those self-contained parts and proves what they are for, over every input and every run.

Code that changes state step by step is a `class` (or an array method) with loops. Each such method is
proved against a function on values, and the laws are lemmas about those functions.

| Files | Component |
|---|---|
| `Bitset`, `ElasticFilter`, `ElasticCodes`, `ElasticAnswers`, `ElasticRuns`, `ElasticLaws`, `ElasticCopies`, `ElasticDeletion`, `ElasticImpl`, `ElasticCodec`, `Attenuated`, `AttenuatedOrigin`, `AttenuatedGrowth` | routing filters |
| `Digits`, `BigInt`, `Base58`, `NodeId` | Base58 text form of node IDs |
| `TimerPlan`, `Wheel`, `WheelSafety`, `WheelTiming`, `WheelPlans`, `WheelTrips`, `WheelAborts`, `WheelClock`, `WheelPace`, `WheelDelays`, `WheelProgress`, `WheelWaits`, `WheelStops`, `WheelImpl` | hierarchical timing wheel |
| `MemoryPool`, `MemoryPoolReuse` | size-class allocator with per-thread caches |
| `Xxh3`, `Xxh3Calls`, `Xxh3Stream`, `XxhLanes` | streaming hashes |
| `Sessions`, `SessionsLoopback`, `SessionsImpl` | client sessions and overlay subscriptions |
| `Framing` | stream reassembly in the QUIC transport |
| `Subtopic`, `SubtopicTable`, `Tombstones`, `TombstoneRuns` | subtopic matching, expiring subscriptions, tombstones |
| `Arith`, `Words`, `Sequences`, `Options` | powers, division and remainder; word sizes; pieces and counts; optional values |

The main results:

* **No false negatives.** A filter entry in bucket `b` with fingerprint `fp` stands for the code
  `b + size * fp`, the low part of the hash. Expansion leaves the set of codes as it is; compression caps
  it at 32 fingerprint bits; merging unites it. So an element stays contained over any run of resizes,
  merges and insertions, in any order, exactly as long as the reliable bits left do not fall below zero.
  `fp_bits` is never adjusted by a resize, so the bound is `fp_bits - expansions + compressions`. Below
  it some hash function loses its element, and so does compressing a table of odd size.
* **Answers.** A filter filled from empty reports an element exactly when each of its hash rounds, at seeds 1,
  3, 5 and so on, falls modulo the size on some round of some element inserted.
* **Deletion.** `remove` looks for the entry the element would get at the current size and width. After
  resizes the stored entry may have another width, so deletion undoes an insertion for every hash function
  exactly when the two moduli agree, that is when as many reliable bits are left as a new entry has. One
  expansion is enough to miss, and an element that is missed stays contained. Over any run of insertions,
  merges, resizes and deletions an element survives if every deletion misses the bits left of it.
* **Routing.** A merge of levels of one size shifts topics by one hop, and no level has anything from elsewhere:
  at the end of a path of nodes, what level k holds is what some node j hops back held at its level k - j. Subscribing grows level 0 alone and a
  merge of unequal sizes is silently refused, so a subscription gets to the neighbour if and only if it did
  not make level 0 grow, and over resizes exactly when the sizes end up equal and enough bits are left.
* **Timers.** A delay is rectified, cut into its days, hours, minutes, seconds and milliseconds, and the
  timer visits one wheel after another. In every reachable state the visits so far are a beginning of the
  nonzero fields, days first; when the callback runs they are all of them, and it runs once. Every visit
  takes an exact number of ticks of its wheel: a delay `d` on `n` slots takes `d` ticks if `d <= n` and
  `d - n` otherwise, because the code counts `circle` down before it tests it.
* **Real time.** The millisecond wheel is ticked from outside; every other wheel is ticked by a driver, a
  timer of 1000, 60, 60 or 24 ticks on the wheel below, which obeys the same law. Two ticks of a wheel are
  never fewer ticks of the wheel below apart than the law gives, and exactly that many in a prompt run, in
  which a wheel ticks only when the drivers above it are in their slots and what has expired is handled. So
  ticks have their nominal length exactly on 1000 slots or more; on the daemon's 8 slots a second lasts
  992 ms and a day less than 12 hours. In prompt runs a timer waits the sum of the real lengths of its
  stages, less the part of a tick of its first wheel that was over when it was set. This is never more than
  the delay asked for, and exactly that if and only if every field fits one revolution, upper wheels are used
  only on 1000 slots or more, and the timer was set at a tick. A timer of one second can run after one
  millisecond. For every moment and every delay there is a prompt run in which the timer is set then and runs.
* **Timer records.** References equal holders in every reachable state, so every record is freed once. A
  timer leaves the map at its *first* collection: cancelling it rules its callback out exactly when it is
  still in the map, and a timer in its second stage can no longer be cancelled. `set_timer` reads the
  identifier after dropping its reference; the record is gone by then exactly when the timer is neither in
  the map nor waiting nor expired, and for every delay some run gets there. No timer is both run and
  aborted. A timer that the abort of a wheel has aborted is not aborted again, in any continuation, exactly
  when it is no longer in the map; otherwise stopping the hierarchy aborts it a second time, and for every
  delay there is such a run.
* **Allocator.** After any interleaving of threads every block is in exactly one free list, one thread
  cache or the live set, and live allocations do not overlap. The system is asked exactly when a size exceeds
  1024 bytes or every block of its class is live or in another thread's cache.
* **Streaming hashes.** XXH3, XXH64 and XXH32 give the one-shot hash for every way of cutting an input. Their
  kernels are parameters, so which bytes meet which part of the secret is a list of calls: it is given in
  closed form and determines the hash.
* **Base58.** Both round trips, the length bound, and injective node ID strings.
* **Sessions.** A channel's topic is advertised exactly while a registered session wants it. A full registry
  leaves sessions outside, which can still subscribe: a wanted topic is advertised all the same, but an
  outsider's new subscription keeps advertised and wanted equal exactly when the topic was wanted before.
  "Advertised" is membership in an abstract set here. The routing filter behind it can go on reporting a
  removed topic, as every such filter can, and by the deletion result also because a resize came between.
  The list of local subscriptions beside it does *not* follow: it keeps one copy for every join that
  overlapped with another subscriber, and this count is exact. A session gets its own messages on a topic
  exactly when its last successful subscription, not followed by an unsubscription, asked for that.
* **Frames, subtopics, tombstones.** However bytes are cut into receive events the same payloads come
  out; a subscription covers a message exactly when its components are a prefix of the message's; the
  newest notice of a topic wins in any order of arrival, and over runs with expiry exactly as long as no
  older notice arrives while nothing is held for its topic.

`timer_duration_rectify` compares with `>`, so 1000 ms, 60 s, 60 min and 24 h stay in their fields; the
model does the same. A lock-held section is one atomic step.

## Model

| member | source | states |
|---|---|---|
| Bitset.WriteThenTest | src/Bloom/bitset.c:48-61 | writing one bit of a byte changes that bit and no other |
| Bitset.BitLayout | src/Bloom/bitset.c:41-46 | bit 8q + k is the bit of weight 2^k in byte q, and clear past the end |
| Bitset.Bits.constructor | src/Bloom/bitset.c:22-29 | a new set has the requested bytes and no bit set at any index |
| Bitset.Bits.Set | src/Bloom/bitset.c:48-61 | returns the old bit; afterwards exactly that bit has the value, every other index in the old or grown range reads as before |
| Bitset.Bits.Compact | src/Bloom/bitset.c:133-140 | trailing zero bytes go (one byte always stays) and no index reads differently |
| Bitset.ByteOpBits | src/Bloom/bitset.c:101-115 | the byte operators act on each bit separately |
| Bitset.Bitwise | src/Bloom/bitset.c:87-99 | result covers the longer operand and combines the operands bit by bit, missing bytes counting as zero |
| ElasticCodes.CodeIsLowHash | src/Bloom/elastic_bloom_filter.c:12-17 | bucket index and fingerprint together are the hash modulo size times 2^min(fp_bits, 32) |
| ElasticCodes.InsertCodes | src/Bloom/elastic_bloom_filter.c:109-122 | insertion adds exactly the codes of the element's hash rounds |
| ElasticCodes.ExpandKeepsCodes | src/Bloom/elastic_bloom_filter.c:168-202 | expansion stores exactly the codes stored before |
| ElasticCodes.CompressStores | src/Bloom/elastic_bloom_filter.c:204-241 | every code of an even table survives compression, reduced modulo half the size times 2^32 |
| ElasticCodes.CompressOrigin | src/Bloom/elastic_bloom_filter.c:204-241 | every code stored after compressing an even table comes from one stored before |
| ElasticCodes.CompressKeepsCodes | src/Bloom/elastic_bloom_filter.c:204-241 | with fingerprints below 2^31 compression of an even table stores exactly the same codes |
| ElasticCodes.MergeCodes | src/Bloom/elastic_bloom_filter.c:243-262 | merging filters of one size stores exactly the union of their codes |
| ElasticCodes.ContainsIffHit | src/Bloom/elastic_bloom_filter.c:131-145 | an element is reported exactly when each of its hashes, round i with seed_a + i * seed_b modulo 2^64, agrees with some stored code modulo the size |
| ElasticAnswers.SeedsDifferIff | src/Bloom/elastic_bloom_filter.c:12-14 | rounds i and j use one seed exactly when (j - i) * seed_b is 0 modulo 2^64 |
| ElasticAnswers.NewSeedsDiffer | src/Bloom/elastic_bloom_filter.c:76-87 | the seeds of a new filter are 1, 3, 5 and so on, all different for the first 2^63 rounds |
| ElasticAnswers.ContainsSpelled | src/Bloom/elastic_bloom_filter.c:12-145 | the same law with the hash of each round written out |
| ElasticAnswers.HoldsExactly | src/Bloom/elastic_bloom_filter.c:76-122 | the codes stored after any insertions into a new filter are exactly the hashes of all rounds of all elements modulo size times 2^min(fp_bits, 32) |
| ElasticAnswers.AnswerIs | src/Bloom/elastic_bloom_filter.c:76-145 | such a filter reports an element exactly when each of its rounds falls modulo the size on some round of some element inserted |
| ElasticAnswers.SecondRoundDecides | src/Bloom/elastic_bloom_filter.c:131-145 | hashes under which one round reports an element never inserted and two rounds do not |
| ElasticAnswers.PushedInFront | src/Bloom/elastic_bloom_filter.c:12-24 | a round puts the fingerprint, the quotient by the size cut to fp_bits and 32 bits, in front of its bucket unless it is there, and changes no other bucket |
| ElasticAnswers.InsertAgain | src/Bloom/elastic_bloom_filter.c:109-122 | inserting an element again changes no bucket |
| ElasticAnswers.AddGrowsIff | src/Bloom/elastic_bloom_filter.c:123-127 | the table doubles exactly when more than omega times the size of the buckets are in use after the insertion |
| ElasticAnswers.RemoveShrinksIff | src/Bloom/elastic_bloom_filter.c:160-164 | a table of two buckets or more halves exactly when four times the buckets in use are fewer than omega times the size |
| ElasticAnswers.CountAfter | src/Bloom/elastic_bloom_filter.c:109-262 | insertion counts one more, deletion one less but not below 0, a merge of one size adds the counts, a resize leaves them |
| ElasticRuns.NoFalseNegatives | src/Bloom/elastic_bloom_filter.c:109-262 | after insertion and any run of insertions, bucket insertions, merges, expansions and even compressions, the element is contained while the reliable bits at the end are not negative |
| ElasticRuns.ReliableIsNet | src/Bloom/elastic_bloom_filter.c:168-241 | away from the 32-bit cap the reliable bits are fp_bits less expansions plus compressions |
| ElasticRuns.SomeHashLoses | src/Bloom/elastic_bloom_filter.c:168-202 | once the reliable bits are negative some hash function loses its element, whatever the sequence of resizes |
| ElasticRuns.ContainedIffReliable | src/Bloom/elastic_bloom_filter.c:109-241 | over resizes, with any number of hash rounds, containment for every hash function holds if and only if the reliable bits are not negative |
| ElasticRuns.CompressSafeIffEven | src/Bloom/elastic_bloom_filter.c:204-241 | one compression is safe for every hash function if and only if the size is even |
| ElasticRuns.OddLoses | src/Bloom/elastic_bloom_filter.c:204-241 | an element in the last bucket of an odd table is lost |
| ElasticLaws.ExpandThenCompress | src/Bloom/elastic_bloom_filter.c:168-241 | expanding and compressing restores every bucket as a multiset; within it the even entries come before the odd ones |
| ElasticLaws.CompressThenExpand | src/Bloom/elastic_bloom_filter.c:168-241 | compressing an even table and expanding it is the identity if and only if all fingerprints are below 2^31 |
| ElasticLaws.ExpandConservesEntries | src/Bloom/elastic_bloom_filter.c:168-202 | expansion conserves the number of entries |
| ElasticLaws.CompressConservesEntries | src/Bloom/elastic_bloom_filter.c:204-241 | compressing an even table conserves the number of entries |
| ElasticLaws.DeleteCodes | src/Bloom/elastic_bloom_filter.c:147-160 | without duplicate entries, removal takes away exactly the codes the element has at the current size; entries it left at another size stay |
| ElasticDeletion.DeleteSparesOthers | src/Bloom/elastic_bloom_filter.c:147-160 | removal leaves contained every other element, tracked modulo whatever bits it has left, that differs in those bits from each code removed |
| ElasticDeletion.DeleteSparesInserted | src/Bloom/elastic_bloom_filter.c:109-262 | the same for an element inserted before any run of insertions, merges and resizes |
| ElasticDeletion.SurvivesDeletions | src/Bloom/elastic_bloom_filter.c:109-262 | an element stays contained over any run of insertions, merges, resizes and deletions in which every deletion misses its hashes modulo the modulus of that moment, while the reliable bits at the end are not negative |
| ElasticCopies.ExpandCopies | src/Bloom/elastic_bloom_filter.c:168-202 | expansion keeps the number of copies of every code |
| ElasticCopies.CompressCopies | src/Bloom/elastic_bloom_filter.c:204-241 | compressing an even table adds up the copies of the two codes that differ in the bit that falls off |
| ElasticCopies.DropRoundsCopies | src/Bloom/elastic_bloom_filter.c:147-160 | each round of a deletion takes one copy of its code away, as long as there is one |
| ElasticDeletion.DeleteVacates | src/Bloom/elastic_bloom_filter.c:109-241 | insertion into an empty filter, resizes, deletion: nothing stays when the stored and the current modulus agree on the hash of every round |
| ElasticDeletion.DeleteMisses | src/Bloom/elastic_bloom_filter.c:109-241 | the entry of a round stays when its residue modulo the stored modulus is no round's residue modulo the current one |
| ElasticDeletion.DeleteUndoesIff | src/Bloom/elastic_bloom_filter.c:109-241 | with any number of hash rounds, deletion leaves nothing behind for every hash function if and only if the two moduli agree on 64-bit hashes |
| ElasticDeletion.DeleteVacatesIff | src/Bloom/elastic_bloom_filter.c:109-241 | with one hash round, the entry goes if and only if the two moduli agree on its hash, and is still there otherwise |
| ElasticDeletion.ModuliEqualIff | src/Bloom/elastic_bloom_filter.c:168-241 | the two moduli are equal if and only if the reliable bits left are those of a new entry |
| ElasticDeletion.MissedStaysContained | src/Bloom/elastic_bloom_filter.c:131-166 | with any number of hash rounds, while reliable bits are left, the element is not contained after a deletion that left nothing, and still contained after one that missed every entry |
| ElasticDeletion.SomeStaysContainedIff | src/Bloom/elastic_bloom_filter.c:131-241 | some hash function keeps its element contained after its deletion if and only if the two moduli differ |
| ElasticDeletion.ExpansionMisses | src/Bloom/elastic_bloom_filter.c:147-202 | one expansion makes deletion miss the element: size 1, one fingerprint bit, hash 2 |
| ElasticLaws.StepDistinct | src/Bloom/elastic_bloom_filter.c:109-262 | every step keeps buckets free of duplicates, compression as long as no top bit is lost |
| ElasticImpl.BucketContains | src/Bloom/elastic_bloom_filter.c:40-47 | found exactly when the fingerprint is in the list |
| ElasticImpl.RemoveFirst | src/Bloom/elastic_bloom_filter.c:26-38 | the first matching entry goes, the rest keeps its order; says whether there was one |
| ElasticImpl.SplitBucket | src/Bloom/elastic_bloom_filter.c:176-193 | the entries of each low bit, halved, in reversed list order |
| ElasticImpl.MergePair | src/Bloom/elastic_bloom_filter.c:211-232 | lower entries with a 0 bit on top of upper entries with a 1 bit, each reversed |
| ElasticImpl.MergeLists | src/Bloom/elastic_bloom_filter.c:250-258 | the entries of the source list that are new are pushed onto the destination |
| ElasticImpl.Elastic.constructor | src/Bloom/elastic_bloom_filter.c:76-93 | an empty filter whose bitset mirrors its buckets |
| ElasticImpl.Elastic.RebuildBitset | src/Bloom/elastic_bloom_filter.c:63-73 | from any bucket table, bit i set exactly when bucket i is not empty |
| ElasticImpl.Elastic.AddData | src/Bloom/elastic_bloom_filter.c:109-129 | insertion, and growth exactly when the occupied share exceeds omega, as in ElasticAnswers.AnswerIs and AddGrowsIff; the bitset mirrors the buckets |
| ElasticImpl.Elastic.ContainsData | src/Bloom/elastic_bloom_filter.c:131-145 | true exactly when every hash round's bucket bit is set, which ElasticAnswers.ContainsSpelled puts in terms of the hashes at the written-out seeds |
| ElasticImpl.Elastic.RemoveData | src/Bloom/elastic_bloom_filter.c:147-166 | deletion at the same seeds, then compression exactly when the share is below a quarter of omega, as in ElasticAnswers.RemoveShrinksIff; the bitset mirrors the buckets |
| ElasticImpl.Elastic.Expand | src/Bloom/elastic_bloom_filter.c:168-202 | the table of twice the size that the laws are about, with a mirrored bitset |
| ElasticImpl.Elastic.Compress | src/Bloom/elastic_bloom_filter.c:204-241 | the table of half the size, or a refusal below two buckets that changes nothing |
| ElasticImpl.Elastic.Merge | src/Bloom/elastic_bloom_filter.c:243-262 | the merged filter, or a refusal of unequal sizes that changes nothing, self-merge included |
| ElasticImpl.Elastic.BucketInsertAt | src/Bloom/elastic_bloom_filter.c:295-304 | one entry put in its bucket unless it is there; an index out of range is refused |
| ElasticCodec.DecodeEncode | src/Bloom/elastic_bloom_filter.c:327-468 | decoding an encoded filter restores size, hash count, seeds, fingerprint width and every bucket list in order; count is reset |
| ElasticCodec.MirrorUnique | src/Bloom/elastic_bloom_filter.c:63-73 | a bucket table has exactly one bitset, so rebuilding cannot differ from what was encoded |
| ElasticCodec.Transfer | src/Bloom/elastic_bloom_filter.c:327-468 | a filter encoded and decoded into a fresh one has the same state, count reset, and byte for byte the same bitset |
| ElasticCodec.EncodeFilter | src/Bloom/elastic_bloom_filter.c:327-392 | writes the item that stands for the filter, occupied buckets only |
| ElasticCodec.NewFilterItems | src/Bloom/elastic_bloom_filter.c:338-349 | a new filter is written as size, hash count, fingerprint width, seeds 1 and 2, bitset length, bitset and a bucket count of 0, in this order and these widths |
| ElasticCodec.OneBucketItem | src/Bloom/elastic_bloom_filter.c:351-380 | an occupied bucket is written as index, length and fingerprints, the head of the list first, and an empty one not at all |
| ElasticCodec.InsertReversed | src/Bloom/elastic_bloom_filter.c:457-461 | inserting from last to first at the head keeps the encoded order |
| ElasticCodec.DecodeFilter | src/Bloom/elastic_bloom_filter.c:394-468 | a filter exactly for well-formed items, with its bitset mirroring the decoded buckets |
| ElasticCodec.DecodeEncodeLevels | src/Bloom/attenuated_bloom_filter.c:89-180 | decoding an encoded attenuated filter restores every level |
| Attenuated.MergeReportsBoth | src/Bloom/elastic_bloom_filter.c:243-262 | a merge reports what either input reported; the destination keeps its own whatever the source is |
| Attenuated.MergeKeepsLevels | src/Bloom/attenuated_bloom_filter.c:68-77 | no level of the destination loses a topic |
| Attenuated.MergeRoutes | src/Bloom/attenuated_bloom_filter.c:52-77 | if level k of the source and level k + 1 of the destination have one size, hash count and seeds, a topic the source reports first at level k is reported by the destination at level k + 1 or below; AttenuatedOrigin has the other half |
| AttenuatedOrigin.MergeElsewhere | src/Bloom/attenuated_bloom_filter.c:71-74 | a merge leaves level 0, and every level above the last of the source moved up by one, as it was |
| AttenuatedOrigin.MergeOrigin | src/Bloom/attenuated_bloom_filter.c:71-74 | a code of level i + 1 was in level i + 1 of the destination or, sizes being equal, in level i of the source, and both are kept |
| AttenuatedOrigin.MergeLocalIff | src/Bloom/attenuated_bloom_filter.c:52-77 | a topic is reported at 0 hops after a merge exactly when it was before |
| AttenuatedOrigin.MergeAnswer | src/Bloom/attenuated_bloom_filter.c:52-77 | level i + 1 reports a topic exactly when each hash round hits level i + 1 of the destination or level i of the source |
| AttenuatedOrigin.MergeHops | src/Bloom/attenuated_bloom_filter.c:52-77 | with one hash round the hops reported are the smaller of the own hops and one more than the neighbour's |
| Attenuated.FloodRoutes | src/Bloom/attenuated_bloom_filter.c:52-77 | along a path of nodes whose levels all have one size, hash count and seeds, a local topic of the first node is reported n hops away at level n or below |
| AttenuatedOrigin.FloodExact | src/Bloom/attenuated_bloom_filter.c:52-77 | at the end of a path of nodes with like levels, level k is hit exactly when some node j hops back is hit at its own level k - j |
| Attenuated.AttenuatedFilter.Subscribe | src/Bloom/attenuated_bloom_filter.c:36-42 | the topic is added to level 0 and no other level changes |
| Attenuated.AttenuatedFilter.Check | src/Bloom/attenuated_bloom_filter.c:52-66 | reports exactly when some level contains the topic, with the lowest such level as hops |
| Attenuated.AttenuatedFilter.MergeFrom | src/Bloom/attenuated_bloom_filter.c:68-77 | level i + 1 takes in level i of the source, as far as both go, and by AttenuatedOrigin.MergeElsewhere nothing else changes; merged into itself, each level takes in the one below as it has just become |
| Attenuated.CascadeSpreads | src/Bloom/attenuated_bloom_filter.c:68-77 | after merging a filter whose levels have one size, hash count and seeds into itself, every level reports what any level below it reported |
| AttenuatedOrigin.CascadeElsewhere | src/Bloom/attenuated_bloom_filter.c:71-74 | merging a filter into itself leaves level 0, and every level above the last one merged, as it was |
| AttenuatedOrigin.CascadeLocalIff | src/Bloom/attenuated_bloom_filter.c:52-77 | a topic is reported at 0 hops after it exactly when it was before |
| AttenuatedOrigin.CascadeHits | src/Bloom/attenuated_bloom_filter.c:71-74 | and for like levels, level k is hit afterwards exactly when some level up to k was |
| AttenuatedGrowth.UnequalIsRefused | src/Bloom/attenuated_bloom_filter.c:68-77 | a level of another size than the level merged into it stays as it was |
| AttenuatedGrowth.ArrivesIff | src/Bloom/attenuated_bloom_filter.c:36-77 | a topic inserted and resized reaches a new neighbour for no hash function at another size, and for every hash function if and only if the sizes are equal and the reliable bits are not negative |
| AttenuatedGrowth.SubscriptionArrivesIff | src/Bloom/attenuated_bloom_filter.c:36-77 | from like levels, a subscription that a neighbour then merges arrives there if and only if it did not make level 0 grow |
| AttenuatedGrowth.FirstSubscriptionLost | src/Bloom/attenuated_bloom_filter.c:36-77 | on filters of one bucket the first subscription grows level 0, stays contained there and is lost to the neighbour |
| Digits.ConvertTwice | src/Util/base58.c:102-222 | converting digits to another base and back is the identity, leading zeros included |
| BigInt.Multiply | src/Util/base58.c:48-60 | the exact product, with the top byte nonzero and within the buffer |
| BigInt.AddSmall | src/Util/base58.c:62-74 | the exact sum, with the top byte nonzero and within the buffer |
| BigInt.DivMod | src/Util/base58.c:76-88 | exact quotient and remainder, with the top byte of the quotient nonzero |
| Base58.AlphabetInverse | src/Util/base58.c:9-31 | the 58 characters of the alphabet string and the decoding table are inverse to each other |
| Base58.EncodedLengthBound | src/Util/base58.c:94-96 | the encoding of n bytes never exceeds n * 138 / 100 + 1 characters |
| Base58.DecodeOfEncode | src/Util/base58.c:102-222 | every byte string of up to 100 bytes decodes from its encoding |
| Base58.EncodeOfDecode | src/Util/base58.c:102-222 | every string that decodes is the encoding of what it decodes to |
| Base58.DecodesIff | src/Util/base58.c:158-190 | exactly the strings of up to 200 characters of the alphabet decode |
| Base58.HigherFirst | src/Util/base58.c:102-222 | the bytes 1, 0 are "5R" and back: the higher byte and the higher digit come first |
| Base58.ZeroBecomesOne | src/Util/base58.c:108-150 | a zero byte in front puts a '1' in front |
| Base58.ExtractDigits | src/Util/base58.c:123-128 | dividing down to zero terminates and yields the digits of the number |
| Base58.ReverseInPlace | src/Util/base58.c:40-46 | the first len bytes reversed, the others untouched |
| Base58.Encode | src/Util/base58.c:102-156 | the encoding and its length, or -1 with nothing written, for every input and every output size |
| Base58.Decode | src/Util/base58.c:158-222 | the decoding and its length, or -1 with nothing written, for every string and every output size |
| NodeId.ParseOfGenerated | src/Crypto/node_id.c:10-45 | the string form of any hash fits its buffer and parses back to that hash |
| NodeId.ParsedSpelled | src/Crypto/node_id.c:25-45 | exactly the strings of up to 47 characters that decode to at most 32 bytes parse, to those bytes followed by zeros |
| NodeId.ParsedOfTwo | src/Crypto/node_id.c:39-42 | "2" parses to a one and 31 zero bytes |
| NodeId.GeneratedInjective | src/Crypto/node_id.c:10-23 | different hashes have different string forms |
| NodeId.CanonicalIff | src/Crypto/node_id.c:25-45 | of the strings that parse, exactly those that decode to 32 bytes are the string form of their hash |
| NodeId.ShortStringsCollide | src/Crypto/node_id.c:39-42 | zero filling makes two different strings parse to one hash |
| NodeId.Id.FromPublicKey | src/Crypto/node_id.c:10-23 | never fails once the hash is computed, and leaves a string that parses back to it |
| NodeId.Id.FromString | src/Crypto/node_id.c:25-45 | what status, string and hash are for every string, failures included |
| WheelSafety.StepInv | src/Time/wheel.c:24-538 | every step of set, run, tick, fire, cancel, stop and destroy, drivers included, keeps references equal to holders |
| WheelSafety.ReachableInv | src/Time/wheel.c:430-449 | the invariant holds in every state reachable from a new wheel |
| WheelSafety.LiveIffHeld | src/Time/wheel.c:24-41 | in every reachable state a record is live exactly while held, and its count is the number of holders |
| WheelSafety.RunsAtMostOnce | src/Time/wheel.c:217-259 | over every run a timer's callback runs at most once, and never after a cancellation that found it in the map |
| WheelSafety.FreedOnce | src/Time/wheel.c:30-36 | a freed record is never live again, so it is freed once |
| WheelTiming.TickCountsDown | src/Time/wheel.c:201-215 | a tick lowers a waiting timer's countdown by one, and collects it at one |
| WheelTiming.CollectedExactly | src/Time/wheel.c:261-298 | over any run that leaves the timer alone it waits for fewer ticks than its countdown and is collected by exactly that tick |
| WheelTiming.PlacedCountdown | src/Time/wheel.c:327-336 | placing a timer, at any position and with any 64-bit delay, starts the countdown of its span |
| WheelTiming.SpanIsFireTick | src/Time/wheel.c:327-336 | the span is the tick of the firing law as long as position plus delay does not wrap |
| WheelTiming.FiringLaw | src/Time/wheel.c:261-336 | delay d on n slots expires at tick d if d <= n and at tick d - n otherwise |
| WheelTiming.OnTimeIff | src/Time/wheel.c:274-280 | a timer expires at the tick it was set for if and only if its delay fits one revolution |
| WheelTiming.SpanOfZero | src/Time/wheel.c:329-331 | a delay of 0, whose subtraction of 1 wraps, takes a revolution plus the laps left after the cut to 32 bits |
| WheelTiming.ZeroWithinRevolutionIff | src/Time/wheel.c:329-331 | it ends within one revolution if and only if the cut number of laps is at most 1 |
| WheelTiming.ZeroSpans | src/Time/wheel.c:329-331 | 8 ticks on 8 slots, 17179869180 on 12, 1271310319000 on 1000 |
| WheelPlans.StepPlan | src/Time/wheel.c:24-538 | every step keeps the invariant of plans and times: visits made plus stages left are the itinerary of the delay asked for, every ended visit took its span, every open one is as far as its countdown says |
| WheelPlans.ReachablePlan | src/Time/wheel.c:430-449 | that invariant holds in every state reachable from a new wheel |
| WheelTrips.ItineraryIs | src/Time/wheel.c:344-414 | the itinerary of a delay is its nonzero rectified fields, days first; a zero delay waits once on the millisecond wheel |
| WheelTrips.VisitsInOrder | src/Time/wheel.c:217-414 | in every reachable state the visits of a timer are a beginning of the nonzero fields of its rectified delay, and once its callback has run they are all of them and it ran once |
| WheelTrips.VisitsTakeTheirSpan | src/Time/wheel.c:201-336 | in every reachable state each ended visit took exactly its span of ticks, and only the last visit of a timer that has not run can be open |
| WheelTrips.VisitOnTimeIff | src/Time/wheel.c:261-336 | a visit with a nonzero delay, position plus delay below 2^64, took exactly its delay if and only if the delay fits one revolution |
| WheelTrips.ZeroDelayWaits | src/Time/wheel.c:327-414 | a timer set with no delay at all makes one visit, on the millisecond wheel, of the wrapped span |
| WheelTrips.StageExpires | src/Time/wheel.c:201-336 | in any stage, over any run that leaves the timer alone, it waits until one tick before its span is over and the next tick collects it |
| WheelTrips.ReachesCallback | src/Time/wheel.c:201-298 | from every state in which a timer is under way, ticks and the handling of expired timers can bring it to its callback |
| WheelTrips.MappedIff | src/Time/wheel.c:261-428 | in every reachable state the map holds exactly the timers set by users and never collected, cancelled or discarded |
| WheelTrips.CancelWorksIff | src/Time/wheel.c:416-428 | a cancellation rules the callback out in every continuation if and only if the timer was in the map |
| WheelTrips.LateCancel | src/Time/wheel.c:287-428 | for every slot count a timer of two stages reaches its second stage, a cancellation then changes nothing, and its callback runs |
| WheelTrips.ReleaseFreesIff | src/Time/wheel.c:412-413 | in every reachable state the last reference that set_timer drops before reading the identifier frees the record exactly when the timer is neither in the map nor in a slot nor expired |
| WheelTrips.FreedBeforeRead | src/Time/wheel.c:412-413 | for every delay there is a run in which the callback has run and the record is freed before set_timer reads it |
| WheelAborts.AbortsExcludeCallback | src/Time/wheel.c:308-325 | over every run no timer is both run and aborted, and none is aborted more than twice |
| WheelAborts.AbortedOnceIff | src/Time/wheel.c:308-538 | in every reachable state, a timer whose callback the abort of a wheel calls is aborted no second time in any continuation if and only if it is not in the map |
| WheelAborts.TwiceAborted | src/Time/wheel.c:308-538 | for every slot count and delay: set, abort of its wheel, stop is a run in which the abort callback is called twice |
| WheelAborts.CancelledStaysQuiet | src/Time/wheel.c:308-325 | in every continuation of every reachable state a cancelled timer is not aborted again |
| WheelStops.TickMoves | src/Time/wheel.c:201-210 | a tick moves a running wheel by one slot and one tick; a stopped wheel and every other wheel stay |
| WheelStops.StoppedMakesNoTick | src/Time/wheel.c:179-342 | over every run that does not run the millisecond wheel again, a stopped wheel keeps its position, its ticks and its mark; upper wheels are never unmarked |
| WheelStops.RunAgainTicks | src/Time/wheel.c:179-210 | run again after a stop, the millisecond wheel ticks |
| WheelClock.ClockStep | src/Time/wheel.c:179-215 | every step in which upper wheels tick only as the callback of their driver keeps the invariant of drivers: one for each tick, placed after the tick before and expired before its own |
| WheelClock.TicksApart | src/Time/wheel.c:179-215 | over every such run, however late the work pool is, two ticks of an upper wheel are at least as many ticks of the wheel below apart as the firing law gives for its interval |
| WheelClock.EveryIs | src/Time/wheel.c:179-199 | that number is the interval on at least as many slots, and one revolution less otherwise |
| WheelPace.PaceStep | src/Time/wheel.c:179-259 | every prompt step keeps the wheels in step with each other |
| WheelDelays.TickTimes | src/Time/wheel.c:179-215 | over every prompt run, tick i of an upper wheel comes with tick (i + 1) times that number of the wheel below |
| WheelDelays.TicksMade | src/Time/wheel.c:179-215 | over every prompt run, a wheel has made the ticks whose time in milliseconds has come, with at most one due |
| WheelDelays.RealIsUnitIff | src/Time/wheel.c:430-449 | a tick is never longer than its nominal unit, and a tick of an upper wheel has that length if and only if there are at least 1000 slots |
| WheelDelays.EightSlots | src/poseidond.c:131 | on 8 slots a second is 992 ms, a minute 52 of those, an hour 52 of those and a day 16 of those |
| WheelDelays.VisitLength | src/Time/wheel.c:201-336 | over every prompt run, an ended visit lasted its span of real ticks less the part of a tick that was over when it began, and only a first visit begins within a tick |
| WheelDelays.WaitedIs | src/Time/wheel.c:201-414 | over every prompt run, a timer that has run waited the real length of its rectified delay less the part of a tick of its first wheel that was over |
| WheelDelays.LengthIsTotalIff | src/Time/wheel.c:344-414 | the real length of a delay is at most the delay, and equal to it if and only if every field fits one revolution and upper wheels are used only on 1000 slots or more |
| WheelDelays.WaitsWholeDelay | src/Time/wheel.c:201-414 | over every prompt run, a timer waits at most its rectified delay, and exactly that if and only if the delay fits in this sense and the timer was set at a tick of its first wheel |
| WheelProgress.NextBeat | src/Time/wheel.c:201-259 | from every settled state a tick of the millisecond wheel leads through prompt steps to a settled state |
| WheelProgress.ReachesTime | src/Time/wheel.c:500-506 | for every number of milliseconds there is a prompt run from a new wheel that is settled then |
| WheelProgress.RunsOut | src/Time/wheel.c:201-298 | from every settled state a timer under way reaches its callback in a prompt run |
| WheelWaits.SetAt | src/Time/wheel.c:344-414 | for every moment and every nonzero delay there is a prompt run in which the timer is set then, runs, and waited the real length of the delay less that moment modulo a tick |
| WheelWaits.SecondInAMillisecond | src/Time/wheel.c:179-259 | for every slot count there is a prompt run in which a timer of one second waits one millisecond |
| WheelImpl.Hierarchy.Maintenance | src/Time/wheel.c:261-298 | the in-place walk of the slot list is the step the laws are about |
| WheelImpl.Hierarchy.OnTick | src/Time/wheel.c:201-210 | a tick as in the laws, keeping the invariant |
| WheelImpl.Hierarchy.FireFirst | src/Time/wheel.c:219-250 | an expired timer is dropped if cancelled, moved to its next stage, or run |
| WheelImpl.Hierarchy.FireExpired | src/Time/wheel.c:217-259 | every expired timer is handled exactly once, in order, as in the laws |
| WheelImpl.Hierarchy.SetTimer | src/Time/wheel.c:344-414 | from the delay asked for: rectify, build the plan, create, place and release as in the laws, with a new identifier |
| WheelImpl.Hierarchy.BuildPlan | src/Time/wheel.c:356-411 | the five branches build the plan that starts at the largest unit in use |
| WheelImpl.Hierarchy.CreateTimer | src/Time/wheel.c:344-411 | a record with the plan of the rectified delay, entered in the map under a new identifier |
| WheelImpl.Hierarchy.RunWheel | src/Time/wheel.c:179-199 | the millisecond wheel is marked as running; an upper wheel gets a driver that is made, placed on the wheel below and released as in the laws |
| WheelImpl.Hierarchy.CancelTimer | src/Time/wheel.c:416-428 | a timer in the map is marked and unmapped; any other identifier changes nothing |
| WheelImpl.Hierarchy.Stop | src/Time/wheel.c:507-538 | all wheels stop; exactly the timers still in the map are cancelled, each is aborted once, in some order, and the map ends up empty |
| WheelImpl.Hierarchy.AbortWheel | src/Time/wheel.c:308-325 | the wheel stops and its slots are emptied in order, aborting exactly the timers not cancelled, as in the laws |
| TimerPlan.RectifyTotal | src/Time/wheel.c:481-498 | the total is kept if and only if no carry wraps around 64 bits, and never grows |
| TimerPlan.RectifyLimits | src/Time/wheel.c:481-498 | the four lower fields end within limits; durations within limits are exactly the fixed points |
| TimerPlan.Delay.Rectify | src/Time/wheel.c:481-498 | the in-place carries compute the rectified duration |
| TimerPlan.PlanCoversDuration | src/Time/wheel.c:344-414 | the stages of a nonzero duration's plan are exactly its nonzero fields, days first, and add up to the whole duration |
| MemoryPool.BlocksCount | src/Util/memory_pool.c:27-44 | the list made at initialisation holds each block once and nothing else |
| MemoryPool.ClassOf | src/Util/memory_pool.c:68-78 | the smallest class whose blocks hold the size, and none only above the largest |
| MemoryPoolReuse.InitialBlocks | src/Util/memory_pool.h:25-31 | 10000 blocks of 64 bytes, 5000 of 256 and 2000 of 1024, each list in address order |
| MemoryPool.LinkBlocks | src/Util/memory_pool.c:27-44 | the linking loop yields that list |
| MemoryPool.InitInv | src/Util/memory_pool.c:124-159 | the invariant holds after initialisation |
| MemoryPool.StepInv | src/Util/memory_pool.c:162-379 | allocation, release and one step of a drain, by any thread, keep the invariant |
| MemoryPool.NoOverlap | src/Util/memory_pool.c:203-284 | no two live allocations overlap |
| MemoryPool.Conservation | src/Util/memory_pool.c:27-379 | after any interleaving each block is in exactly one free list, one cache or the live set, free_blocks is the list length, and live allocations are disjoint |
| MemoryPool.FreshAddress | src/Util/memory_pool.c:203-284 | an allocation from the pool is a block of its class that nobody holds |
| MemoryPoolReuse.ReleaseThenAllocate | src/Util/memory_pool.c:203-340 | a block released while the thread's cache holds fewer than 32 is the next one of its class the thread gets, and the two calls cancel out |
| MemoryPoolReuse.OverflowThenAllocate | src/Util/memory_pool.c:101-379 | with 32 in the cache a released block goes to the front of the class list, and a thread with an empty cache gets it next |
| MemoryPoolReuse.SystemIffExhausted | src/Util/memory_pool.c:203-284 | in every state that keeps the invariant the system is asked exactly when the size exceeds 1024 or every block of the class is live or in another thread's cache |
| MemoryPool.Allocator.ClassAlloc | src/Util/memory_pool.c:81-98 | takes the head of the free list, or null from an empty one |
| MemoryPool.Allocator.ClassFree | src/Util/memory_pool.c:101-121 | pushes an address of the class onto the free list and refuses any other |
| MemoryPool.Allocator.Allocate | src/Util/memory_pool.c:203-284 | cache, free list or system as in the laws; the address was not live; the invariant is kept |
| MemoryPool.Allocator.Release | src/Util/memory_pool.c:304-379 | cache, free list or system as in the laws; the invariant is kept |
| MemoryPool.Allocator.Drain | src/Util/memory_pool.c:162-182 | the thread's caches end up empty, every other thread's cache is unchanged and no block is lost |
| Xxh3.ConsumeStripes | deps/xxhash/xxhash.h:6656-6689 | stripes fed in across block ends meet the same secret offsets and scrambles as one sequence |
| Xxh3.HashLong | deps/xxhash/xxhash.h:6231-6261 | the block loop and last stripe compute the accumulator of the whole input, whose calls Xxh3Calls.LongCalls lists |
| Xxh3Calls.LongCalls | deps/xxhash/xxhash.h:6231-6261 | with a secret of L bytes: stripe i is accumulated with secret bytes from 8 * (i modulo (L - 64) / 8), a scramble with the last 64 secret bytes follows each full block, and the last call takes the last 64 bytes with secret bytes L - 71 to L - 7; there are no other calls |
| Xxh3Calls.DefaultCalls | deps/xxhash/xxhash.h:6231-6261 | for the 192-byte secret: 16 stripes a block, secret bytes 128 to 192 for scrambles and 121 to 185 for the last call |
| Xxh3Calls.HashedCalls | deps/xxhash/xxhash.h:6403-6422 | up to 240 bytes there is only the call of the short form; above, the long calls and then the finish |
| Xxh3Calls.LongReplayed | deps/xxhash/xxhash.h:6231-6261 | every kernel computes what it computes on the recorded calls, so the list determines the hash |
| Xxh3Stream.State.Update | deps/xxhash/xxhash.h:6701-6778 | for data of any size the state stands for the input extended by it |
| Xxh3Stream.State.CatchUp | deps/xxhash/xxhash.h:6821-6828 | bytes kept at the end of the buffer and buffered bytes are the last 64 bytes of the input |
| Xxh3Stream.State.DigestLong | deps/xxhash/xxhash.h:6799-6833 | the accumulator of the whole input, with the calls of Xxh3Calls.LongCalls, without changing the state |
| Xxh3Stream.State.Digest | deps/xxhash/xxhash.h:6836-6849 | the one-shot hash of everything fed in, short form up to 240 bytes and the calls of Xxh3Calls.LongCalls above |
| Xxh3Stream.HashPieces | deps/xxhash/xxhash.h:6568-6849 | for every way of cutting an input into updates the digest is the one-shot hash, hence made of the same kernel calls |
| Xxh3Stream.HashOneShot | deps/xxhash/xxhash.h:6403-6422 | the one-shot entry computes that hash, whose calls Xxh3Calls.HashedCalls lists |
| XxhLanes.ConsumeLong | deps/xxhash/xxhash.h:3552-3581 | all whole chunks are mixed in and the unmixed tail is left |
| XxhLanes.Hashed64 | deps/xxhash/xxhash.h:3536-3689 | XXH64 in closed form: round i takes bytes 32i to 32i + 32 from the four seeded lanes, shorter inputs take seed plus prime 5, the length is added, and the bytes left over are finalised |
| XxhLanes.Hashed32 | deps/xxhash/xxhash.h:3016-3192 | XXH32 in closed form, with 16 bytes a round |
| XxhLanes.ZeroSeedLanes | deps/xxhash/xxhash.h:3536-3543 | the four lanes of seed 0, in order, for XXH64 and XXH32 |
| XxhLanes.Core.Update | deps/xxhash/xxhash.h:3743-3784 | lanes and buffer stand for the input extended by the data |
| XxhLanes.State64.Digest | deps/xxhash/xxhash.h:3788-3801 | the XXH64 one-shot hash of everything fed in |
| XxhLanes.State32.Digest | deps/xxhash/xxhash.h:3293-3306 | the XXH32 one-shot hash of everything fed in, past 2^32 bytes as well |
| XxhLanes.HashOneShot | deps/xxhash/xxhash.h:3670-3689 | the one-shot loop computes that hash |
| XxhLanes.HashPieces64 | deps/xxhash/xxhash.h:3733-3801 | for every way of cutting an input the XXH64 digest is the one-shot hash |
| XxhLanes.HashPieces32 | deps/xxhash/xxhash.h:3236-3306 | the same for XXH32, for inputs of any length |
| Sessions.StepFollows | src/ClientAPIs/client_session.c:434-597 | every step keeps a topic advertised exactly while wanted, and only a join beside another subscriber adds a surplus copy |
| Sessions.AdvertisedIffWanted | src/ClientAPIs/client_session.c:434-597 | over every run a channel's topic is advertised exactly when some registered session is subscribed, and no session lists a path twice |
| Sessions.ListedIffWantedOrOverlapped | src/Network/Quasar/quasar.c:266-321 | over every run the local list holds a topic exactly when somebody is subscribed or some join overlapped with another subscriber |
| Sessions.CopyStaysBehind | src/Network/Quasar/quasar.c:266-321 | two sessions that subscribe and both unsubscribe leave one copy behind for nobody |
| Sessions.WantedIsAdvertised | src/ClientAPIs/client_session.c:434-597 | over every run, sessions outside the registry included, a channel's topic that some registered session is subscribed to is advertised |
| Sessions.OutsiderKeepsIff | src/ClientAPIs/transport_quic.c:366-368 | after a session outside the registry subscribes, the topic is advertised exactly while wanted if and only if somebody wanted it before |
| Sessions.FoundIff | src/ClientAPIs/client_session.c:448-458 | a path subscribed anew is found afterwards if and only if it has at most 255 characters |
| Sessions.RegisteredIff | src/Channel/channel_manager.c:751-761 | a new session is registered exactly while there are fewer than 256, and no other is lost |
| SessionsLoopback.SubscribeSets | src/ClientAPIs/client_session.c:434-460 | a subscription of up to 255 characters that returns 0 sets the loopback flag of its path as asked and no other path's |
| SessionsLoopback.RefusedChangesNothing | src/ClientAPIs/client_session.c:448-451 | a refused subscription changes no entry |
| SessionsLoopback.CutSubscribeSets | src/ClientAPIs/client_session.c:453-457 | a longer path sets the flag of its first 255 characters if those are not listed, and no other |
| SessionsLoopback.UnsubscribeClears | src/ClientAPIs/client_session.c:480-492 | unsubscribing a path that is listed once clears its flag |
| SessionsLoopback.UnsubscribeKeeps | src/ClientAPIs/client_session.c:480-492 | unsubscribing leaves every other path's flag |
| SessionsLoopback.CutPathOutlives | src/ClientAPIs/client_session.c:453-492 | a path of 256 characters subscribed twice is stored twice, so its first 255 characters outlive an unsubscription |
| SessionsLoopback.ShortNeverCut | src/ClientAPIs/client_session.c:453-455 | no path is cut to a topic of fewer than 255 characters |
| SessionsLoopback.LastAskedDecides | src/ClientAPIs/client_session.c:434-647 | over every run, for topics of up to 255 characters that no longer path is cut to: a session is subscribed exactly when its last call about the topic was a successful subscription, and loops back exactly when that one asked for it |
| Sessions.UnregisteredMembers | src/Channel/channel_manager.c:763-777 | moving the last session into the gap removes exactly the one session |
| SessionsImpl.Session.RemoveAt | src/ClientAPIs/client_session.c:489-492 | the list without that place, the others in order |
| SessionsImpl.Session.HasLoopback | src/ClientAPIs/client_session.c:527-540 | the loopback flag of the subscription, false without one |
| SessionsImpl.Manager.HasOtherSubscriber | src/ClientAPIs/client_session.c:546-569 | true exactly when a registered session other than the given one lists the path |
| SessionsImpl.Manager.Subscribe | src/ClientAPIs/client_session.c:434-478 | refreshed, appended, or refused exactly when a new path meets 256 subscriptions; a path of up to 255 characters then loops back exactly if asked for and every other path as before; the overlay is joined exactly for a new subscription to a channel |
| SessionsImpl.Manager.Unsubscribe | src/ClientAPIs/client_session.c:480-511 | removed or refused; the overlay is left exactly when no other session wants the topic |
| SessionsImpl.Manager.Cleanup | src/ClientAPIs/client_session.c:571-597 | exactly the channel topics that no other session wants are taken out of the overlay |
| SessionsImpl.Manager.Connect | src/Channel/channel_manager.c:751-761 | a new session without subscriptions, registered while there is room |
| SessionsImpl.Manager.Disconnect | src/ClientAPIs/transport_quic.c:135-145 | cleanup, unregister and destroy as one step of the run theorem |
| SessionsImpl.Manager.Dispatch | src/ClientAPIs/client_session.c:603-655 | exactly the registered, reachable, subscribed sessions get the message, each once, the publisher only with loopback |
| SessionsImpl.Quasar.Unsubscribe | src/Network/Quasar/quasar.c:300-321 | stops advertising the topic and takes one listing of it away |
| Framing.LengthRoundTrip | src/ClientAPIs/transport_quic.c:30-41 | a written length reads back |
| Framing.HeaderRoundTrip | src/ClientAPIs/transport_quic.c:30-41 | four header bytes are what their length writes |
| Framing.HeaderAnnounces | src/ClientAPIs/transport_quic.c:30-41 | the first header byte counts most: 0, 0, 0, n announces n |
| Framing.BadHeaderClears | src/ClientAPIs/transport_quic.c:173-190 | a header announcing 0 or more than 65536 clears the buffer, whatever follows |
| Framing.DeliveredIff | src/ClientAPIs/transport_quic.c:30-235 | a payload behind its length is delivered exactly when it has 1 to 65536 bytes |
| Framing.ReassemblesPrefix | src/ClientAPIs/transport_quic.c:173-297 | however a stream of frames is cut into events, delivered so far are exactly the completed payloads in order and retained is exactly the unfinished beginning of the next frame |
| Framing.Reassembles | src/ClientAPIs/transport_quic.c:173-297 | once the whole stream has arrived all payloads are delivered and nothing is retained |
| Framing.Client.Grow | src/ClientAPIs/transport_quic.c:267-282 | doubling ends, the capacity suffices and the retained bytes are kept |
| Framing.Client.TakeFrame | src/ClientAPIs/transport_quic.c:174-234 | handing one frame on, waiting or clearing changes neither the total delivery nor the final rest |
| Framing.Client.ProcessData | src/ClientAPIs/transport_quic.c:173-235 | delivers the complete frames in the buffer and retains the rest |
| Framing.Client.ReceiveEvent | src/ClientAPIs/transport_quic.c:252-297 | one event of several network buffers acts as its bytes in one piece |
| Subtopic.JoinSplit | src/Channel/subtopic.c:5-45 | joining the components of a path restores it, and no component holds a separator |
| Subtopic.SplitJoin | src/Channel/subtopic.c:5-45 | separator-free components are recovered from their path |
| Subtopic.BoundaryIsListPrefix | src/Channel/subtopic.c:58-70 | a text prefix that ends at a component boundary is exactly a prefix of the list of components |
| Subtopic.Matches | src/Channel/subtopic.c:47-71 | true exactly for the empty subscription or when the subscription, all slashes at its end taken off, has components that are a prefix of the message's; Subtopic.CoversSpelled and TrailingSlash say which messages these are |
| Subtopic.Stripped | src/Channel/subtopic.c:53-56 | what is left is empty or ends in another character than a slash, and only slashes are taken off |
| Subtopic.CoversSpelled | src/Channel/subtopic.c:47-71 | a subscription that does not end in a slash takes exactly its own path and what goes on with a slash |
| Subtopic.TrailingSlash | src/Channel/subtopic.c:47-71 | a slash at the end makes no difference to a nonempty subscription; "/" takes only messages that are empty or start with a slash |
| Subtopic.NonEmptyIs | src/Channel/subtopic.c:5-45 | empty components are dropped and the others kept in order |
| Subtopic.OneComponent | src/Channel/subtopic.c:5-45 | a path without slashes is refused exactly from 64 characters on |
| Subtopic.Parse | src/Channel/subtopic.c:5-45 | the first max_parts non-empty components; refused exactly when an overlong component comes before they are complete, or there is no room for parts |
| SubtopicTable.RunDistinct | src/Channel/subtopic.c:87-175 | over every run with paths that fit, no path is listed twice and the table does not overflow |
| SubtopicTable.SubscribedIff | src/Channel/subtopic.c:87-111 | after a subscription that finds room the path is found if and only if it has at most 511 characters |
| SubtopicTable.SubscribedMembers | src/Channel/subtopic.c:87-111 | a subscription puts or renews exactly the entry of its path with the time to live asked for; a table of 64 takes no new path |
| SubtopicTable.ListedSinceSubscribed | src/Channel/subtopic.c:87-175 | from a subscription on, over every run that does not touch its path, it is listed exactly before the tick it asked for |
| SubtopicTable.UnsubscribedMembers | src/Channel/subtopic.c:113-126 | moving the last entry into the gap removes exactly the entry of the path |
| SubtopicTable.AgedMembers | src/Channel/subtopic.c:158-175 | a tick keeps exactly the entries with more than one tick to live, each one tick older |
| SubtopicTable.ListedIff | src/Channel/subtopic.c:87-175 | over every run that does not touch its path, an entry with n ticks to live is listed exactly before the n-th tick |
| SubtopicTable.Table.ShouldDeliver | src/Channel/subtopic.c:143-156 | true exactly when some listed path covers the message's subtopic |
| SubtopicTable.Table.AddOrRefresh | src/Channel/subtopic.c:87-111 | refreshed, appended or refused when full |
| SubtopicTable.Table.Remove | src/Channel/subtopic.c:113-126 | removed, or refused when the path is not listed |
| SubtopicTable.Table.Age | src/Channel/subtopic.c:158-175 | the in-place compaction is the tick of the laws |
| Tombstones.AddAllDistinct | src/Channel/channel_manager.c:629-655 | for every sequence of notices the table lists no topic twice, has at most 64 entries, and holds only notices received |
| Tombstones.AllRememberedIff | src/Channel/channel_manager.c:647-650 | every noticed topic is remembered if and only if there are at most 64 |
| Tombstones.HoldsNewest | src/Channel/channel_manager.c:629-655 | with room for every topic and no expiry, a lookup finds exactly the newest notice of the topic |
| Tombstones.OrderIndependent | src/Channel/channel_manager.c:629-667 | the same notices in any order, any number of times and received at any time leave the same answer for every topic, up to the expiry time |
| Tombstones.PermutationIndependent | src/Channel/channel_manager.c:629-667 | a permutation of tombstones leaves the same entry for every topic, expiry time included |
| TombstoneRuns.TableDistinct | src/Channel/channel_manager.c:629-688 | over every run of notices and expiries no topic is listed twice and there are at most 64 entries |
| TombstoneRuns.LiveLookup | src/Channel/channel_manager.c:657-688 | expiry takes away exactly the expired answers |
| TombstoneRuns.NewestWinsIff | src/Channel/channel_manager.c:629-688 | over every run of notices and expiries, lookups find only the newest notice received at every moment if and only if no older notice arrives and finds room while nothing is held for its topic |
| TombstoneRuns.OldNoticeReturns | src/Channel/channel_manager.c:629-688 | after the newest tombstone has expired an older notice is taken in and found |
| Tombstones.AddTwice | src/Channel/channel_manager.c:629-655 | a notice of a topic no later than the one just received changes nothing, whenever it is received and whatever the table holds |
| Tombstones.LiveInOrder | src/Channel/channel_manager.c:669-688 | expiry keeps exactly the unexpired entries, in their order |
| Tombstones.LiveDistinct | src/Channel/channel_manager.c:669-688 | no topic is listed twice after expiry |
| Tombstones.Manager.Find | src/Channel/channel_manager.c:657-667 | the topic's entry, or none |
| Tombstones.Manager.AddTombstone | src/Channel/channel_manager.c:629-655 | replaced if strictly newer, appended, or refused when full; succeeds exactly when the topic is listed afterwards |
| Tombstones.Manager.Expire | src/Channel/channel_manager.c:669-688 | the in-place compaction is the expiry of the laws |

## Left out

- ElasticCodec.DecodeFilter: refuses items with size 0 or a fingerprint width of 64 and more, for which the C code builds an unusable filter or shifts by too much; items of a wrong CBOR type, on which libcbor asserts, are refused as well.
- Attenuated.AttenuatedFilter.MergeFrom: requires that a destination without levels is merged only with a source without levels, since the C code wraps its level count and writes past the end otherwise, and that two different filters share no level object, as their constructor makes it.
- Attenuated.MergeRoutes: requires levels of one size, hash count and seeds; AttenuatedGrowth.SubscriptionArrivesIff and AttenuatedGrowth.ArrivesIff say exactly when a topic gets there, growth included.
- Attenuated.FloodRoutes: requires the same along the whole path.
- AttenuatedOrigin.FloodExact: requires the same, and one number of levels along the path, which is what lets a level be counted back hop by hop.
- AttenuatedOrigin.MergeHops: requires one hash round, since with more rounds the two filters can each hit some of them; AttenuatedOrigin.MergeAnswer is exact for any number.
- ElasticAnswers.AnswerIs: insertions without a resize; over resizes and merges ElasticRuns.ContainedIffReliable and ElasticRuns.NoFalseNegatives say when an element stays contained.
- Attenuated.CascadeSpreads: requires the same of all levels.
- Attenuated.AttenuatedFilter.Subscribe: requires at least one level, as the C code does by reading level 0.
- BigInt.Multiply: requires that the product fits the buffer, as the C code does; Base58.Encode and Base58.Decode prove it at every call.
- BigInt.AddSmall: requires that the sum fits the buffer, in the same way.
- Base58.Decode: characters above 255, which a C string cannot hold, count as invalid; the 256-entry table is written as ranges.
- WheelTiming.FiringLaw: requires a number of laps that fits a signed 32-bit field, which is what the C field holds.
- WheelDelays.WaitsWholeDelay: requires a prompt run, since a late work pool makes ticks longer without bound (WheelClock.TicksApart is the half that needs no such requirement), at most 2^64 - 1000 slots and a delay whose sum with the position does not wrap; WheelTrips.ZeroDelayWaits covers a delay of zero.
- WheelAborts.AbortedOnceIff: the abort callback of a driver, which aborts the wheel it ticks, is a call like any other; the abort of that wheel is a further run of the same steps.
- Sessions.AdvertisedIffWanted: requires that only registered sessions subscribe, channels do not change and their topics are shorter than 255 characters, as node ID strings are; Sessions.OutsiderKeepsIff says exactly what a session outside a full registry does, and Sessions.WantedIsAdvertised needs no such requirement. The routing filter is an abstract set, so a removal that the real filter misses (ElasticDeletion.DeleteUndoesIff) is outside it.
- SessionsLoopback.LastAskedDecides: requires that no longer path is cut to the topic, which is always so below 255 characters; SessionsLoopback.CutSubscribeSets and SessionsLoopback.CutPathOutlives say what a cut path does.
- SubtopicTable.SubscribedMembers: requires a path of up to 511 characters; SubtopicTable.SubscribedIff says that a longer one is not found.
- Xxh3Stream.State.Digest: requires a total length below 2^64, where the C counter wraps.
- Linked lists (bucket entries, timer slots, free lists) are sequences: node allocation and aliasing are not modelled.
- The session registry and the overlay's local list are sequences that methods reassign.
- Null pointer arguments, failing memory allocation and `size_t` overflow of doubled sizes, capacities and identifiers.
- The omega comparison is over real numbers instead of floats.
- Hash functions are parameters: BLAKE3, the one-shot hash inside the filters, and the accumulate, scramble, round, merge and short-input kernels of xxHash; so are its SIMD variants and the 128-bit XXH3.
- Condition variables, worker pools and the real length of a tick of the millisecond wheel; a tick is one step with respect to cancellation, handling each expired timer is another, and running a wheel again is a third.
- `timer_list_remove_by_id`, `base58_decoded_length`, bitset comparison and negation, filter iteration and counters: easy or unused.
- Allocator statistics, destruction and use before initialisation.
- The routing filter behind the overlay is a set of topics in `Sessions`; what the filter itself guarantees is in the filter modules. TTLs of overlay subscriptions are zero for sessions and do not expire.
- The encoding of events and responses, CBOR bytes, sockets, TLS, signatures, the Meridian and Quasar protocols and configuration.
