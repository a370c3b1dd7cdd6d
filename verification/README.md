# A model of aki-bench in Dafny

aki-bench drives a Redis-protocol server with commands and reports how it did. This project models
what lies between the command source and the reported number, and proves what that path promises:
commands drawn, framed, sent by a drive loop, replies parsed, latencies recorded, histograms
merged, a percentile read; the key selectors and the distinct-key tracker beside it; and the
workloads that must build a stated population and keep it.

| file | what it models |
|---|---|
| `Arith.dfy`, `Bits.dfy`, `Samples.dfy` | products and quotients; shifts and bitwise operators on words; bags of samples, ranks and extremes |
| `Shape.dfy`, `Histograms.dfy` | the slot arithmetic and sizing of the latency histogram; the histogram class |
| `OpenLoop.dfy` | the open-loop schedule as a queue, and what coordinated-omission correction makes of it |
| `Decimal.dfy`, `Resp.dfy`, `Client.dfy` | base-10 text; the RESP wire format and its parser; the buffered client over a counting socket |
| `Drive.dfy`, `Run.dfy` | one connection's closed and open drive loops; merging, wire bytes, request split |
| `RunMachine.dfy`, `RunProgress.dfy` | all connections of a closed-loop run interleaved; how far each step takes one, and what ends it |
| `Selectors.dfy`, `SplitMix.dfy`, `Zipf.dfy` | the connection hash and the uniform selector; the hash against splitmix64 as published; the Zipfian selector |
| `Tracker.dfy` | the lock-free tracker, as a machine of atomic steps and as methods under interference |
| `Names.dfy`, `Churn.dfy`, `Queues.dfy`, `Preloads.dfy` | member names; SREM and SPOP probes; LPOP and XREADGROUP probes; what the preloads build |
| `Corpus.dfy` | the disk-scenario generator: load, churn, and what is left alive |
| `Coverage.dfy` | the retrievability probe |

## How the environment is modelled

- Time is integer nanoseconds. In the open loop the server's service times are any sequence of
  naturals (client overhead and late timers folded in); in the closed loop the clock gives any two
  instants for each command, one after its write and one after its reply.
- A socket read hands over any non-empty piece of what has arrived. The network says of each write
  whether it fails, and a failing one puts out any part of its bytes; from then on the buffered writer
  refuses everything. A server is a list of well-formed replies, one for each command, and then bytes
  no reply can be read from, so a drive can fail at any command.
- The context gives a verdict at every check: at each head of a drive loop, and in each wait of the open
  loop. Every theorem is about all verdicts, all faults and all clocks, and says what they cause.
- Interleavings are schedules, and every theorem is about all of them.
- A machine word is a natural below 2^64; `|`, `&`, `^`, `<<` and `>>` are defined bit by bit and
  multiplication is taken modulo 2^64. `int64` wrap-around is modelled where it decides something:
  the sizing loop of the histogram.
- Floating point is exact: Zipf weights are any positive reals, percentiles are reals, and logarithms
  of the histogram constructor are integer logarithms.

## Where the code and its comments part

The model follows the code. Each of these is a lemma here, with the exact condition where there is one.

- `RecordValue` says a value above the range is counted, not dropped. It is dropped when `highest` is a
  power of two at or above the end of the first bucket, and only then (`ClampTargetDroppedIff`,
  `ClampTargetDroppedExample`). The latency histogram is not of that kind (`LatencyLayout`).
- The sizing loop of `NewHistogram` ends exactly when the first bucket's end fits a positive `int64`
  (`SizingLoopEndsIff`); larger `lowest` values make it turn forever (`SizingLoopForeverExample`).
- `driveOpen` measures from the due time and corrects for omission on top of it, so a stall is weighed
  twice: m delayed operations leave m (m + 1) / 2 samples (`StallSampleCount`).
- The comment on `WriteCommand` says nothing reaches the socket before `Flush`. That holds exactly when
  the command fits what is left of the buffer (`Client.Client.WriteCommand`); one argument of 64 KiB
  never does (`OversizedCommand`, `EarlyWriteExample`).
- `sustained` promises that every re-add is a new member. After a warmup the sequence numbers restart.
  For SREM and for SPOP alike the promise, with the population law that rests on it, holds exactly when
  the set carries none of the names to be added (`PopulationHeldIff`), and one warmup command voids it
  (`RestartBreaks`). SPOP still never meets an empty set (`SpopNeverNil`), and SREM still always finds
  its member (`SremAlwaysHits`).
- A preload covers its planned operations but goes on to the end of a batch of 256: it equals the plan
  only for multiples of 256 (`PreloadCovers`), and the algebra sets have the stated sizes only for
  multiples of 128 (`AlgebraPreload`).
- The corpus generator promises exactly `entries` live entries for every suite. The stream suite keeps
  that promise exactly when the number of streams divides the entry count (`StreamLiveEntries`,
  `StreamShortfallExample`). The set suite keeps it, and misses no removal, exactly when no two entries
  of a set have the same hash at the same point of the churn (`LoadThenChurn`, `CollisionExample`); for
  that it is enough that the hashes of the entries in use do not collide within a set.

## Model

| member | source | states |
|---|---|---|
| Shape.Layout.BucketIndex | load/hdr.go:91-94 | the bucket found from the bit length of value-or-mask is the one whose power-of-two range holds the value |
| Shape.TrackedIffBelowLimit | load/hdr.go:106-120 | indexFor gives a slot exactly to the values below subBucketCount << (unitMagnitude + bucketCount - 1), and the slot is inside the counts array |
| Shape.IndexForMonotone | load/hdr.go:106-120 | larger values never get a smaller slot, and everything below a tracked value is tracked |
| Shape.IndexOfValueFromIndex | load/hdr.go:188-196 | for every slot, valueFromIndex followed by indexFor is the identity, and the value is its own low equivalent |
| Shape.ValueFromIndexOfIndex | load/hdr.go:188-226 | reading back a value's slot gives its low equivalent, and the slot's top is the value's high equivalent |
| Shape.ValueWithinItsSlot | load/hdr.go:220-226 | lowEquivalent <= v <= highEquivalent, one step wide |
| Shape.SameSlotIffEquivalent | load/hdr.go:106-120 | two tracked values share a slot if and only if one lies in the other's equivalence interval |
| Shape.RelativeError | load/hdr.go:32-34 | a slot is no wider than the unit step or one part in 10^sigFigs of the value |
| Shape.NewLayout | load/hdr.go:49-69 | sizing arrives at the fewest buckets whose range reaches highest, for every legal shape that fits int64 |
| Shape.LayoutUnique | load/hdr.go:49-82 | a shape is determined by (lowest, highest, sigFigs) |
| Shape.SizingLoopEndsIff | load/hdr.go:58-67 | in int64 arithmetic the sizing loop ends if and only if the first limit is at most 2^62 |
| Shape.SizingLoopForeverExample | load/hdr.go:58-67 | a legal shape on which every turn of the loop is followed by another: lowest 2^52, highest 2^53, three figures |
| Shape.NoSampleDroppedIff | load/hdr.go:122-143 | every clamped sample has a slot if and only if highest is below the range limit |
| Shape.ClampTargetDroppedIff | load/hdr.go:122-134 | the clamp target itself is lost if and only if highest is a power of two at or above the first bucket's end |
| Shape.ClampTargetDroppedExample | load/hdr.go:122-134 | a legal shape on which a stall is dropped: lowest 1, highest 2048, three figures |
| Shape.LatencyLayout | load/hdr.go:85-89 | the latency histogram's shape, and that it drops nothing |
| Histograms.Histogram.constructor | load/hdr.go:35-83 | corrected arguments, the unique layout, an empty and valid histogram |
| Histograms.Histogram.RecordValue | load/hdr.go:122-143 | appends the value itself when it lies in 0..highest and below the range limit, 0 for a negative one, highest for one above it, and nothing when the value or highest has no slot; counts, total, minimum and maximum stay those of the bag |
| Histograms.Histogram.RecordValues | load/hdr.go:145-169 | is count calls of RecordValue: count copies of a value in range, and nothing for a count of zero or less |
| Histograms.StoredRepeat | load/hdr.go:145-169 | recording the same value n times stores n clamped copies or none |
| Histograms.Histogram.RecordCorrectedValue | load/hdr.go:171-186 | records exactly value - i * interval for i below max(1, value div interval), in that order, each as itself inside the range and as the nearer end outside it |
| Histograms.StoredAll | load/hdr.go:122-143 | with a shape that drops nothing there is one stored sample for each recorded value, in order: the value itself in 0..highest, 0 below, highest above |
| Histograms.CountsSumToTotal | load/hdr.go:131-136 | the slot counts add up to the number of samples |
| Histograms.Histogram.Merge | load/hdr.go:268-284 | with equal layouts merging is recording the other's samples; with unequal lengths or nil nothing changes; counts and total always add |
| Histograms.SummaryOfBag | load/hdr.go:268-284 | counts, extremes and order statistics depend only on the bag of samples, so merge order is immaterial |
| Histograms.Histogram.ValueAtPercentile | load/hdr.go:198-218 | with p held to 0..100, returns the top of the slot of the k-th smallest sample for the least k from 1 on with 100 k >= p N; the fallback return is dead code |
| Histograms.RankIsCeiling | load/hdr.go:202-209 | max(1, ceil(p / 100 * N)) is that k and no other |
| Samples.KthSmallestOfSorted | load/hdr.go:198-218 | the rank used above is the index k - 1 of the sorted samples |
| Histograms.PercentileMonotone | load/hdr.go:198-218 | a higher percentile never reports less |
| Histograms.PercentileError | load/hdr.go:198-226 | a reported percentile is at or above the order statistic and overstates it by less than the resolution |
| OpenLoop.Interval | load/runner.go:330-339 | the schedule step is the largest whose rate is not below the connection's share of the target |
| OpenLoop.OnScheduleIff | load/runner.go:352-361 | a drive that sends nothing before begin + k * interval nor before the previous reply, and otherwise without delay, has exactly one sequence of send instants: the one the latencies are computed from |
| OpenLoop.Recurrence | load/runner.go:352-379 | latencies obey the waiting-time recurrence of a single-server queue |
| OpenLoop.LatencyIsMaxBacklog | load/runner.go:352-379 | latency k is the maximum over j <= k of the service due in [j, k] less (k - j) intervals |
| OpenLoop.BackfillCountIs | load/hdr.go:176-186 | correction makes max(1, value div interval) samples |
| OpenLoop.CorrectedCount | load/runner.go:378-380 | at least one sample an operation, and exactly one each if and only if no latency reached two intervals |
| OpenLoop.StallLatency | load/runner.go:352-379 | after a stall of m intervals operation k is late by m - k intervals |
| OpenLoop.StallSampleCount | load/runner.go:378-380 | such a stall leaves m (m + 1) / 2 samples |
| Decimal.ParseFormat | load/client.go:163-167 | ParseInt reads back what FormatInt or Itoa wrote, over all of int64 |
| Decimal.FormatExample | load/client.go:83-99 | -70 is written "-70" |
| Resp.ReadValue | load/client.go:155-187 | the parser ends on every input, and each accepted frame takes at least two bytes |
| Resp.DecodeEncode | load/client.go:155-243 | every well-formed reply tree, of any depth, is read back whole and leaves exactly the bytes after it |
| Resp.TypeBytes | load/client.go:155-243 | the type byte that opens each frame, and the frames without contents, byte for byte |
| Resp.ReadValueStable | load/client.go:155-187 | on every input, appended bytes change neither an accepted value nor a protocol complaint |
| Resp.CommandRoundTrip | load/client.go:83-99 | a framed command reads back as its argument vector, whatever bytes it holds |
| Resp.CommandExample | load/client.go:83-99 | SET k v on the wire, byte for byte |
| Resp.PipelineRoundTrip | load/client.go:83-99 | a pipeline of commands reads back command by command, in order |
| Resp.CommandsPrefixFree | load/client.go:83-99 | no command's encoding is a proper prefix of another's |
| Client.CountingConn.Read | load/client.go:42-46 | any piece of the arrived bytes, counted |
| Client.CountingConn.Write | load/client.go:48-52 | all of the bytes, or a failure after a part of them exactly when the network fails this write; whatever got out is counted |
| Client.Client.ReadLine | load/client.go:245-255 | the line the parser sees on the pending stream, however it arrives |
| Client.Client.ReadFull | load/client.go:257-267 | exactly the next len pending bytes, or a failure when there are fewer |
| Client.Client.ReadElements | load/client.go:210-243 | the element loop of arrays and maps agrees with the parser |
| Client.Client.ReadReplyValue | load/client.go:155-187 | the outcome and the bytes left are the parser's on the whole pending stream, independent of chunking |
| Client.Client.ReadReplyKind | load/client.go:137-149 | the kind is nil, error or value as the parsed reply is |
| Client.KindOfReply | load/client.go:112-149 | the three nulls and no other reply are nil, simple errors and no other are errors |
| Client.Client.Buffer | load/client.go:81-84 | bytes are kept in order, and some reach the socket if and only if the buffer overflows; it fails if and only if it failed before or one of the writes it made fails |
| Client.Client.WriteCommand | load/client.go:81-99 | on success exactly the command's framing is appended to what was sent, and the socket is untouched if and only if it fits the buffer; it fails if and only if a write failed before or during it |
| Client.OversizedCommand | load/client.go:81-99 | a command with an argument of 64 KiB or more never fits |
| Client.Client.Flush | load/client.go:101-102 | on success everything sent is on the socket and the buffer is empty; it fails if and only if a write failed before or in it |
| Drive.Counters.Record | load/runner.go:245-254 | one operation, and one nil or one error reply when the kind says so |
| Drive.ReadBatch | load/runner.go:310-320 | reads one reply for each command of the batch, each tallied by its own kind and timed from its own send time, and stops only when the server has no reply left |
| Drive.TallyCounts | load/runner.go:245-254 | the tallies of n replies are n operations, the nils among them and the errors among them |
| Drive.WireIsPipeline | load/runner.go:294-308 | what a drive has written is the framing of commands 0, 1, 2, ... in order |
| Drive.DriveClosed | load/runner.go:281-322 | expires if and only if its head check found the context expired, and none before did; ends by a write failure only when a write failed; otherwise by running out of replies, or with exactly pipeline * ceil(q / pipeline) commands, which it reaches when nothing of that happens. Tallies are those of the replies read, and sample i is the time from the write of command i to its reply. At a clean end commands written equal replies read, the streams are empty and the bytes are the frames' |
| Drive.DriveOpen | load/runner.go:324-383 | the same alignment, tallies and write failures; expires if and only if the context was found expired at the head check of a command or in the wait for its due time, and completes if and only if it reached its share unexpired; every command, counted or not, was sent on schedule, so none before begin + k * interval; and the histogram gains exactly the corrected latencies of the queue |
| Drive.OpenSampleCount | load/runner.go:378-380 | the open-loop histogram's count against the operations, in a shape that drops nothing |
| RunMachine.ReachableInv | load/runner.go:284-322 | commands drawn, replies counted, samples and shared tallies agree at every step of every interleaving |
| RunMachine.AnyInstant | load/runner.go:245-254 | ValueOps is never negative, errors never exceed connections, and no connection is more than a batch ahead, at any instant |
| RunMachine.FinalConservation | load/runner.go:207-213 | at the end ops = nils + error replies + values = samples recorded by all connections, whatever failed |
| RunMachine.MergeRun | load/runner.go:207-213 | the merged histogram of a finished run holds those samples and its count is ops |
| RunMachine.CompleteRunCount | load/runner.go:182-188 | a run whose connections all completed counted connections * pipeline * ceil(q / pipeline) operations |
| RunProgress.PlaceIsSteps | load/runner.go:284-322 | without an expired context and without a failure every event that applies to a connection takes it one place on in its loop, and none ends it early |
| RunProgress.CompleteAfterRunSteps | load/runner.go:284-322 | such a connection completes its share after ceil(q / pipeline) * (4 pipeline + 2) + 1 of its own steps and not before; without a share it never ends |
| RunProgress.ServedRunCompletes | load/runner.go:182-207 | a run by request count whose connections are served that many replies and not disturbed ends complete, with connections * pipeline * ceil(q / pipeline) operations and no error |
| RunProgress.EndReason | load/runner.go:284-322 | a connection has expired if and only if one of its head checks found the context expired, and has failed if and only if one of its writes, flushes or reads failed |
| RunProgress.FinalTallies | load/runner.go:245-254 | at the end the nils are the nil replies heard, the errors the error replies heard, and the operations all replies heard, over all connections |
| RunProgress.LatenciesAreHeard | load/runner.go:310-320 | the latencies of a connection are those of the replies it heard, in order |
| Run.PerConnRequests | load/runner.go:182-188 | the share of each connection that came up: the quotient, at least one, and none without a limit |
| Run.RoundedLeast | load/runner.go:284-322 | the count a connection reaches is the least multiple of the pipeline that covers its share |
| Run.PreloadCovers | cmd/aki-bench/main.go:335-343 | a preload sends at least the planned operations, and exactly them if and only if 256 divides them |
| Run.MergeAll | load/runner.go:210-213 | the merged histogram holds the samples of all connections |
| Run.MergedPercentile | load/runner.go:210-213 | the reported percentile is the top of the slot of that order statistic over the samples of all connections |
| Run.Warm | load/runner.go:256-279 | a warm drive that no connection fails leaves every stream empty on both sides and uses no more replies than any check that found the context expired; it fails only when a write has failed or a server ran out of replies before such a check |
| Run.MeasuredBytes | load/runner.go:152-220 | warm drives, baselines, measured drives and sums, in either mode: without a failure the byte totals are the frame lengths of the measured replies and commands alone, the commands counted from sequence number 0 again, and a share that no context cuts is served whole; it fails only when a write failed or a server had too few replies |
| Selectors.UnmixMix | workload/dist.go:119-124 | mix64 has a left inverse |
| Selectors.MixUnmix | workload/dist.go:119-124 | and it is a right inverse: mix64 is a bijection of 64-bit words |
| Selectors.HashBijectiveInSeq | workload/dist.go:115-117 | for one connection connSeqHash is a bijection of the sequence numbers |
| Selectors.HashInjectiveInConn | workload/dist.go:115-117 | at one sequence number different connections hash differently |
| SplitMix.HashIsOutput | workload/dist.go:115-117 | connSeqHash at sequence number s is output s of one splitmix64 generator, whose state starts at the scrambled connection number and grows by the golden ratio |
| SplitMix.FirstOutput | workload/dist.go:119-124 | mix64 gives the first published output of splitmix64 for seed 0 |
| SplitMix.SecondOutput | workload/dist.go:119-124 | and the second |
| SplitMix.ThirdOutput | workload/dist.go:119-124 | and the third |
| SplitMix.XorOctets | workload/dist.go:119-124 | exclusive or of two words is the machine's, octet by octet |
| Selectors.MulHighInterval | workload/dist.go:39-43 | the reduction is monotone, in range, and gives index i one interval of hashes |
| Selectors.UniformShare | workload/dist.go:35-44 | over all 2^64 sequence numbers every index is drawn floor or ceil of 2^64 / n times |
| Selectors.UniformInRange | workload/dist.go:35-44 | an index is always inside the space, degenerate sizes included |
| Zipf.Table.constructor | workload/dist.go:60-75 | the table holds the cumulative weights |
| Zipf.Table.Index | workload/dist.go:77-86 | the binary search finds the least rank reaching u * total for u up to 1, and clamps only above |
| Zipf.RankUnique | workload/dist.go:77-86 | that rank is unique |
| Zipf.RankInterval | workload/dist.go:77-86 | a rank owns one interval of draws, as long as its share of the weight |
| Zipf.HeadIsHeavier | workload/dist.go:46-75 | with weights that never grow earlier ranks never own shorter intervals |
| Zipf.RankShare | workload/dist.go:93-107 | over all 2^64 sequence numbers a connection draws each rank in proportion to its weight, to within 2048 draws |
| Tracker.RankOfTail | workload/track.go:62-66 | the register is the top 14 bits of the hash; the rank is 51 if and only if the other 50 bits are zero, and otherwise their highest set bit is bit 50 - rank |
| Tracker.StepInv | workload/track.go:53-74 | one atomic step of any thread keeps memory sound and every index covered or outstanding |
| Tracker.FinalMemory | workload/track.go:53-74 | from a new tracker, any threads with any lists under any schedule, once done: the bitmap is the set observed and each register the largest rank in it |
| Tracker.FinalMemoryAgrees | workload/track.go:53-74 | two such runs over the same set of indices end with the same bits and the same registers |
| Tracker.TrackerCounts | workload/track.go:76-89 | set bits never outnumber draws, draws count every Observe, and the bitmap estimate is exact |
| Tracker.WaitFree | workload/track.go:67-72 | from every reachable state and under any interleaving, the Observe a thread is in ends within 105 of that thread's steps |
| Tracker.RetriesBounded | workload/track.go:67-72 | in every reachable state a swap has been retried no more often than the index's rank, at most 51 times |
| Tracker.SharedTracker.constructor | workload/track.go:37-50 | a fresh bitmap or register file of the right size |
| Tracker.SharedTracker.Observe | workload/track.go:52-74 | under any growth by other threads the index ends up covered and memory only grows |
| Tracker.SharedTracker.EstimateExact | workload/track.go:81-89 | the bitmap estimate is the number of set bits |
| Tracker.SharedTracker.Reset | workload/track.go:110-122 | the tracker is as new |
| Names.MemberIsNotRefill | workload/collection.go:37-50 | no preloaded member carries a refill name |
| Names.RefillNameInjective | workload/collection.go:41-50 | a refill name belongs to one connection and one sequence number |
| Names.NameExamples | workload/collection.go:37-50 | member 12 is m12, and connection 3 at sequence number 4 adds mu3-4 |
| Churn.SremRunInv | workload/set.go:105-120 | the exact membership after any interleaving from any starting set |
| Churn.SremAlwaysHits | workload/set.go:97-120 | every SREM finds its member, also after a restart of the sequence numbers |
| Churn.SremPopulation | workload/set.go:97-120 | population = start + connections whose next sequence number is odd, from a set without refill names |
| Churn.SpopNeverNil | workload/set.go:160-184 | SPOP never meets an empty set, from any starting set, whichever members are drawn |
| Churn.PopulationHeldIff | workload/collection.go:52-70 | for SREM and for SPOP, the population law holds on all schedules if and only if no name to be added is in the set |
| Queues.LpopSustained | workload/range.go:385-410 | LPOP's list keeps its length, is never empty when popped, and is first in first out |
| Queues.XReadGroupSustained | workload/stream_spread.go:64-71 | each stream keeps its depth plus the reads owed, so no read is nil |
| Preloads.SetAfterIsBand | workload/set.go:28-35 | the set preload builds m0 up to the last command sent |
| Preloads.SremFromPreload | workload/set.go:105-120 | the population law of SREM from its own preload |
| Preloads.SpopFromPreload | workload/set.go:169-184 | the population law of SPOP from its own preload |
| Preloads.RestartBreaks | load/runner.go:157-164 | one warmup command voids the law of either probe for the measured drive |
| Preloads.AlgebraPreload | workload/range.go:204-212 | sizes, overlap, difference and union of the two sets as the preload leaves them |
| Preloads.SpreadPreload | workload/stream_spread.go:45-60 | the spread preload is whole batches, gives every stream its group and its depth, and the probe keeps each stream there |
| Preloads.XReadGroupFromPreload | workload/stream.go:118-135 | the single stream starts with at least the planned entries and keeps them |
| Corpus.Emit | scenarios/sqlo1-g3/gen.py:85-124 | the emission loops write the commands of each entry, every entry in load and the even ones in churn |
| Corpus.RootGroups | scenarios/sqlo1-g3/gen.py:85-124 | the prefix of each suite's roots, and that a root holds 1, 16 or 100 entries in a row |
| Corpus.CellsApart | scenarios/sqlo1-g3/gen.py:85-124 | different entries never share a key, field or position, at any count, nor a member when the hashes in use do not collide within a set |
| Corpus.LoadThenChurn | scenarios/sqlo1-g3/gen.py:85-124 | load then churn leaves exactly n live entries and misses no SREM or LSET if and only if no two entries ever share a cell, which only hash collisions can bring about; even entries are then replaced and odd ones kept |
| Corpus.CollisionExample | scenarios/sqlo1-g3/gen.py:97-105 | two entries with one hash break the count or a removal |
| Corpus.StreamCountRanges | scenarios/sqlo1-g3/gen.py:130-131 | one stream below 200 entries, one for each whole hundred up to 10000, 100 from there on |
| Corpus.StreamLoad | scenarios/sqlo1-g3/gen.py:126-140 | the load deals the entries out to streams of equal length, with accepted ids |
| Corpus.StreamChurn | scenarios/sqlo1-g3/gen.py:141-152 | churn appends half as many and trims each stream back to its newest entries |
| Corpus.StreamLiveEntries | scenarios/sqlo1-g3/gen.py:126-152 | what load and churn leave in the streams is streams * (n div streams) entries, n if and only if streams divides n |
| Corpus.StreamShortfallExample | scenarios/sqlo1-g3/gen.py:126-152 | 201 requested entries leave 200 |
| Coverage.Result.Classify | load/coverage.go:110-136 | one reply goes into the one bin its content calls for |
| Coverage.BinOfReply | load/coverage.go:110-136 | a reply is retrievable if and only if it is a bulk of the written length holding nothing but the fill byte, missing if and only if null, of wrong length if and only if a bulk of another length |
| Coverage.BinsPartition | load/coverage.go:28-38 | the four bins split the replies |
| Coverage.ProbeRetrievability | load/coverage.go:61-108 | without a failure one GET of a key of the keyspace went out for each of min(sample, keyspace) samples and each reply is in its bin; after one, which takes a failed write or a missing reply, the bins hold what was read |

## Left out

- Dialling, deadlines, timers and goroutine scheduling, process launch and the `target` package: replaced by the environment described above.
- Report tables, CPU sets, INFO parsing, the smoke check and the shell scenarios: straight-line parsing and printing.
- `Mean`, per-second rates, `HitRatio` and the HyperLogLog estimator formula: floating-point reporting on top of the registers and counts modelled here.
- Rounding in `math.Log2`, `math.Pow`, the Zipf table and `hash01`: reals and integer logarithms instead.
- Resp.ReadValue: does not model allocation of huge lengths, and takes a negative map length as a failure where the code would panic while allocating.
- Histograms.Histogram.RecordValue: counts are unbounded integers, so an overflow of 2^63 samples in one slot is not modelled.
- Histograms.Histogram.Merge: between different layouts that happen to have equally long counts arrays only the arithmetic is stated, since the merged counts then stand for no bag of samples.
- Drive.DriveClosed: has the shared tallies to itself; `RunMachine` has them under interleaving.
- Run.Warm: a connection that fails its warm drive leaves its streams in no known state, and the model stops there, where the code drives the other connections on and this one again; of a run in which a drive failed `MeasuredBytes` says only why.
- RunMachine.ReachableInv: connections are values with atomic steps; frames and bytes belong to `Drive`.
- Tracker.SharedTracker.Observe: interference is any growth of the shared memory; the exact final memory is proved on the step machine.
- Corpus.StreamLoad: streams are numbered, not named, and entries carry their ids only.
- Coverage.ProbeRetrievability: the sampled indices are arbitrary indices of the keyspace, and after a failure it is not said which were asked for; the random source is not modelled.
- Plans not named above, and the flat generators: the same shapes again.
