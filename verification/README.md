# Tealis, modelled and proved in Dafny

Tealis is a Redis-like in-memory store in which almost every data type is a small hand-written
mutable algorithm. This project models those algorithms and proves what they promise, or exactly
when they keep a promise. `dafny verify dfyconfig.toml` checks all of it.

How it is organised:

- **Sorted sets** (`Order`, `Sequences`, `Towers`, `SortedSet`, `SkipListLaws`). `SortedSet.dfy` is the
  heap-linked skip list: node objects with forward slots, the descending search, the splicing and
  unlinking loops. Its state is tied to one ghost sequence of towers (key, score, height), from which
  the pure function `Towers.Next` determines every link. `Towers.dfy` and `SkipListLaws.dfy` prove
  what holds over every run and every choice of tower heights.
- **Transactions** (`Results`, `Text`, `Keys`, `Transactions`, `TransactionLaws`, `CommandLaws`, `Server`). `Transactions.dfy` is
  ProcessCommand and EXEC as mutually recursive functions; `Server.dfy` is the object that changes
  its maps in place and is proved to compute them. The clock is any function giving successive
  readings, and every command case not written out is an arbitrary function of data and parts.
  `CommandLaws.dfy` says what clients are answered, command after command.
- **Expiry** (`Expiry`). A simulation between a store that is swept and one that is not.
- **Time series** (`DownSampling`, `DownSamplingLaws`, `Series`). The one-pass grouping, its exact
  condition, what it conserves, and independence from insertion order.
- **Bits** (`Powers`, `Bits`, `BitOps`, `Bitmaps`). SETBIT, BITCOUNT and BITOP over shared heap arrays, and BITFIELD's
  unaligned fields in the opposite bit order.
- **HyperLogLog registers** (`Sketch`, `HyperLogLog`). The sketch as a function of the set of members, for
  any hash function.
- **Streams** (`StreamSpec`, `Streams`) and **publish/subscribe** (`PubSub`). Conservation and order over
  every run, as object invariants.
- **Protocol** (`Protocol`). The tokeniser and the array encoder, each with its inverse.

Some expected properties are false of the code. The model keeps the code as it is, and a lemma says
exactly when the property holds:

- ZREM and ZRANK search by key a list ordered by score. `FindsIff` gives the exact condition under
  which they find an entry with the key whatever the heights, `FoundIffSeparates` the one under which
  it is the first such entry, and `RemMisses` a set, two ZADDs away from the empty one, where ZREM
  misses its first entry although no earlier key is in the way. A rank is the number of links
  followed, not the documented position: `RankIsIndexIff`.
- ZADD gives a stored member a new score only when its entry stands right at the new pair's place, else
  it adds a second entry: `AddedContents`, `ScoreMoves`.
- A queued command is split again when EXEC runs it: `RequeueFaithfulIff`. The transaction flag is
  shared by all clients, so any client's DISCARD ends the gate for all: `GateSurvivesIff`,
  `DiscardByAnother`.
- Commands that do not look at a key's expiry tell whether it was swept: `SweepSeenByOthers`.
- Down-sampling takes the zero time for "no bucket open", and compares bucket starts together with
  their locations: `GroupsIff`, `ZeroBucketMerges`, `TwoZonesSplit`. The order of insertion can show
  when tied points differ in location: `OrderIrrelevant`, `TiesShow`. What every series keeps, grouped
  as promised or not, is in `OutputsPartition`, `AveragesAlwaysConserve` and `MinOfMins`.
- BITOP works in the first source's own slice until a longer source comes, and the destination then
  shares that slice unless one came. The contract of `Bitmaps.Store.BITOP` gives the bytes it leaves
  in both, and `FirstKeptIff` says when the first source is left as it was. XOR clears that slice
  whenever it reads it: `XorIff`, and `XorIffUnshared` when no key repeats the first one's slice. A
  later write under one of two keys sharing a slice shows under the other while it fits in place:
  the contracts of `Bitmaps.Store.SETBIT` and `SetBitfieldValue`, and `WriteAfterBitop`.
- Stream ids are compared as strings: `PagesIff`, `NumericIdsMissed`.

## Model

| member | source | states |
|---|---|---|
| Order.LessTransitive | internal/storage/zset.go:62 | the string order of the key comparisons is transitive |
| Order.LessTotal | internal/storage/zset.go:62 | of two different keys one is smaller |
| Order.LessIff | internal/storage/zset.go:62 | the order is byte-wise from the left, a proper prefix first |
| Towers.Next | internal/storage/zset.go:61-66 | the link of an element at a level leads to the next element that reaches the level, with none in between |
| Towers.NextInsertBefore | internal/storage/zset.go:83-86 | after a splice an element before the new node points at it exactly on the rows where its successor lay at or past the place; all other links keep their target |
| Towers.NextInsertAt | internal/storage/zset.go:84 | the new node takes over its predecessor's successor on each of its rows |
| Towers.NextDropBefore | internal/storage/zset.go:148-153 | after an unlinking what pointed at the node points at the node's successor, and nothing else moves |
| Towers.BracketWalk | internal/storage/zset.go:136-141 | going on at a lower level never overtakes a successor already rejected at a higher one |
| Towers.DescentBrackets | internal/storage/zset.go:61-66 | the recorded predecessor at every level reaches that level and brackets the final position with its successor there |
| Towers.DescentIs | internal/storage/zset.go:61-66 | the recorded stops are those of the level-by-level descent, and it ends at the last one |
| Towers.DescentFindsPlace | internal/storage/zset.go:57-68 | in a sorted list ZAdd's search ends immediately before the place of (score, key) |
| Towers.StopsStraddle | internal/storage/zset.go:76-86 | with the header standing in above the old level, the recorded predecessors are the right ones on every row of a new node of any height |
| Towers.StopsAim | internal/storage/zset.go:148-153 | ZRem's recorded predecessor points at the found node exactly on the rows its tower reaches, so the loop stops where the tower ends |
| Towers.AddedSorted | internal/storage/zset.go:53-88 | inserting, or lowering the score of the entry found at the place, keeps strict order on (score, key) |
| Towers.PlaceSplits | internal/storage/zset.go:62 | in a sorted list everything from the place on is after (score, key), or is that pair |
| Towers.SortedMeans | internal/storage/zset.go:62 | sorted means by score, equal scores by key |
| Towers.AddedContents | internal/storage/zset.go:53-88 | ZAdd on a sorted list: the pair is in it with its new score, all else is kept, and only an entry with the key standing right after all entries before the pair gives way |
| Towers.AddTowerEntries | internal/storage/zset.go:68-88 | the entries after ZAdd depend on the old entries and (score, key) only, not on the height |
| Towers.AddTowerFacts | internal/storage/zset.go:53-88 | ZAdd keeps legal heights, strict order and the meaning of the level field |
| Towers.LevelUnique | internal/storage/zset.go:156-158 | the heights determine the level field |
| Towers.WithinNone | internal/storage/zset.go:174-177 | in a sorted list no entry in the score range follows one above it |
| Towers.WithinIs | internal/storage/zset.go:163-179 | the entries kept are exactly those with min <= score <= max, as often as they occur |
| Towers.WithinSorted | internal/storage/zset.go:163-179 | and they stay in order |
| Towers.SliceIs | internal/storage/zset.go:90-109 | ZRANGE by index: the keys from start to end or to the last, none for bad bounds |
| Towers.ScoreMoves | internal/storage/zset.go:68-72 | a lower score replaces that of a lone member, with a higher one the member is there twice |
| SkipList.SlotsBefore | internal/storage/zset.go:83-86 | the slots of a node before the new one: redirected to it on its straddled rows, otherwise unchanged |
| SkipList.SlotsDropBefore | internal/storage/zset.go:148-153 | the slots of a node before the removed one: redirected to its successor on the straddled rows, otherwise unchanged |
| SkipList.SortedSet.constructor | internal/storage/zset.go:28-34 | a new set is valid and empty: the header alone, from which every run starts |
| SkipList.SortedSet.RandomLevel | internal/storage/zset.go:45-51 | any height from 1 to 16 |
| SkipList.SortedSet.WalkRow | internal/storage/zset.go:62-64 | the inner search loop follows the links of one level up to the first node that does not precede the goal |
| SkipList.SortedSet.Descend | internal/storage/zset.go:57-66 | the search leaves the update list, the final node and the number of links followed of the pure descent |
| SkipList.SortedSet.RedirectTo | internal/storage/zset.go:83-86 | the splicing loop rewrites exactly the slots on the new node's rows and copies the old ones into it |
| SkipList.SortedSet.SpliceIn | internal/storage/zset.go:82-87 | the node enters the bottom row at its place and every slot of every tower is again the right one |
| SkipList.SortedSet.ZAdd | internal/storage/zset.go:53-88 | all invariants are kept; the pair is stored with its score, the other entries stay, an entry with the key right at the pair's place gives way, and the height shows nowhere |
| SkipList.SortedSet.Redirect | internal/storage/zset.go:148-153 | the unlinking loop, with its early break, redirects the target's predecessors on all rows of its tower and no other slot |
| SkipList.SortedSet.Lower | internal/storage/zset.go:156-158 | the level drops to the least bound, at least 1, on the remaining heights |
| SkipList.SortedSet.ZRem | internal/storage/zset.go:130-161 | all invariants are kept; the found node is gone from every row or, with false, nothing changed |
| SkipList.SortedSet.ZRank | internal/storage/zset.go:111-128 | the number of links the search followed, -1 when it does not end at the key |
| SkipList.SortedSet.ZRange | internal/storage/zset.go:90-109 | the keys of the slice of the contents, clipped to the length; none for bad bounds |
| SkipList.SortedSet.ZRangeByScore | internal/storage/zset.go:163-179 | exactly the keys of the entries with min <= score <= max, in order |
| SkipListLaws.RunOk | internal/storage/zset.go:53-161 | every run of ZAdd and ZRem, with any heights, keeps strict order and legal heights |
| SkipListLaws.HeightsInvisible | internal/storage/zset.go:45-88 | runs of ZAdds that differ in heights only end with the same entries, so ZRange and ZRangeByScore agree |
| SkipListLaws.ChainIsRow | internal/storage/zset.go:61-66 | the chain of links at a level ends, and visits exactly the elements that reach the level, in bottom order |
| SkipListLaws.RowsNest | internal/storage/zset.go:83-86 | each level is a subsequence of the level below |
| SkipListLaws.ChainsSorted | internal/storage/zset.go:53-161 | in every reachable set the chain of every level is strictly sorted by (score, key) |
| SkipListLaws.LevelIsLeast | internal/storage/zset.go:156-158 | level is the least bound, at least 1, from which on the header has no successor |
| SkipListLaws.RemEntries | internal/storage/zset.go:143-160 | a successful ZRem takes out exactly one entry with the key and keeps the rest in order; otherwise nothing changes |
| SkipListLaws.FoundIsBoundary | internal/storage/zset.go:134-141 | every by-key search ends at a boundary: after a smaller key or at the start, before a key that is not smaller or at the end |
| SkipListLaws.BoundaryIsFound | internal/storage/zset.go:134-141 | every boundary is where the search ends for some choice of heights |
| SkipListLaws.FindsIff | internal/storage/zset.go:134-146 | ZREM removes an entry with the key, and ZRANK answers a rank, at every choice of heights iff the key stands at every boundary |
| SkipListLaws.FoundIffSeparates | internal/storage/zset.go:134-146 | the by-key search ends at the first occurrence of a member at every choice of heights iff all keys before it are smaller and no key after it is |
| SkipListLaws.RemMisses | internal/storage/zset.go:134-146 | a sorted set reached by two ZAdds in which ZRem of the first entry finds nothing |
| SkipListLaws.RankBounds | internal/storage/zset.go:115-126 | a rank never exceeds the index of the entry found, is 0 only for index 0, and is the index on a single level |
| SkipListLaws.RankIsIndexIff | internal/storage/zset.go:115-126 | the rank of a member is the index of its first occurrence at every choice of heights iff all keys before it are smaller, no key after it is, and the index is 0 or 1 |
| Text.FieldsOfJoinIff | internal/storage/tealis.go:99 | joining parts with blanks and splitting again gives them back iff every part is a non-empty word |
| Text.FieldsSplit | internal/storage/tealis.go:99 | splitting is at each of the six ASCII spaces: two texts with one between them split on their own |
| Text.FieldsOfWord | internal/storage/tealis.go:99 | and nowhere else |
| Text.JoinLast | internal/storage/tealis.go:107 | any separator stands once between neighbours |
| Text.UpperAt | internal/storage/handler.go:20 | small letters become capitals, nothing else changes |
| Text.WrapIs | internal/storage/string.go:104 | the one number of the int64 range that is off by a multiple of 2^64 |
| Text.ValueOfLast | internal/storage/string.go:100 | base ten, most significant digit first |
| Text.AtoiForms | internal/storage/string.go:100 | digits after an optional sign read as their number if an int64 holds it |
| Text.AtoiRefuses | internal/storage/string.go:100 | nothing else does |
| Text.AtoiOfItoa | internal/storage/string.go:100-106 | a printed number reads back as itself iff an int64 holds it |
| Keys.IncrByAdds | internal/storage/string.go:90-108 | two increments in a row leave the wrapped sum, and the expiries alone |
| Keys.SetThenGet | internal/storage/string.go:12-42 | a value set is read back until its time is up, if it has one, and no other key is touched |
| Keys.GetTwice | internal/storage/string.go:25-42 | a read deletes a key whose time is up, with its expiry, and changes nothing else |
| Keys.DelThenGet | internal/storage/string.go:45-55 | a deleted key reads as missing and leaves no expiry behind |
| Keys.AppendThenGet | internal/storage/string.go:66-76 | the old value followed by the new one is read back, the length returned |
| Keys.SetThenTtl | internal/storage/tealis.go:406-425 | whole seconds of 10^9 nanoseconds left, -1 without a time limit, -2 past it |
| Keys.PersistThenRead | internal/storage/tealis.go:428-444 | the expiry goes and the value stays |
| Keys.IncrByThenGet | internal/storage/string.go:90-108 | the sum with the stored number, or with 0, is returned and read back; a value that is no number is refused and kept |
| Keys.PurgeStep | internal/storage/tealis.go:128-133 | handling one more key of a sweep deletes it from both maps iff its time is up |
| Transactions.Process | internal/storage/handler.go:15-89 | the gate and dispatch: other clients' queues are untouched, only MULTI creates a queue, commands re-queued during EXEC can never be headed by EXEC, the flag stays backed by a queue, EXEC nests at most two deep, and the recursion ends for every queue |
| Transactions.Exec | internal/storage/tealis.go:75-108 | EXEC removes the client's queue, which is back only if a command of it splits into MULTI, and then never headed by EXEC; other queues stay; it nests once if the queue has no EXEC, else at most twice |
| Transactions.RunQueue | internal/storage/tealis.go:98-105 | one reply per queued command, with the invariants of the gate kept throughout |
| TransactionLaws.GateQueues | internal/storage/handler.go:22-24 | while the flag is up a command is queued for a client with a queue and changes nothing for the others, their EXEC included |
| TransactionLaws.OpenTransactionFreezes | internal/storage/handler.go:20-24 | whatever all clients send short of DISCARD and of EXEC by a client with a queue, data and clock stay frozen and the owner's queue grows by exactly its own lines |
| TransactionLaws.GateSurvivesIff | internal/storage/handler.go:20-24 | while no client with a queue sends EXEC, the flag stays up throughout a run iff nobody sends DISCARD |
| TransactionLaws.RunQueueIsDirect | internal/storage/tealis.go:98-105 | running the queued lines is sending the commands one by one, whatever commands of words they are and whether or not the flag is up |
| TransactionLaws.ExecRefinesDirect | internal/storage/tealis.go:68-116 | from MULTI to EXEC with interleaving, no DISCARD and no EXEC by a client with a queue, and commands of words, MULTI included: EXEC leaves data, flag and an open queue as if the owner's commands had been sent directly in order, its reply is their replies joined by CRLF plus CRLF, and other queues stay |
| TransactionLaws.RequeueFaithfulIff | internal/storage/tealis.go:99 | a queued command is run as it was sent iff its parts are words |
| TransactionLaws.NestingReachesTwo | internal/storage/tealis.go:98-105 | a command that passes the gate but splits into one headed by EXEC makes EXEC nest twice |
| TransactionLaws.PaddedExec | internal/storage/handler.go:20-24 | the quoted part " EXEC" is such a command |
| TransactionLaws.DiscardByAnother | internal/storage/tealis.go:111-116 | DISCARD by any client ends the gate for all: the owner's next command runs at once and its queue is left behind |
| CommandLaws.SetGetReplies | internal/storage/handler.go:43-69 | after SET, answered +OK, GET answers the length and the bytes of the value |
| CommandLaws.SetExGetReplies | internal/storage/handler.go:43-69 | with EX n it does so for n seconds by the clock, then none |
| CommandLaws.DelReplies | internal/storage/handler.go:71-89 | DEL and EXISTS answer 1 or 0 by whether the key is stored, and after DEL nothing is there |
| CommandLaws.AppendReplies | internal/storage/handler.go:159-165 | the new length, and GET answers the concatenation |
| CommandLaws.TtlReplies | internal/storage/handler.go:109-121 | the printed seconds; PERSIST answers whether it took an expiry away, after which TTL is -1 |
| CommandLaws.CounterReplies | internal/storage/handler.go:175-222 | INCR adds 1, DECR takes 1, INCRBY and DECRBY add and take their number; the result is answered and read back |
| CommandLaws.ArgumentErrors | internal/storage/handler.go:43-222 | a command with too few parts changes nothing and answers its complaint |
| CommandLaws.NumberErrors | internal/storage/handler.go:43-222 | a number that is none is complained about |
| CommandLaws.GateReplies | internal/storage/handler.go:15-41 | the replies of the gate, MULTI, DISCARD and EXEC without a queue |
| CommandLaws.ExecOfTwo | internal/storage/tealis.go:75-108 | a transaction of SET and GET of a key answers +OK and the value, each line ended |
| Server.Tealis.MULTI | internal/storage/tealis.go:68-73 | a fresh queue for the client and the flag raised, replacing any old queue |
| Server.Tealis.DISCARD | internal/storage/tealis.go:111-116 | the client's queue gone and the flag down |
| Server.Tealis.APPENDTO | internal/storage/tealis.go:389-403 | the command joins the client's queue, or an error and no change |
| Server.Tealis.SET | internal/storage/string.go:12-22 | value stored, expiry set for a positive ttl and removed otherwise |
| Server.Tealis.GET | internal/storage/string.go:25-42 | the value, or none; a key whose time is up is deleted by the read |
| Server.Tealis.DEL | internal/storage/string.go:45-55 | the key gone from both maps iff it was stored |
| Server.Tealis.APPEND | internal/storage/string.go:66-76 | value extended or created, and the new length |
| Server.Tealis.INCRBY | internal/storage/string.go:90-108 | wrapped sum stored as decimal text; no change when the value is no number |
| Server.Tealis.TTL | internal/storage/tealis.go:406-425 | whole seconds left, -1 without expiry, -2 when missing or past |
| Server.Tealis.PERSIST | internal/storage/tealis.go:428-444 | the expiry of a stored key removed, and whether there was one |
| Server.Tealis.Sweep | internal/storage/tealis.go:126-133 | one sweep, in any key order, deletes exactly the keys whose time is up |
| Server.Tealis.ProcessCommand | internal/storage/handler.go:15-89 | the object's state and the reply after any command are those of the recursive functions |
| Server.Tealis.RunCommand | internal/storage/handler.go:43-225 | the string-key cases of the switch, argument errors included |
| Server.Tealis.RunCounter | internal/storage/handler.go:175-222 | the counter commands and their argument errors |
| Server.Tealis.EXEC | internal/storage/tealis.go:75-108 | the loop over the copied queue computes the state, the joined reply and the nesting of the recursive function |
| Expiry.SimulatesRespond | internal/storage/string.go:12-42 | Set, Get and TTL answer the same on a swept and an unswept store and keep them related |
| Expiry.SimulatesSweep | internal/storage/tealis.go:126-133 | a sweep keeps the relation |
| Expiry.SweepsChangeNothing | internal/storage/tealis.go:119-138 | on a non-decreasing clock, sweeps at any points of a run of Set, Get and TTL change no response |
| Expiry.SweepSeenByOthers | internal/storage/string.go:45-108 | EXISTS, DEL and PERSIST answer alike before and after a sweep iff the key is not stored with its time up; APPEND also when such a key is empty, INCRBY also when it reads as 0 |
| DownSampling.TruncateMonotone | internal/storage/timeSeries.go:137 | truncation to a bucket start keeps the order of times, for any interval |
| DownSampling.TruncateLaw | internal/storage/timeSeries.go:137 | the multiple of the interval at or below the time and less than an interval away |
| DownSampling.GroupsOpen | internal/storage/timeSeries.go:144-149 | a point of a later bucket opens a new group and leaves the others alone |
| DownSampling.GroupsJoin | internal/storage/timeSeries.go:142-143 | groups of a prefix become groups of it and a point of the last bucket when the point's value joins the last output |
| DownSampling.PassTracks | internal/storage/timeSeries.go:131-151 | the loop variables over a sorted prefix, location of the open start included, are the groups of the prefix, the last one open, unless the zero time or a second location interferes |
| DownSampling.MergedIsMissing | internal/storage/timeSeries.go:138-140 | a bucket starting at the zero time and followed by another has no output of its own |
| DownSampling.SplitIsRepeated | internal/storage/timeSeries.go:142-149 | a bucket away from the zero time with points of two locations comes out under two equal starts |
| DownSampling.GroupsIff | internal/storage/timeSeries.go:131-159 | sorted points are grouped as promised (increasing starts, every point covered, each output the aggregate of exactly its bucket, in the location of one of its points) iff no zero-time bucket is followed by another and no other bucket holds points of two locations |
| DownSampling.ZeroBucketMerges | internal/storage/timeSeries.go:138-140 | a failing series: a point in the zero-time bucket and one in a later bucket come out as one group under the later start |
| DownSampling.TwoZonesSplit | internal/storage/timeSeries.go:142-149 | another: two points of one bucket, one in local time and one in UTC, come out as two groups with the same start |
| DownSampling.TsMin | internal/storage/timeSeries.go:180-191 | one of the values, with none below it |
| DownSampling.TsMax | internal/storage/timeSeries.go:193-204 | one of the values, with none above it |
| DownSampling.Aggregate | internal/storage/timeSeries.go:163-178 | one of the values with none below it for min, with none above it for max, the number whose multiple by the count is the sum for avg, 0 for another method; of no values NaN for avg and 0 otherwise |
| DownSampling.SumConcat | internal/storage/timeSeries.go:166-169 | sums add over concatenation |
| DownSampling.SumOfOne | internal/storage/timeSeries.go:166-169 | and one value is its own sum |
| DownSamplingLaws.Partition | internal/storage/timeSeries.go:135-157 | no point is lost or counted twice: counts and sums of the groups add up to those of the range |
| DownSamplingLaws.AveragesConserveSum | internal/storage/timeSeries.go:165-170 | when the points are grouped as promised, averages weighted by bucket sizes add up to the sum over the range |
| DownSamplingLaws.OutputsPartition | internal/storage/timeSeries.go:135-157 | for every series the outputs are the aggregates of consecutive runs of points that together are all the points |
| DownSamplingLaws.AveragesAlwaysConserve | internal/storage/timeSeries.go:165-170 | for every series averages weighted by the sizes of their runs add up to the sum over the range |
| DownSamplingLaws.MinOfMins | internal/storage/timeSeries.go:171-172 | for every series the least of the minima is the least of the range |
| DownSamplingLaws.MaxOfMaxes | internal/storage/timeSeries.go:173-174 | for every series the greatest of the maxima is the greatest of the range |
| DownSamplingLaws.GroupsUnique | internal/storage/timeSeries.go:131-159 | groups of the same points in two orders have the same starts and values, and the same location wherever a bucket has one |
| DownSamplingLaws.OrderIrrelevant | internal/storage/timeSeries.go:59-64 | series holding the same points, however added and however ties were sorted, down-sample alike if tied points are of one location; ties in the zero-time bucket can show only in the location of its output |
| DownSamplingLaws.TiesShow | internal/storage/timeSeries.go:142-149 | tied points of two locations come out as three groups in one order and two in another |
| Series.SortByTime | internal/storage/timeSeries.go:62-64 | a permutation sorted by time |
| Series.TimeSeries.TSAdd | internal/storage/timeSeries.go:49-68 | the point joins the others and the points stay sorted |
| Series.TimeSeries.TSRange | internal/storage/timeSeries.go:71-92 | the points strictly between start and end, in order |
| Series.TimeSeries.TSGet | internal/storage/timeSeries.go:95-114 | a stored point no other is later than, or an error iff there is none |
| Series.TimeSeries.DownSample | internal/storage/timeSeries.go:117-160 | the loop, comparing start and location, computes the one-pass grouping of the points in range, which are grouped as promised exactly when neither the zero time nor a second location interferes; then each output is the least, the greatest or the mean of exactly its bucket |
| Bits.PutBit | internal/storage/bitmap.go:33-37 | writing one bit changes that bit only |
| Bits.BitMasks | internal/storage/bitmap.go:33-37 | bit 0 is the least significant one of its byte |
| Bits.SetBitBit | internal/storage/bitmap.go:17-40 | after SETBIT every other offset reads as before, growth included, and the bytes grow only as far as the offset needs |
| Bits.BitCountIsOffsets | internal/storage/bitmap.go:64-74 | the sum of the per-byte counts is the number of offsets at which GETBIT reads 1 |
| Bits.WritesRead | internal/storage/bitmap.go:8-61 | after any run of SETBITs from an absent key GETBIT reads the last write |
| Bits.WritesCount | internal/storage/bitmap.go:8-74 | BITCOUNT is then the number of distinct offsets whose last write was 1 |
| Bits.MirrorTwice | internal/storage/bitfield.go:168-174 | the two bit orders mirror each other within a byte |
| Bits.SetFieldBit | internal/storage/bitfield.go:158-179 | a field write at any offset sets exactly the bits of the field, most significant first, and grows by zeros to the length needed |
| Bits.SetFieldByte | internal/storage/bitfield.go:165-175 | counted from the most significant bit of the first byte, the field holds the bits of the value from the most significant one down |
| Bits.ShiftBetween | internal/storage/bitfield.go:167 | shifting right divides by a power of two, rounding down |
| Bits.SetThenGet | internal/storage/bitfield.go:158-224 | writing an i8 or u16 in range and reading it back gives the value, for every offset |
| Bits.OtherFieldKept | internal/storage/bitfield.go:165-175 | a field that does not overlap reads as before |
| Bits.IncrementsAdd | internal/storage/bitfield.go:76-109 | after any run of increments a field reads as a counter that refuses to leave its range; the increments add up when every partial sum is in range |
| Bitmaps.Store.SETBIT | internal/storage/bitmap.go:8-42 | the bit written and the previous bit returned; the key keeps its slice iff the bit lies within it, else gets a fresh one, and another key's bytes follow iff it holds the slice written in place; no effect for a negative offset |
| Bitmaps.Store.GETBIT | internal/storage/bitmap.go:45-61 | the bit, 0 past the end, for absent keys and negative offsets |
| Bitmaps.Store.BITCOUNT | internal/storage/bitmap.go:64-74 | the number of offsets at which GETBIT reads 1 |
| Bitmaps.Store.CombineInto | internal/storage/bitmap.go:112-128 | the inner loop combines byte by byte even when source and result are one slice, and stops for NOT past the first key and unknown operations |
| Bitmaps.Store.Absorb | internal/storage/bitmap.go:100-128 | one source combined with the accumulator, the shorter extended with zeros in a fresh copy |
| BitOps.AccumulateNext | internal/storage/bitmap.go:94-129 | one more source turns the fold of the sources so far into the fold with it |
| BitOps.BetweenHarmless | internal/storage/bitmap.go:86-129 | reading the first source's slice again after it was written as the accumulator changes no result bit for AND and OR |
| BitOps.RunAccumulates | internal/storage/bitmap.go:94-129 | the run of BITOP over shared slices is the bitwise fold of the sources' old contents for AND, OR and NOT, and for XOR without repeats |
| BitOps.FirstIsLead | internal/storage/bitmap.go:101-105 | the first source's slice is left as the accumulator was when the first longer source came |
| BitOps.FirstKeptIff | internal/storage/bitmap.go:86-129 | BITOP leaves its first source as it was iff, among the sources before the first longer one, AND finds all its bits, OR no other bits, XOR exactly its bits in those after it was last cleared, and NOT no bytes |
| BitOps.FailsIff | internal/storage/bitmap.go:82-127 | no turn panics iff every source is there and no unknown operation or NOT of several keys has a byte to work on |
| Bitmaps.Store.CombineAll | internal/storage/bitmap.go:94-129 | the outer loop computes the run over the sources' old contents and sharing, up to its end or the first failing turn |
| Bitmaps.Store.BITOP | internal/storage/bitmap.go:77-133 | the destination and the first source's slice hold what the run over the sources' old contents and sharing gives, for every operation, repeated keys included; after a panic the first slice holds what the turns before the first failing one made of it and no key changes; when the destination shares the first slice, and when unshared slices stay unshared; exactly when it panics; AND, OR and NOT are the bitwise fold of the old contents, zero-padded to the longest |
| Bitmaps.WriteAfterBitop | internal/storage/bitmap.go:8-133 | after BITOP a SETBIT under the destination shows under the first source iff no source was longer and the bit lies within the slice |
| Bitmaps.XorOfTwoBits | internal/storage/bitmap.go:8-133 | from an empty store, BITOP XOR of two bitmaps of one bit each leaves the second one only |
| BitOps.XorBits | internal/storage/bitmap.go:86-119 | what BITOP XOR leaves at every offset, under the destination and in the first source's slice, with any sharing and lengths |
| BitOps.XorIff | internal/storage/bitmap.go:86-119 | BITOP XOR is the XOR of all sources iff the sources up to the last that cleared the first slice cancel out with what is reread from it later |
| BitOps.XorIffUnshared | internal/storage/bitmap.go:86-119 | when no later source shares the first slice, it is the XOR of all iff the first has no bit set |
| BitOps.XorRepeats | internal/storage/bitmap.go:86-119 | over a, b, a with a zero at an offset, the bit of b is lost there |
| BitOps.XorTwice | internal/storage/bitmap.go:86-119 | over a, a it is the XOR of all whatever a holds |
| BitOps.NotCount | internal/storage/bitmap.go:120-124 | NOT leaves 8 times the length minus the old bit count |
| Bitmaps.Store.WriteBits | internal/storage/bitfield.go:165-175 | the loop writes the field bit by bit |
| Bitmaps.Store.SetBitfieldValue | internal/storage/bitfield.go:158-179 | the field written in place iff it lies within the slice, else in a fresh grown copy stored under the key; another key's bytes follow iff it holds the slice written in place |
| Bitmaps.Store.GetBitfieldValue | internal/storage/bitfield.go:182-224 | the field's value, sign-extended for 8 bits; an error iff it does not lie within the bytes or has no valid width |
| Bitmaps.Store.SetBitfield | internal/storage/bitfield.go:10-52 | succeeds iff type and value fit, else the bytes stay; an absent key is created either way; when the key keeps its slice and which other keys follow |
| Bitmaps.FitsRanges | internal/storage/bitfield.go:24-51 | i8 takes -128 to 127, u16 takes 0 to 65535, other types nothing |
| Bitmaps.Store.SetTyped | internal/storage/bitfield.go:24-51 | the cases of the field type, with the same promises for a present key |
| Bitmaps.Store.GetBitfield | internal/storage/bitfield.go:55-73 | the field's value, or an error for a missing key, another type or a field past the end |
| Bitmaps.Store.IncrByBitfield | internal/storage/bitfield.go:76-109 | succeeds iff the field exists and the sum fits, then stores and reads as the sum in the slice the key holds, seen by every key that holds it; a failure changes nothing |
| Sketch.RankRange | internal/storage/hyperloglog.go:44-45 | a rank at precision p lies between 64 - p and 65 |
| Sketch.RankLaw | internal/storage/hyperloglog.go:44-45 | 65 when none of the upper p + 1 bits is set, else one more than the zeros above the highest of them in 64 bits |
| Sketch.IndexLaw | internal/storage/hyperloglog.go:41 | the register is the low p bits of the hash |
| Sketch.ShiftDivides | internal/storage/hyperloglog.go:44 | the logical shift divides by a power of two |
| Sketch.AddedIsSketch | internal/storage/hyperloglog.go:34-51 | adding a member to the sketch of a set gives the sketch of the set with the member |
| Sketch.MergedIsSketch | internal/storage/hyperloglog.go:84-94 | merging sketches of two sets gives the sketch of their union |
| Sketch.SketchUnique | internal/storage/hyperloglog.go:48-50 | a set of members has one sketch |
| Sketch.HistoryIsSketch | internal/storage/hyperloglog.go:34-94 | after any tree of additions and merges each register is the greatest rank among the members that hash to it |
| Sketch.SameMembersSameRegisters | internal/storage/hyperloglog.go:34-94 | order, repetition and merging leave no trace: equal member sets, equal registers |
| Sketch.RegisterRange | internal/storage/hyperloglog.go:44-50 | a register that is not 0 lies between 64 - p and 65 |
| Sketch.MergedAllIsSketch | internal/storage/hyperloglog.go:132-146 | merging the sketches of several sets gives the sketch of their union |
| HyperLogLogs.HyperLogLog.constructor | internal/storage/hyperloglog.go:19-31 | 2 to the precision registers, all 0 |
| HyperLogLogs.HyperLogLog.Add | internal/storage/hyperloglog.go:34-51 | the member's register raised to its rank, the others unchanged |
| HyperLogLogs.HyperLogLog.Merge | internal/storage/hyperloglog.go:84-94 | every register the maximum of the two |
| HyperLogLogs.Store.PFAdd | internal/storage/hyperloglog.go:96-113 | the member added to the key's sketch, or to a new one at precision 14; the error cases |
| HyperLogLogs.Store.PFMerge | internal/storage/hyperloglog.go:128-150 | a fresh sketch merging all sources, which stay as they were; nothing stored on an error; a nil sketch without sources |
| StreamSpec.IncreasingPages | internal/storage/stream.go:58-82 | with increasing ids, n entries and then m more from the last id are n + m entries |
| StreamSpec.AfterVisible | internal/storage/stream.go:71-80 | an entry with the empty id is never read: reading from any id sees what follows "" only |
| StreamSpec.PagesIff | internal/storage/stream.go:71-80 | paging works from every start and for all sizes iff the ids that can be read increase strictly as strings |
| StreamSpec.NumericIdsMissed | internal/storage/stream.go:74 | an entry 10-0 is never read after 9-0 |
| StreamSpec.DeliverConsistent | internal/storage/stream.go:166-182 | delivering keeps every pending entry one of the stream, under its own id and on a consumer's list, and grows pending by the newly pending ids |
| StreamSpec.DeliverLists | internal/storage/stream.go:166-182 | the ids join the end of the consumer's list in order, no other list changes |
| StreamSpec.DeliverPending | internal/storage/stream.go:166-182 | pending are the old ids and the delivered ones, each with the last entry delivered under it |
| StreamSpec.BetweenOneMore | internal/storage/stream.go:95-100 | XRANGE keeps an entry exactly when its id lies between the two, both included |
| Streams.Stream.XAdd | internal/storage/stream.go:32-55 | the entry is appended and every group stays settled |
| Streams.Stream.XRead | internal/storage/stream.go:58-82 | the entries after the id, cut at a positive count |
| Streams.Stream.XRange | internal/storage/stream.go:85-104 | the entries with ids from start to end, in order |
| Streams.Stream.XGroupCreate | internal/storage/stream.go:125-146 | a new empty group, or false and no change |
| Streams.Stream.XReadGroup | internal/storage/stream.go:149-184 | exactly what XREAD returns, all of it made pending and put on the consumer's list; deliveries stay acknowledgements plus pending |
| Streams.Stream.XAck | internal/storage/stream.go:187-212 | the ids leave pending, and the count, repeated ids included, is exactly the drop in its size |
| Streams.DeliverPage | internal/storage/stream.go:166-183 | the reading loop returns the page and the group it leaves |
| Streams.Acknowledge | internal/storage/stream.go:204-211 | the acknowledging loop counts the ids still pending at their turn |
| PubSub.OfferFaithful | internal/storage/pubsub.go:55-61 | a publish keeps received plus buffered an in-order part of the published, all of it exactly while no buffer was full |
| PubSub.TakeFaithful | internal/storage/pubsub.go:69 | so does a receive |
| PubSub.DrainedReceivedAll | internal/storage/pubsub.go:69 | a drained subscription has received everything, in order, iff no publish found its buffer full |
| PubSub.WiredJoin | internal/storage/pubsub.go:16-23 | subscribing keeps queues open, unshared and subscribed |
| PubSub.WiredLeave | internal/storage/pubsub.go:33-41 | unsubscribing closes that queue only and leaves no empty channel entry |
| PubSub.Broker.Subscribe | internal/storage/pubsub.go:12-26 | a new open queue for a new subscription, no change for an old one |
| PubSub.Broker.Unsubscribe | internal/storage/pubsub.go:29-43 | the subscription's queue closed and removed, the channel too when it was the last |
| PubSub.Broker.Send | internal/storage/pubsub.go:56-60 | a send goes to an open queue only, and a buffer of 100 drops the message |
| PubSub.Broker.Publish | internal/storage/pubsub.go:46-64 | the message offered once to every subscriber, in any map order, and the number of subscribers returned |
| PubSub.Broker.Receive | internal/storage/pubsub.go:69 | the oldest buffered message, and the end of the loop exactly when the queue is closed and drained |
| Protocol.ParseCommand | internal/protocol/parser.go:9-21 | the scanner returns the trimmed matches of the alternation, left to right |
| Protocol.ParsePrinted | internal/protocol/parser.go:11-20 | blank-separated bare, double-quoted and single-quoted parts parse back to their texts |
| Protocol.PartsOfPrinted | internal/protocol/parser.go:11-20 | one in quotes is a part of its own whatever follows, a bare one when white space or the end follows |
| Protocol.PartsOfBlank | internal/protocol/parser.go:11 | each of the five kinds of white space is skipped |
| Protocol.MatchIs | internal/protocol/parser.go:11 | one match is a double quotation, else a single quotation, else a run up to white space |
| Protocol.TrimIs | internal/protocol/parser.go:17 | trimming takes quotes of both kinds off both ends and nothing else |
| Protocol.BareIff | internal/protocol/parser.go:11-20 | a text sent bare comes back as the one part iff it is non-empty, without white space and without a quote at either end |
| Protocol.QuotedIff | internal/protocol/parser.go:11-20 | a text sent in double quotes comes back iff it has no double quote and no quote at either end |
| Protocol.SingleQuotedIff | internal/protocol/parser.go:11-20 | a text sent in single quotes comes back iff it has no single quote and no quote at either end |
| Protocol.FormatArrayResponse | internal/storage/handler.go:986-994 | the array header followed by the bulk strings in order |
| Protocol.ArrayReadBack | internal/storage/handler.go:986-994 | a length-prefixed reader recovers any list of items, embedded CRLF included, and leaves what follows |

## Left out

- Sockets, HTTP, WebSocket, files, logging, the append-only file, snapshots and the front end: input and output.
- Mutexes and goroutine scheduling: methods are atomic steps, including the lock upgrade inside Get.
- The typed lookup of a key in the shared store (wrong-type errors and panics) for sorted sets, time series, bitmaps and streams: each object is modelled on its own.
- Scores are real numbers: NaN, infinities and rounding are not modelled; nor are those of time-series values, where averages are exact.
- Strings are byte sequences; Unicode white space in Fields and Unicode upper-casing are not modelled.
- SkipList.SortedSet.ZRange: a nil result and an empty one are both the empty sequence.
- SkipList.SortedSet.Descend: the three copies of the search loop are one method, the forward slots of a node, which no other node shares, are a sequence field, and the update array is a local sequence.
- Monotonic clock readings: times are ordered and compared by their wall-clock instants, as Truncate leaves them.
- DownSamplingLaws.OrderIrrelevant: one condition that suffices; whether tied points of two locations show can depend on their values.
- Series.SortByTime: the order of points with equal times is left open, as sort.Slice leaves it.
- Server.Tealis.ProcessCommand: each dispatched command takes one clock reading whether or not it uses it; the commands on other data types, EX, STRLEN, GETRANGE, SETRANGE and KEYS are one arbitrary function of data and parts.
- Server.Tealis.SET: the expiry time is not clipped to the range of Go's time type.
- Bitmaps.Store.SetBitfieldValue: growth always copies; spare capacity that Go's append may share between two slices is not modelled. Offsets are not negative, and sums are not wrapped (a wrapped sum is out of range of every field type, so the same branch is taken).
- HyperLogLogs.HyperLogLog.Merge: unequal register counts, which panic, are excluded; sketches in the store all have precision 14.
- HyperLogLog.Count and the FNV-1a hash: floating-point estimation, and any hash function will do.
- Streams.Stream.XAdd: a generated id is given by the caller; XLEN is the length of the entries.
- PubSub.Broker.Receive: what a client does with a received message, delivery failures and the mock outbox.
- json.go, geo.go, vector.go, lists, hashes and sets.
