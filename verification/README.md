# Verification model of ferric-cache

ferric-cache is a Redis-like server: one command dispatcher over a 64-shard store, with a
write-ahead log, snapshots, replication, WATCH/MULTI/EXEC transactions, the RESP protocol and a
consistent-hash ring. This project models that core in Dafny and proves what it promises across
whole runs, whole files and arbitrary byte streams.

| file | what it models |
|---|---|
| `Primitives.dfy`, `Utf8.dfy` | decimal and big-endian numerals, lossy UTF-8 and its code points |
| `Resp.dfy`, `Framing.dfy`, `RespGrammar.dfy`, `CommandCodec.dfy` | RESP parser and printer, the drain loop, hand-built replies, the grammar of frames, GET/SET/DEL on the wire |
| `SortedSets.dfy`, `SortedSetTies.dfy`, `SortedSetQueries.dfy`, `SortedSetRanks.dfy`, `SortedSetObject.dfy` | the two-index sorted set: updates, pops, ties, ranges, ranks, and the object updated in place |
| `Streams.dfy`, `Lists.dfy` | the stream log, list slicing and removal |
| `Store.dfy`, `Commands.dfy`, `StorageLaws.dfy`, `Effects.dfy`, `Reordering.dfy` | values, the live and the replaying dispatcher, what each write means to a caller, what every command keeps, when order matters |
| `Sharding.dfy` | the 64 shards as one map, and the shards whose versions a command bumps |
| `Interleaving.dfy`, `InterleavingLimits.dfy`, `Chokepoint.dfy`, `Transactions.dfy` | optimistic transactions among many connections, exactly when they can be deceived, the write chokepoint, and one connection as an object |
| `Wal.dfy`, `WalFiles.dfy`, `Recovery.dfy`, `Snapshot.dfy` | log entries, log files and rotation, crash recovery, snapshots |
| `Replication.dfy`, `ReplicationLimits.dfy`, `Ring.dfy`, `RingOwnership.dfy` | replication fan-out and where it diverges, key ownership, MOVED routing and replica placement |

Conventions. A store is a map from keys to values with optional deadlines; a command is a function
from the slot (or slots) it names to their new content. What a command takes from outside the store
(the monotonic clock, unix time, hash iteration order, random choices, the text of a float sum) is an
explicit environment `Env`, and theorems quantify over it. bincode and CRC-32 are a `Codec`
parameter with 32-bit checksums; an entry *fits* a codec when its command decodes from what it was
encoded to, in less than 4 GiB. xxh3 is an arbitrary function. The *deterministic fragment* (`Effects.Deterministic`) leaves out
deadlines, float increments, SPOP, XADD without a parseable id, and pops that cut a tie in two.

Machine integers wrap as in a release build.

Where code and comments disagree, the model follows the code:

- `commands.rs` presents `apply_write_command` as unable to drift from live execution. It drifts, exactly
  for EXPIREAT with a negative time and for XADD with an unparseable id (`Commands.DispatchersAgree`).
- `server.rs` says persistence and replication can never drift. Nothing orders the writers
  between fan-out and store, so master and replica diverge when two writes of one key land in another
  order than they were sent (`ReplicationLimits.SharedKeyMayDiverge`); writes of different keys may
  overtake each other (`Replication.DrainedReplicaEqualsMaster`).
- The comments of `sorted_set.rs` speak of insertion order inside a bucket; a bucket is a hash set, so
  the order is a parameter here.
- A limit of 0 still yields one stream entry, and asking for 0 replica nodes still yields the owner,
  because the source compares only after pushing.

## Model

| member | source | states |
|---|---|---|
| Resp.ParseLocal | cache/src/protocol.rs:190-292 | a successful parse depends only on the bytes it consumed: every buffer beginning with them yields the same value and the same length |
| Resp.ParseUnchangedByExtension | cache/src/protocol.rs:190-292 | no bytes arriving later change a successful parse |
| Resp.RespRoundTrip | cache/src/protocol.rs:190-337 | every nested printable value, printed and followed by any bytes, parses back to itself, and the cursor stops at the end of the print |
| Resp.PrintInjective | cache/src/protocol.rs:295-337 | two printable values with the same bytes are the same value |
| Resp.ParsedIsPrintable | cache/src/protocol.rs:190-292 | whatever the bytes, a successful parse yields a value that prints unambiguously: well-formed text without CRLF, 64-bit integers and lengths |
| Resp.PrintIsFrameIff | cache/src/protocol.rs:190-337 | a print, whatever bytes follow it, parses as one frame holding its value if and only if the value is printable |
| RespGrammar.ParserRecognises | cache/src/protocol.rs:190-292 | against a grammar that does not mention the parser: it takes n bytes and yields a value if and only if those n bytes are a frame of that value, markers, signed and zero-padded lengths, the absent string, negative counts and nesting included |
| RespGrammar.FramesArePrefixFree | cache/src/protocol.rs:190-292 | no frame begins another frame, and none has two meanings |
| Utf8.LegalIffEncoded | cache/src/protocol.rs:277-292 | the lossy decoding of a line takes a piece for one character exactly if it is the UTF-8 encoding of a Unicode scalar value |
| Utf8.IllegalIsMaximal | cache/src/protocol.rs:277-292 | what it replaces by one U+FFFD is a single byte or the beginning of a character, and no character begins with it and the byte behind |
| Resp.Cursor.ReadLineHere | cache/src/protocol.rs:277-292 | the byte-by-byte scan finds the line before the first CRLF and moves the cursor just past it, or fails when there is none |
| Resp.Cursor.ParseBulk | cache/src/protocol.rs:224-256 | the in-place bulk-string reader agrees with the specification on value, failure and cursor movement, including -1, negative lengths and a missing CRLF |
| Resp.Cursor.ParseElements | cache/src/protocol.rs:258-275 | the element loop reads exactly as many values as counted, or fails |
| Resp.Cursor.Parse | cache/src/protocol.rs:190-205 | the recursive cursor parser agrees with the suffix-based specification on value, failure and movement |
| Resp.WriteResp | cache/src/protocol.rs:301-337 | appending to a buffer adds exactly the printed value behind what was there |
| Framing.DrainBuffer | cache/src/server.rs:517-546 | the drain loop hands on all complete frames at the front of the buffer and keeps the rest |
| RespGrammar.DrainsAllFrames | cache/src/server.rs:517-546 | a buffer of frames followed by an unfinished rest is drained to just their values, in order, and the rest stays |
| Framing.DrainInTwo | cache/src/server.rs:517-546 | draining early and carrying the leftover over gives the same frames and leftover as waiting for all bytes |
| Framing.ChunkingIndependence | cache/src/server.rs:517-554 | after any sequence of reads a connection has handed on the frames of the joined bytes and holds their leftover, and is open exactly while no leftover exceeded 1 MiB |
| Framing.SameStreamSameFrames | cache/src/server.rs:517-554 | two ways of cutting the same bytes, both within the limit, leave the connection in the same state |
| Framing.BuildExecReply | cache/src/server.rs:1399-1417 | the EXEC loop builds an array header followed by the replies in order |
| Framing.ExecReplyParses | cache/src/server.rs:1399-1417 | when every inner reply is one frame, the EXEC bytes parse as one array of those values and end there |
| Framing.ReplyIsOneFrameIff | cache/src/protocol.rs:1143-1149 | a serialized reply is the one frame that EXEC takes it for if and only if it is printable; an error text with a CRLF inside, which a client can provoke, is not |
| Framing.FormatXEntries | cache/src/server.rs:1626-1653 | the hand-built XRANGE reply is the print of an array of [id, fields] pairs |
| Framing.XRangeReplyParses | cache/src/server.rs:1626-1653 | that reply parses back, whole, as the array of entries |
| Framing.FormatXRead | cache/src/server.rs:1657-1672 | the hand-built XREAD reply is the print of an array of [name, entries] pairs |
| Framing.XReadReplyParses | cache/src/server.rs:1657-1672 | that reply parses back, whole, as the array of streams |
| CommandCodec.ParseSetOptions | cache/src/protocol.rs:358-390 | the option loop of SET finds the TTL that the recursive reading of the arguments finds, and rejects what it rejects |
| CommandCodec.LastOptionWins | cache/src/protocol.rs:358-390 | behind any options read so far, EX and PX in any case replace the TTL by the number behind them as a u32 of seconds or milliseconds and fail without one, another word changes nothing, and what is no word fails; without options there is no TTL |
| CommandCodec.CommandRoundTrip | cache/src/protocol.rs:1157-1185 | GET, SET with or without EX, and DEL survive printing, parsing among later bytes, and command parsing, for arbitrary key and value bytes |
| SortedSets.AddKeepsIndexes | cache/src/data_structures/sorted_set.rs:42-63 | adding keeps the two indexes inverse with no empty bucket, and sets one score |
| SortedSets.RemoveKeepsIndexes | cache/src/data_structures/sorted_set.rs:65-77 | removing keeps the two indexes inverse with no empty bucket, and forgets one member |
| SortedSets.IndexesAreCanonical | cache/src/data_structures/sorted_set.rs:17-24 | under the invariant the member-to-score map determines both indexes |
| SortedSets.PopTakesExtremes | cache/src/data_structures/sorted_set.rs:149-180 | for every hash order a pop returns min(n, len) distinct members with their scores in score order, keeps the invariant and the other scores, and leaves everything on the far side of what it returned |
| SortedSets.PopIgnoresOrder | cache/src/data_structures/sorted_set.rs:149-180 | when a pop takes whole buckets, what remains does not depend on the hash order |
| SortedSetTies.OrderMattersIffTieIsCut | cache/src/data_structures/sorted_set.rs:149-180 | what a pop leaves is the same under every hash order if and only if it takes whole buckets, which a caller can tell from the bucket sizes |
| SortedSetQueries.ListingLists | cache/src/data_structures/sorted_set.rs:83-103 | walking the buckets lists every member once, with its score, in ascending score order |
| SortedSetQueries.Window | cache/src/data_structures/sorted_set.rs:83-103 | positions start to stop, cut at the end: how many, and which element stands where |
| SortedSetQueries.RangeByScoreIsFilter | cache/src/data_structures/sorted_set.rs:105-120 | the range by score is exactly the set of members whose score lies in the bounds, each once, ascending |
| SortedSetRanks.RankFollowsOrder | cache/src/data_structures/sorted_set.rs:122-144 | ranks lie below the length, follow (score, member) order, and differ for different members |
| SortedSetRanks.EveryRankIsTaken | cache/src/data_structures/sorted_set.rs:122-144 | every number below the length is some member's rank |
| SortedSetRanks.LexIsByteOrder | cache/src/data_structures/sorted_set.rs:122-144 | members of one score are compared by the first byte in which they differ, a prefix before what it begins |
| SortedSetRanks.RankScoreIsPositionScore | cache/src/data_structures/sorted_set.rs:83-144 | whatever the order inside buckets, the score at position i of the full range is the score of the member of rank i |
| SortedSetObject.SortedSetValue.Add | cache/src/data_structures/sorted_set.rs:42-63 | the in-place update of both maps is the specified one, keeps the invariant and answers true |
| SortedSetObject.SortedSetValue.Remove | cache/src/data_structures/sorted_set.rs:65-77 | the in-place removal is the specified one, and tells whether the member was there |
| SortedSetObject.SortedSetValue.Pop | cache/src/data_structures/sorted_set.rs:149-180 | the pop loop returns and leaves what the specification says, keeping the invariant |
| SortedSetObject.SortedSetValue.GetRange | cache/src/data_structures/sorted_set.rs:83-103 | the counting loop with its early exit returns positions start to stop of the full listing |
| SortedSetObject.SortedSetValue.GetRangeByScore | cache/src/data_structures/sorted_set.rs:105-120 | the bucket walk returns the listing of the buckets within the bounds |
| SortedSetObject.SortedSetValue.GetRank | cache/src/data_structures/sorted_set.rs:122-144 | the counting loops return the number of members ahead in (score, member) order, or nothing for a stranger |
| Streams.IdRoundTrip | cache/src/data_structures/stream.rs:27-48 | printed ids parse back, as lower and as upper bound |
| Streams.ShortIds | cache/src/data_structures/stream.rs:27-48 | a number without a sequence stands for the first id of that millisecond as a lower bound and for the last as an upper one; the signs stand for the ends |
| Streams.IdOrderIsNumeric | cache/src/data_structures/stream.rs:15-22 | ids are ordered by milliseconds and then by sequence, as one 128-bit number |
| Streams.AddAppends | cache/src/data_structures/stream.rs:72-98 | an explicit id not above the last is refused; otherwise the entry goes to the end under an id above all others, which becomes the last id, and the log stays ordered; the one exception is a generated sequence number that wraps at 64 bits, and then the log is out of order |
| Streams.GeneratedIdIsLeast | cache/src/data_structures/stream.rs:72-98 | unless it wraps, a generated id is the least 64-bit id above the last one whose milliseconds are not before the clock |
| Streams.StreamValue.Append | cache/src/data_structures/stream.rs:72-98 | the in-place add is the specified one (a generated id by `Streams.GeneratedIdIsLeast`), changes nothing when it refuses, and keeps the log ordered if and only if no generated sequence number wraps |
| Streams.StreamValue.Range | cache/src/data_structures/stream.rs:102-115 | the entries returned are the first of exactly those between the bounds, up to the limit |
| Streams.StreamValue.ReadAfter | cache/src/data_structures/stream.rs:116-130 | the entries returned are the first of those strictly newer than the cursor, up to the limit |
| Streams.Capped | cache/src/data_structures/stream.rs:102-130 | a limit lets a prefix of that many entries through, or of all there are; a limit of 0 lets one through |
| Streams.ConsumerMissesNothing | cache/src/data_structures/stream.rs:72-130 | in every interleaving of appends and reads, a consumer has received exactly the entries after its start up to its cursor, once each and in order |
| Streams.AppendKeepsCaughtUpIff | cache/src/data_structures/stream.rs:72-98 | one append leaves a consumer caught up if and only if its generated sequence number does not wrap |
| Lists.TrimKeepsTheRange | cache/src/storage.rs:1012-1031 | LTRIM keeps what LRANGE of the same bounds shows if and only if the start is not beyond the end of a list whose last element the bounds still reach |
| Lists.WholeListAfterTrim | cache/src/data_structures/list.rs:42-67 | for a start inside the list, LRANGE 0 -1 after LTRIM shows what LRANGE of the bounds showed before |
| Lists.RangeShows | cache/src/data_structures/list.rs:42-67 | LRANGE shows, in order, exactly the elements from the one position to the other, negative ones counted from the end and a start beyond the end standing for the last element |
| Lists.TrimLeaves | cache/src/storage.rs:1012-1031 | LTRIM leaves, in order, exactly the elements from the one position to the other, negative ones counted from the end |
| Lists.RemFromHead | cache/src/storage.rs:978-1010 | LREM with a positive count strips the value from one prefix holding min(count, occurrences) of it and leaves the rest alone |
| Lists.RemFromTail | cache/src/storage.rs:978-1010 | LREM with a negative count does the same to one suffix |
| Lists.RemAll | cache/src/storage.rs:978-1010 | LREM with a count of 0 takes every occurrence and nothing else, and says how many |
| Lists.ListValue.RemoveMatching | cache/src/storage.rs:978-1010 | the in-place sweep leaves the specified list and counts what went: all occurrences for count 0, else min(absolute count, occurrences) |
| Commands.FieldLoopsAgree | cache/src/server.rs:1123-1130 | HMSET stopping at the first failure and HMSET carrying on leave the same value |
| Commands.DispatchersAgree | cache/src/commands.rs:56-238 | live execution and replay of a command in the same environment differ exactly for EXPIREAT with a negative time on a present key and XADD with an unparseable id on a missing key or a stream |
| StorageLaws.CountersCount | cache/src/storage.rs:93-139 | INCR, DECR, INCRBY and DECRBY add to the number under the key, an absent one counting as zero, and keep the deadline; what is no number stays; past 64 bits the first two wrap and the others refuse |
| StorageLaws.FloatsAdd | cache/src/storage.rs:874-896 | INCRBYFLOAT puts the text of the sum in place and keeps the deadline; what is no number stays |
| StorageLaws.AppendExtends | cache/src/storage.rs:141-162 | APPEND puts the bytes behind the text and keeps the deadline; another type stays |
| StorageLaws.SetSets | cache/src/storage.rs:78-85 | SET and SETEX leave the value, whatever was there, with the deadline that many seconds ahead or none |
| StorageLaws.LivesUntilItsDeadline | cache/src/storage.rs:62-85 | an entry with a time to live is live up to its last instant and not longer; one without is live for good |
| StorageLaws.CarefulSetters | cache/src/storage.rs:821-850 | SETNX leaves a live entry alone and sets any other key; GETSET replaces text and what is absent or expired |
| StorageLaws.MSetSets | cache/src/server.rs:1094-1099 | MSET leaves the last value given for a key, without a deadline, and other keys as before |
| StorageLaws.DeleteRemoves | cache/src/storage.rs:87-91 | DEL leaves nothing under its key and every other key as it was |
| StorageLaws.FlushRemovesAll | cache/src/storage.rs:724-728 | FLUSHALL leaves nothing under any key |
| StorageLaws.ExpireMovesDeadline | cache/src/server.rs:998-1023 | EXPIRE and PEXPIRE move the deadline of a live entry that many seconds or milliseconds from now and keep its value; negative ones change nothing |
| StorageLaws.ExpireAtMovesDeadline | cache/src/server.rs:1024-1046 | EXPIREAT of a past second removes the entry; otherwise the deadline lies as many whole seconds ahead as the given second is from the present one |
| StorageLaws.PersistTakesDeadline | cache/src/storage.rs:782-797 | PERSIST takes the deadline of a live entry away and keeps its value |
| StorageLaws.HashEdits | cache/src/storage.rs:187-222 | HSET sets one field, HDEL takes just the named ones away; the deadline stays, and so does another type |
| StorageLaws.HSetNxSetsAbsent | cache/src/storage.rs:914-931 | HSETNX sets a field only where a live hash lacks it; an expired hash is begun anew |
| StorageLaws.HIncrByCounts | cache/src/storage.rs:933-956 | HINCRBY adds to the number in one field, absent counting as zero, and leaves the others; what is no number, or would leave 64 bits, stays |
| StorageLaws.HMSetSets | cache/src/server.rs:1123-1130 | HMSET leaves the last value given for a field and other fields as before |
| StorageLaws.PushOne | cache/src/storage.rs:292-336 | LPUSH puts a value in front, RPUSH behind; another type stays |
| StorageLaws.PushesPush | cache/src/storage.rs:292-336 | several values are pushed one after the other |
| StorageLaws.PopsUndoPushes | cache/src/storage.rs:292-358 | LPOP takes what LPUSH put in front, RPOP what RPUSH put behind, and nothing else has moved |
| StorageLaws.PopsTakeOne | cache/src/storage.rs:338-358 | a pop leaves a non-empty list one shorter at its own end, and anything else alone |
| StorageLaws.LSetReplaces | cache/src/storage.rs:958-976 | LSET replaces one element, counted from the front or from the back, and nothing outside the list |
| StorageLaws.ListSweeps | cache/src/storage.rs:978-1031 | LREM and LTRIM work on the items of a live list and keep its deadline |
| StorageLaws.RPopLPushMoves | cache/src/storage.rs:1034-1058 | between two keys RPOPLPUSH leaves source items followed by destination items as they were, with the source one shorter; an absent or expired destination is begun anew; one of another type stays, and the element is lost; an empty, absent, expired or wrong source changes nothing |
| StorageLaws.RPopLPushRotates | cache/src/storage.rs:1034-1058 | with one key on both sides the list rotates by one |
| StorageLaws.SetEdits | cache/src/storage.rs:401-446 | who is in the set after SADD and SREM |
| StorageLaws.SPopTakes | cache/src/storage.rs:1061-1080 | SPOP takes as many members as asked for or there are, and adds none |
| StorageLaws.SMoveMoves | cache/src/storage.rs:1111-1133 | SMOVE takes a member from the one set to the other, the two together hold who they held, and a stranger moves nothing |
| StorageLaws.ScoreEdits | cache/src/storage.rs:567-610 | ZADD gives each named member the last score named for it, ZREM takes members away, everybody else keeps theirs |
| StorageLaws.ZIncrByAdds | cache/src/storage.rs:1136-1153 | ZINCRBY adds to one score, zero for a new member, and touches no other |
| StorageLaws.ZPopsTakeExtremes | cache/src/storage.rs:1184-1204 | ZPOPMIN and ZPOPMAX take the asked number of members, or all, from their own end: whoever stays lies on the far side of whoever went |
| StorageLaws.RenameCarries | cache/src/storage.rs:1223-1236 | RENAME carries a live value and its deadline to the new key and empties the old one; an expired value is lost |
| StorageLaws.XAddAppends | cache/src/storage.rs:1242-1256 | XADD under a given id is refused unless it is above the last one of the live stream; otherwise one entry with these fields goes to the end under it |
| StorageLaws.XAddGenerates | cache/src/storage.rs:1242-1256 | XADD without an id appends under the least id above the last that is not before the clock |
| Effects.OutsideFootprint | cache/src/server.rs:721-1239 | a command changes no key but those it names, and one that does not pass the write gate changes none |
| Effects.ApplyKeepsGood | cache/src/commands.rs:56-238 | an applied command keeps both indexes of every sorted set inverse and every stream ordered if and only if it generates no stream id that wraps |
| Effects.LiveKeepsGood | cache/src/server.rs:721-1239 | the same for a command executed live |
| Effects.LiveRunIsGood | cache/src/server.rs:721-1239 | after any commands from an empty store, of the fragment or not, all collections are well-formed unless a generated stream id wrapped |
| Effects.LiveIsReplayed | cache/src/commands.rs:56-238 | on the deterministic fragment, executing here and replaying there, under other clocks and hash orders, have the same effect |
| Effects.HistoryReplays | cache/src/server.rs:305-329 | replaying a whole history of the fragment rebuilds the live store |
| Sharding.MergedAt | cache/src/storage.rs:19-47 | looking a key up in the union of all shards is looking it up in its own shard |
| Sharding.PutInShard | cache/src/storage.rs:35-38 | editing a slot in its own shard is editing it in one big map, and keys stay in their own shards |
| Sharding.ShardIsLowBits | cache/src/storage.rs:19-47 | a key lies in one of 64 shards, given by its hash less whole multiples of 64 |
| Sharding.CacheStorage.Execute | cache/src/server.rs:721-1239 | executing a command on the shards in place changes the one big map as the command specifies (`StorageLaws`) |
| Sharding.CacheStorage.Flush | cache/src/storage.rs:724-728 | clearing shard by shard empties the store |
| Sharding.CacheStorage.DbSize | cache/src/storage.rs:730-737 | the per-shard counts add up to the number of live keys |
| Sharding.CacheStorage.Keys | cache/src/storage.rs:690-722 | KEYS lists each live key that matches once: all of them for a lone star, otherwise those whose decoded text contains the pattern without its stars |
| Sharding.StarsDoNothing | cache/src/storage.rs:690-722 | a star in a pattern does nothing, wherever it stands |
| Sharding.PlainPatternIsPart | cache/src/storage.rs:690-722 | a pattern without stars matches exactly the keys whose decoded text it is a part of |
| Sharding.CacheStorage.CleanupExpired | cache/src/storage.rs:799-804 | the sweep drops exactly the expired keys and changes no read that checks expiry, then or later |
| Sharding.CacheStorage.PopThenPush | cache/src/storage.rs:1034-1058 | RPOPLPUSH through two shards, source first, has its specified effect (`StorageLaws.RPopLPushMoves`, `StorageLaws.RPopLPushRotates`), also when both keys are one |
| Sharding.CacheStorage.Move | cache/src/storage.rs:1111-1133 | SMOVE through two shards, source first, has its specified effect |
| Sharding.ChangesAreBumped | cache/src/server.rs:1591-1622 | whatever key a command changes, the command is in the list of writes and the key's shard is among those bumped, which for most commands goes through the key that the `command_key` match names |
| Sharding.OnlyNamedAreBumped | cache/src/server.rs:1591-1622 | no shard is bumped but those of the keys a command names; FLUSHALL bumps all 64 |
| Sharding.OneKeyIsTheCommandKey | cache/src/server.rs:1692-1804 | routing and versions see the key of every command that works on one, reads included |
| Interleaving.PartsAreTheEffect | cache/src/server.rs:721-1239 | the interleaved storage calls of a write, landed one after the other, are its effect, and a command on several keys changes only those it names |
| Interleaving.RunKeepsInv | cache/src/transactions.rs:78-109 | in every reachable state no recorded version exceeds the current one, and neither a queue nor what EXEC is running holds a control command |
| Interleaving.PassedCheckMeansUnchanged | cache/src/server.rs:1374-1395 | in every interleaving, if EXEC's comparison of a watched shard passes with no script between change and bump, the key holds the entry it held at its WATCH, provided that at the WATCH no write was past its bumps of the shard and about to change that entry, or some script still owed the shard a bump |
| Interleaving.PassedExecMeansUnchanged | cache/src/server.rs:1389-1398 | an EXEC that goes on to run its queue has compared every watched key's shard, and unless a script was between change and bump at that comparison, the key then held the entry it held at its WATCH, under the same proviso about the WATCH |
| Interleaving.CheckFailsIffBumped | cache/src/transactions.rs:96-109 | the comparison finds a difference exactly when some connection bumped the shard after the WATCH that recorded it |
| InterleavingLimits.LateWriteSlips | cache/src/server.rs:708-719 | from every reachable state in which a connection may WATCH a key while a write is past its bumps of the shard and about to change the entry, and no script owes the shard a bump, that write changes the key and EXEC does not notice |
| InterleavingLimits.SlipsIffArmedAndSettled | cache/src/server.rs:704-719 | from a reachable state in which a connection may WATCH a key, EXEC can be deceived about it with all scripts settled at the comparison if and only if some write is past its bumps of the shard with a storage call ahead that changes the present entry, and no script owes the shard a bump |
| InterleavingLimits.UnsettledScriptSlips | cache/src/server.rs:1574-1589 | from every reachable state in which a connection may WATCH a key, a script on a new connection can change the key with any call the scripting bridge offers and, before it bumps, EXEC does not notice |
| Chokepoint.PerformLogs | cache/src/server.rs:704-719 | a performed write, script or read: the log is the old one plus the command, or the writes of the script, each version is raised by exactly as often as its shard is listed for them, and the store takes their effect; a redirected command does nothing at all |
| Chokepoint.ReadsDoNothing | cache/src/server.rs:704-719 | what only reads leaves store, log and versions as they are |
| Chokepoint.ScriptLogs | cache/src/server.rs:1574-1589 | a script's writes take effect and are then logged and bumped, all of them and in order |
| Chokepoint.PerformEachLogs | cache/src/server.rs:1399-1417 | the same for the whole queue of an EXEC |
| Chokepoint.PerformAnnounces | cache/src/server.rs:704-719 | whatever entry a performed command changes, the version of its shard is strictly greater afterwards |
| Chokepoint.PerformEachAnnounces | cache/src/server.rs:1399-1417 | the same for the whole queue of an EXEC |
| Chokepoint.ChangeBreaksRecord | cache/src/transactions.rs:96-109 | so a standing record of that shard, whenever it was made, no longer matches |
| Chokepoint.RecordsAfter | cache/src/transactions.rs:96-109 | a performed command keeps records at or below their versions, breaks them when it changes an entry of a recorded shard, and never mends broken ones |
| Chokepoint.SentToTheOwner | cache/src/server.rs:657-669 | in a cluster whose points belong to known nodes a command, read or write, is sent away exactly when another member owns its key, and to that member |
| Transactions.ConflictAborts | cache/src/server.rs:1374-1398 | WATCH a key, run any command or script, MULTI, EXEC: if the entry has changed in between, EXEC answers that it aborted |
| Transactions.ShardVersions.BumpAll | cache/src/server.rs:1591-1622 | the loop raises each listed shard's counter once per listing and no other |
| Transactions.TxState.AnyWatchedChanged | cache/src/transactions.rs:107-109 | true exactly when some recorded version differs from the current one |
| Transactions.Connection.WatchKeys | cache/src/server.rs:1374-1384 | WATCH records every shard its keys lie in, at the current version unless it was recorded before, and nothing else |
| Transactions.Connection.Control | cache/src/server.rs:1358-1388 | MULTI, DISCARD, WATCH and UNWATCH: what each refuses, and queue and records afterwards |
| Transactions.Connection.RunScript | cache/src/server.rs:1240-1252 | a script mutates first, each call under its own clock, and then logs and bumps its recorded writes in order (`Chokepoint.ScriptLogs`) |
| Transactions.Connection.Execute | cache/src/server.rs:645-719 | queueing, cluster routing, the write chokepoint and control; a redirected command changes nothing; an EXEC whose check fails leaves store, log and versions untouched and clears the records, one that passes performs its queue in order, each storage call under its own clock; once a command outside MULTI has changed an entry of a recorded shard, EXEC aborts, whatever is run in between; a command, read or write, whose key another member owns is answered with that member; the recursion through EXEC terminates |
| Transactions.Connection.RunOrRedirect | cache/src/server.rs:653-719 | a command whose key another member owns (`Chokepoint.SentToTheOwner`) is answered with that member and has no effect; any other runs |
| Transactions.Connection.RunExec | cache/src/server.rs:1389-1418 | EXEC takes the queue, compares, clears the records and either aborts or performs the queue (`Chokepoint.PerformEachLogs`) |
| Wal.EntryRoundTrip | cache/src/persistence/wal.rs:60-116 | a serialized entry deserializes to itself |
| Wal.EntryLayout | cache/src/persistence/wal.rs:60-80 | the bytes of an entry: number, timestamp and size from the most significant byte on, the payload, and the checksum of all that |
| Wal.SomeEntriesFit | cache/src/persistence/wal.rs:60-116 | there are codecs and entries to speak of: one under which every DEL of a key below 4 GiB fits and survives the entry format |
| Wal.ReplayLoop | cache/src/persistence/wal.rs:254-312 | the read loop over a file agrees with the specification on any bytes at all, entries and outcome |
| Wal.ReplayWhole | cache/src/persistence/wal.rs:254-312 | replaying well-formed entries followed by any bytes yields those entries and then whatever the rest yields |
| Wal.TornLog | cache/src/persistence/wal.rs:254-312 | for every byte prefix of a well-formed log, replay yields exactly the entries wholly inside it, quietly when the cut is inside a header and with an error when it is inside a body |
| Wal.DamagedEntryIsSkipped | cache/src/persistence/wal.rs:295-309 | an entry altered outside its length field, with a mismatching checksum, is skipped and every other entry survives |
| Wal.ScanFindsHighest | cache/src/persistence/wal.rs:383-433 | scanning headers alone finds the highest sequence number of a well-formed file |
| WalFiles.RotationDropsOldest | cache/src/persistence/wal.rs:318-359 | after a rotation the files in replay order hold what they held before, less the oldest segment |
| WalFiles.AppendKeepsConsistent | cache/src/persistence/wal.rs:200-232 | appending keeps the files a suffix of the history (all of it while rotations do not exceed the segments), sequence numbers strictly increasing and below the next one |
| WalFiles.RotateKeepsConsistent | cache/src/persistence/wal.rs:318-359 | rotation keeps the same invariant |
| WalFiles.HighestIsLast | cache/src/persistence/wal.rs:383-433 | the highest number found on disk is that of the last entry ever appended |
| WalFiles.ReopenKeepsConsistent | cache/src/persistence/wal.rs:142-171 | the number derived at reopening keeps the invariant, so it exceeds every retained one |
| WalFiles.FilesReplay | cache/src/persistence/wal.rs:240-312 | replaying the bytes of all files, oldest first, succeeds with exactly the retained entries |
| WalFiles.TornAppendReplays | cache/src/persistence/wal.rs:240-312 | with any strict prefix of one more entry at the end, reading the files delivers exactly the retained entries, with an error only when the cut is inside the body |
| WalFiles.WriteAheadLog.ShiftFiles | cache/src/persistence/wal.rs:318-359 | the renaming loop moves every segment up by one, the active file to the first, and drops the last |
| WalFiles.WriteAheadLog.RotateLog | cache/src/persistence/wal.rs:318-359 | the shuffled byte files are again the encodings of what the rotated log retains |
| WalFiles.WriteAheadLog.AppendCommand | cache/src/persistence/wal.rs:200-232 | an append adds the bytes of one entry under the next number, rotates exactly when the size limit is reached, and keeps bytes and history in step |
| WalFiles.WriteAheadLog.Replay | cache/src/persistence/wal.rs:240-252 | on any bytes, the loop over the files stops at the first error with what came before; on a valid log it succeeds with exactly the retained entries |
| WalFiles.WriteAheadLog.ReadLastSequence | cache/src/persistence/wal.rs:383-433 | on any bytes, the loop over the files scans headers as specified; on a valid log it finds the highest retained number |
| WalFiles.WriteAheadLog.Reopen | cache/src/persistence/wal.rs:142-171 | reopening continues one above the last number ever appended |
| Recovery.ReplayRebuilds | cache/src/server.rs:305-329 | file bytes that deliver a history of the fragment rebuild, in any surroundings, the live store but for what a script has not logged and with what is logged but not applied |
| Recovery.CrashAnywhereRecovers | cache/src/server.rs:305-329 | in every run of logging, applying, scripting, rotating and restarting on the fragment, the bytes of the files replay without error and give the live store, or the live store after the one pending command, or, inside a script, the store that lacks just what the script has applied and not yet logged |
| Recovery.OvertakingWritersRecover | cache/src/server.rs:708-719 | with several writers at once, if only commands without a common key overtook each other on the way to the store, the bytes of the log still rebuild it |
| Recovery.TornFilesHold | cache/src/persistence/wal.rs:254-312 | what files torn inside an append hold: the store without that command, read with an error exactly when the cut is inside the body |
| Recovery.TornLogReopensIff | cache/src/persistence/wal.rs:383-433 | after a crash inside an append the log opens again, with the right next number, if and only if the cut is inside the header; otherwise the server does not start |
| Recovery.AppendBehindTornHeaderIsLost | cache/src/persistence/wal.rs:200-232 | reopened on a torn header the log is not sound: entries go behind the torn bytes, and when the length then read points past the end of the file they are lost and the log does not open again |
| Recovery.OneTornByteLosesTheNext | cache/src/persistence/wal.rs:200-232 | so it is for one torn byte and every entry whose timestamp does not end in a zero byte, with a command below 16 MiB |
| Snapshot.CommandsRebuild | cache/src/persistence/snapshot.rs:243-331 | the recorded commands rebuild exactly the value, of all six types, and there are none exactly for an empty collection |
| Snapshot.SnapshotRoundTrip | cache/src/persistence/snapshot.rs:187-239 | loading a saved store into an empty one yields exactly the surviving entries with their values intact and deadlines rebased |
| Snapshot.LiveRunRoundTrip | cache/src/persistence/snapshot.rs:187-239 | the same for the store of every run of live commands that wrapped no stream id |
| Snapshot.DeadlinesCarryOver | cache/src/persistence/snapshot.rs:187-213 | an entry survives exactly when it is not empty and its unix deadline lies ahead of the load, and that unix deadline is the same before and after |
| Reordering.IndependentWritesCommute | cache/src/server.rs:721-1239 | any two commands that name no common key, neither a FLUSHALL, have the same effect in either order, on every store and under every clock |
| Reordering.OrderDoesNotMatter | cache/src/server.rs:708-719 | any order of the same writes leads to the same store, if writes that change places name no common key, and leaves them in the deterministic fragment |
| Reordering.OrderMattersIffOvertaken | cache/src/server.rs:708-719 | for writes of one key each: whatever they write, an order of landing leads to the store of the order of sending if and only if no two writes on the same key change places |
| Replication.RunKeepsInv | cache/src/replication/master.rs:88-151 | in every interleaving of connects, writes, sends, landings and deliveries the offset counts the writes, every channel continues what its replica applied, and the master's store is what has landed |
| Replication.AppliedIsGapFree | cache/src/replication/replica.rs:74-110 | what a replica applied on a connection is a gap-free in-order run of the master's sequence from its registration on |
| Replication.OffsetDeficit | cache/src/replication/master.rs:88-115 | replica offset plus commands under way never exceeds the master offset, and between writes the deficit is exactly the writes between offset read and registration |
| Replication.DrainedReplicaEqualsMaster | cache/src/replication/replica.rs:98-110 | in every run in which only writes without a common key overtake each other between fan-out and store, a replica registered before the first write and fully drained holds the master's store, on the fragment |
| ReplicationLimits.WritersMayCross | cache/src/server.rs:708-719 | from every reachable state between two fan-outs with a served replica, any two writes may be sent in one order and land on the master in the other |
| ReplicationLimits.SharedKeyMayDiverge | cache/src/server.rs:708-719 | from every reachable state with all writes landed and a served replica, any two footprints with a common key belong to two writes that cross and leave the drained replica without the value the master has under that key |
| ReplicationLimits.CrossedWritersDiverge | cache/src/server.rs:708-719 | two SETs of one key that cross leave the master with the value sent first and every drained replica with the one sent last |
| Ring.JoinMovesOnlyToJoiner | cache/src/cluster/ring.rs:29-69 | adding a node changes a key's owner (`RingOwnership.OwnerIsFirstClockwise`) only to that node, even under hash collisions |
| Ring.LeaveMovesOnlyItsOwn | cache/src/cluster/ring.rs:44-69 | removing a node changes the owner only of keys it owned, and leaves it owning none |
| Ring.HistoryKeepsKnown | cache/src/cluster/ring.rs:29-51 | in every history each point on the ring belongs to a known node |
| Ring.HistoryIsForgotten | cache/src/cluster/ring.rs:29-51 | with collision-free points the ring after any history holds exactly the points of the present nodes |
| Ring.CanonicalIsUnique | cache/src/cluster/ring.rs:29-51 | so the present node set determines the ring |
| Ring.CollisionsRememberHistory | cache/src/cluster/ring.rs:29-42 | two nodes with a common point, at any indexes, leave the same members in either order of joining, and the last comer owns the keys at that point |
| Ring.MembershipDecidesIffCollisionFree | cache/src/cluster/ring.rs:29-69 | for every set of nodes: all histories over it that end with the same members end with the same owner for every key if and only if no two of the nodes share a point |
| Ring.RedirectedAtMostOnce | cache/src/server.rs:657-669 | two servers with equal membership, whatever their histories, have the same ring, and a redirected key, that is one which another member owns (`RingOwnership.OnlyTheOwnerServes`), is served where it was redirected to |
| Ring.PlacementIsDistinct | cache/src/cluster/ring.rs:71-95 | replica placement returns as many different nodes as asked for or available, all on the ring, the owner first |
| RingOwnership.OwnerIsFirstClockwise | cache/src/cluster/ring.rs:53-69 | a key belongs to the node of the first point at or after its hash, or past the greatest to that of the least |
| RingOwnership.OwnerByInterval | cache/src/cluster/ring.rs:53-69 | the same by intervals: no point lies between the hash and the owner's, or all lie below the hash and the owner's is the least |
| RingOwnership.OnlyTheOwnerServes | cache/src/server.rs:657-669 | in every known cluster with points, a server answers for a key exactly if it is the owner, and otherwise names the owner's record |
| RingOwnership.EveryKeyIsServedOnce | cache/src/server.rs:657-669 | after every history of joins and leaves each key has exactly one member that serves it, as long as somebody has points |
| RingOwnership.PlacementGoesClockwise | cache/src/cluster/ring.rs:71-95 | each chosen node has a point nearer to the key than every point of the nodes chosen after it and of those not chosen |
| Ring.ConsistentHashRing.AddNode | cache/src/cluster/ring.rs:29-42 | the loop over virtual points is the specified join |
| Ring.ConsistentHashRing.GetNodesForReplication | cache/src/cluster/ring.rs:71-95 | the walk with its set of nodes seen and its early exit returns the specified placement (`RingOwnership.PlacementGoesClockwise`) |

## Left out

- Sockets, TLS, scheduling, configuration, CLI, client and benchmarks: plumbing.
- Pub/Sub, ACL and authentication gates, gossip membership and the Lua interpreter; a script is the list of writes it recorded.
- bincode, CRC-32 and xxh3 internals (parameters), the snapshot file's header and checksum, and failures of file operations.
- Recovery in `both` mode and log truncation after a snapshot; sync policies other than Always.
- Reply values and error texts of data commands: the model keeps what a command does to the store, and for transactions whether it was done, queued, refused or aborted.
- Read commands other than those named in the table; all reads are one command without effect. In `parse_command` only GET, SET and DEL.
- Floating point: scores are reals, so there is no NaN and no rounding; the text an INCRBYFLOAT stores comes from the environment.
- Locks and in-place edits inside one value while a shard is held: storage methods are functions on slots, and `CacheStorage` reads and rewrites whole slots of its shards. `SortedSetValue`, `StreamValue` and `ListValue` show the in-place versions of the hard ones.
- Expiry sweeps and replica applies as steps of the transaction interleaving; isolation between the commands of one EXEC, which the source does not provide.
- The panics of slicing: LTRIM with stop at the 64-bit maximum, XRANGE with start above end, ZRANGEBYSCORE with min above max, and allocation for a huge announced array length.
- Effects.OutsideFootprint: read commands are modelled as leaving the slot they read, not arm by arm.
- Streams.StreamValue.Range: requires start at most end, because the source panics otherwise.
- SortedSetObject.SortedSetValue.GetRange: always returns pairs; the `with_scores` flag only blanks the second component. A `stop` below the start yields nothing.
- SortedSetObject.SortedSetValue.GetRangeByScore: always returns pairs, and returns nothing where the source panics on min above max.
- InterleavingLimits.SlipsIffArmedAndSettled: RPOPLPUSH, SMOVE, RENAME and FLUSHALL, whose storage calls depend on several keys, may change the keys they name in any way; all other writes land their real calls.
- Replication.DrainedReplicaEqualsMaster: the writes of scripts, which land before they are sent, are not part of the replication steps.
- Streams.ConsumerMissesNothing: appends whose generated sequence number wraps are excluded, since they misorder the log (`Streams.AppendKeepsCaughtUpIff`).
- WalFiles.WriteAheadLog.RotateLog: requires a non-empty active file; the source rotates only behind an append.
- WalFiles.WriteAheadLog.AppendCommand: requires that the entry fits: 64-bit sequence number and timestamp, and a command that survives its encoding.
- Recovery.CrashAnywhereRecovers: one writer or script at a time, and the server goes on only from files cut at an entry boundary; several writers are `Recovery.OvertakingWritersRecover`, torn files `Recovery.TornLogReopensIff`.
- Wal.DamagedEntryIsSkipped: a damaged length field desynchronises the scan and is not covered.
