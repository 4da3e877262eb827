# Verified models of the system-design implementations

This project models the stateful implementations under `code/hld` and the condition-variable
protocols of `code/fundamentals/concurrency.py`, and proves what they are for.

- **Index structures** that must agree with something simple: a skip list with spans and the
  sharded leaderboard on it, an LSM tree that survives a crash at any point, an LRU cache on a ring
  of pointers, a consistent-hash ring, Merkle trees, a Count-Min sketch with a top-k heap, and mail
  threading on union-find. Each is specified by a sequence, a map or a partition, and every
  operation is proved to refine it.
- **Protocols**: a Dynamo-style cluster with hinted handoff, read repair and anti-entropy; Lamport,
  vector and hybrid clocks; a bounded buffer, a read-write lock, ordered locking and optimistic
  updates under every schedule; a partitioned log with an idempotent producer and consumer groups.
- **State machines**: a price-time matching engine with replay, and ride dispatch with leases.
- **Arithmetic**: the rolling hash behind content-defined chunks, and smooth weighted round robin.

A method that holds a lock throughout is one atomic step. In the concurrency modules each stretch
between taking and giving up the lock is a step, waiting and woken threads are part of the state,
and a wait may end in an exception. Objects the source updates in place are classes whose methods are proved against functions
of their old state; what every step keeps is then proved about those functions. Times, prices and
distances are integers, leaderboard scores reals, hash functions arbitrary. `dafny verify dfyconfig.toml`
checks everything.

## Model

| member | source | states |
|---|---|---|
| SkipList.SortedSet.Add | code/hld/leaderboard_sorted_set.py:104-112 | Whatever tower height the coin flips give, every span stays the level-0 distance its pointer skips, and the list is the (-score, member) order of the score table with that member set. |
| SkipList.SortedSet.Remove | code/hld/leaderboard_sorted_set.py:114-119 | The same invariant after a removal; the table loses exactly that member and the answer says whether it was there. |
| SkipList.SpliceKeepsLinks | code/hld/leaderboard_sorted_set.py:183-211 | Linking a tower of any height at any place keeps every pointer leading to the next tower tall enough and every span right. |
| SkipList.DropKeepsLinks | code/hld/leaderboard_sorted_set.py:213-234 | Unlinking the node behind a search path keeps every other pointer and span right. |
| SkipList.SortedSet.CountAbove | code/hld/leaderboard_sorted_set.py:121-135 | The spans added up on the way down are the number of entries that come before `(-score, member)`. |
| SkipList.SortedSet.Rank | code/hld/leaderboard_sorted_set.py:137-142 | The rank of a member is its index on the board; an unknown member is refused. |
| SkipList.SortedSet.Top | code/hld/leaderboard_sorted_set.py:144-153 | The first `limit` entries of the board. |
| SkipList.SortedSet.Page | code/hld/leaderboard_sorted_set.py:155-174 | Exactly that slice of the board, reached through the spans; a negative start or a count that is not positive is refused. |
| SkipList.BoardIsUnique | code/hld/leaderboard_sorted_set.py:48-55 | A score table has one board, so rank, page and top are answers about the table. |
| Leaderboard.ShardedLeaderboard.Submit | code/hld/leaderboard_sorted_set.py:273-293 | The stored score, the best-only rule and the rejections; one shard changes and the shards still deal out the whole board. |
| Leaderboard.ShardedLeaderboard.Top | code/hld/leaderboard_sorted_set.py:303-315 | The first `limit` entries of the union of all shards, with their ranks, for every shard count and placement. |
| Leaderboard.ShardedLeaderboard.Rank | code/hld/leaderboard_sorted_set.py:317-324 | The index on the whole board. |
| Leaderboard.RankEnd | code/hld/leaderboard_sorted_set.py:317-324 | The shards' counts of entries ahead of a probe add up to its position on the whole board. |
| Leaderboard.ShardedLeaderboard.Neighbours | code/hld/leaderboard_sorted_set.py:326-348 | The slice from `max(0, rank - r)` to `rank + r` of the whole board with correct ranks. |
| Leaderboard.WindowsCover | code/hld/leaderboard_sorted_set.py:326-348 | One window of `2r + 1` entries per shard around the local split point shows every global neighbour. |
| Leaderboard.MergedTops | code/hld/leaderboard_sorted_set.py:303-315 | The first `limit` of the merged local tops are the first `limit` of the union. |
| Versions.MergeIsLeastUpperBound | code/hld/kv_cluster.py:53-61 | `merge` is the least clock that descends from both. |
| Versions.IncrementIsNew | code/hld/kv_cluster.py:45-51 | A new version supersedes everything its context saw and is dominated by nothing its coordinator stores. |
| Versions.ReconcileUnion | code/hld/kv_cluster.py:81-89 | `reconcile(reconcile(A) + B) = reconcile(A + B)`: merging replicas early loses nothing. |
| Versions.ReconcileCovers | code/hld/kv_cluster.py:81-89 | Whatever reconciliation drops, something it keeps is at least as new. |
| KvCluster.KVCluster.Targets | code/hld/kv_cluster.py:187-198 | The list of (home, holder) pairs a request reaches. |
| KvCluster.KVCluster.ReachIsSound | code/hld/kv_cluster.py:187-198 | Distinct homes go to distinct live holders, every live home is its own, and stand-ins come from outside the preference list and only when sloppy. |
| KvCluster.KVCluster.Put | code/hld/kv_cluster.py:200-224 | Refusals change nothing; otherwise every target stores the version, whose clock is the context bumped past the coordinator's own counter, the write is owed by its homes from then on, and the answer lists the holders and every stand-in with the down home it keeps a hint for. |
| KvCluster.StandInsMean | code/hld/kv_cluster.py:218-223 | The list of hinted pairs holds exactly the targets that are not their own homes. |
| KvState.WriteAllIsSound | code/hld/kv_cluster.py:218-223 | A write loses nothing any node held, and afterwards every holder has the version in place, and every stand-in in a hint for the home too. |
| KvCluster.WriteSupersedes | code/hld/kv_cluster.py:215-216 | A put with the context of a read supersedes all the read returned on every node it reaches. |
| KvCluster.KVCluster.Get | code/hld/kv_cluster.py:230-242 | The siblings are the reconciled union of R replicas, the context their join, the stale ones are repaired; with strict overlapping quorums every acknowledged version is covered. |
| KvCluster.KVCluster.ReadCoversAck | code/hld/kv_cluster.py:230-242 | In every reachable state with `sloppy=False` and W + R > N, any R reachable replicas cover every acknowledged version of the key. |
| KvCluster.RepairConverges | code/hld/kv_cluster.py:234-235 | Read repair leaves every node that answered with exactly what the read returned. |
| KvCluster.KVCluster.Recover | code/hld/kv_cluster.py:248-263 | The node ends up with all it had and all that was kept for it, reconciled; the stand-ins keep neither the hints nor their copies; no hint for it is left. |
| KvState.DeliverConserves | code/hld/kv_cluster.py:253-262 | Handing one hint over moves versions to the home and loses none on the way. |
| KvCluster.KVCluster.AntiEntropy | code/hld/kv_cluster.py:265-280 | Exactly the shared keys of the buckets that differ are merged, on both nodes, to the reconciled union. |
| KvCluster.AntiEntropyAgreesIff | code/hld/kv_cluster.py:265-280 | Under injective digests the two nodes agree on a shared key afterwards if and only if they agreed before or the texts they store for its bucket differ. |
| KvCluster.AntiEntropyConverges | code/hld/kv_cluster.py:265-280 | When fingerprints also tell siblings apart, the two nodes hold the same reconciled siblings for every shared key. |
| KvCollision.AntiEntropyOverlooks | code/hld/kv_cluster.py:116-122 | A run of put, fail and recover, all nodes up and all hints delivered at its end, after which anti-entropy leaves a shared key different. |
| MerkleTree.Build | code/hld/merkle_tree.py:47-58 | The tree is the pairwise hash of the buckets' texts, level by level; a leaf count that is no power of two is refused. |
| MerkleTree.DiffTrees | code/hld/merkle_tree.py:82-98 | The stack walk computes the specified difference and counts its comparisons. |
| MerkleTree.DiffIsExact | code/hld/merkle_tree.py:82-98 | Under an injective digest the diff is exactly the buckets whose texts differ, in order, for at most 1 + 2·height·d comparisons. |
| MerkleTree.DiffFindsEveryDifference | code/hld/merkle_tree.py:82-98 | For one-line entries those are exactly the buckets with different entries. |
| MerkleTree.TextCanCollide | code/hld/merkle_tree.py:61-63 | Two different buckets can have one text. |
| ConsistentHashing.HashRing.AddNode | code/hld/consistent_hashing.py:85-96 | A new member's points are sorted in and nothing else moves; the ring is the one the member-weight map calls for. |
| ConsistentHashing.HashRing.RemoveNode | code/hld/consistent_hashing.py:98-104 | Exactly the node's points go. |
| ConsistentHashing.HashRing.GetNode | code/hld/consistent_hashing.py:106-112 | The first owner clockwise from the key, around the end of the ring. |
| ConsistentHashing.HashRing.PreferenceList | code/hld/consistent_hashing.py:114-133 | The first `replicas` distinct nodes clockwise, or a refusal. |
| ConsistentHashing.RemovalDeletesFromOrder | code/hld/consistent_hashing.py:98-104 | Removing a node turns every key's full preference order into the old order with that node deleted. |
| ConsistentHashing.OnlyTheNewNodeGains | code/hld/consistent_hashing.py:85-96 | Adding a node changes a key's owner only to the new node. |
| ConsistentHashing.RingDependsOnMembersOnly | code/hld/consistent_hashing.py:82-104 | The ring depends on the member-weight map alone, not on the order of changes. |
| SsTable.Get | code/hld/lsm_tree.py:184-193 | Bisecting the sparse index and scanning one block finds what a search of the whole run finds. |
| SsTable.NoFalseNegatives | code/hld/lsm_tree.py:45-58 | A Bloom filter never hides a key its table holds. |
| LsmTree.LsmTree.Recover | code/hld/lsm_tree.py:256-265 | Log and tables found after a crash, in whatever order the tables are listed, give the one tree whose map they stand for; table ids continue after the largest. |
| LsmTree.LsmTree.Write | code/hld/lsm_tree.py:284-292 | Every durable state in between, from log append to truncation, recovers to the new map. |
| LsmTree.LsmTree.Lookup | code/hld/lsm_tree.py:297-312 | What a plain map would answer, despite Bloom skips, one-block probes, tombstones and table order. |
| LsmTree.LsmTree.Flush | code/hld/lsm_tree.py:318-325 | The map is unchanged and every durable state in between recovers to it. |
| LsmTree.LsmTree.Compact | code/hld/lsm_tree.py:333-352 | One table without tombstones; the map is unchanged at every crash point. |
| LsmTree.MergeRuns | code/hld/lsm_tree.py:340-346 | The newest-first merge keeps exactly the newest live entry of every key, in order. |
| LsmTree.LsmTree.Scan | code/hld/lsm_tree.py:354-363 | Exactly the live entries with `lo <= key < hi`, in key order. |
| MatchingSpec.SweepKeepsPriority | code/hld/matching_engine.py:186-225 | The specification: fills come in price-time order, each in full but the last, and nothing that crosses is left. |
| OrderBook.BookIsQueue | code/hld/matching_engine.py:124-136 | Levels and heaps stand for the resting orders in price-time priority. |
| OrderBook.OrderBook.Best | code/hld/matching_engine.py:138-148 | The best live price; dead levels are dropped on the way without changing the queue. |
| OrderBook.OrderBook.Match | code/hld/matching_engine.py:186-225 | Exactly the specified sweep of the opposite queue: fills, remaining quantities, resting set, trades. |
| OrderBook.OrderBook.Rest | code/hld/matching_engine.py:160-171 | The order joins the back of its price level; a market order is refused. |
| OrderBook.OrderBook.Cancel | code/hld/matching_engine.py:173-179 | A resting order is flagged in place and leaves the index; an unknown one is refused. |
| MatchingEngine.MatchingEngine.Apply | code/hld/matching_engine.py:274-310 | Every command leads to the one specified outcome and keeps conservation, uncrossed books and the per-account counts. |
| MatchingEngine.AcceptedIsSane | code/hld/matching_engine.py:283-310 | After an accepted order each quantity is remaining plus traded, bids stay below asks, and open orders per account are counted. |
| MatchingEngine.CancelIsSane | code/hld/matching_engine.py:276-282 | The same after a cancel. |
| MatchingEngine.ReachedOnce | code/hld/matching_engine.py:343-350 | One journal leads to one engine view. |
| MatchingEngine.Replay | code/hld/matching_engine.py:343-350 | Replay fails if and only if some cancel of the journal finds its order not resting in the view its predecessors lead to; otherwise it ends in the journal's one view. |
| MatchingEngine.StuckAt | code/hld/matching_engine.py:276-282 | A journalled cancel that fails leaves the journal leading nowhere. |
| BoundedBuffer.RunsAreOrdered | code/fundamentals/concurrency.py:131-160 | Over every schedule, whatever waits are abandoned: the bound holds and items come out first in, first out. |
| BoundedBuffer.RunsAreGood | code/fundamentals/concurrency.py:131-160 | Over every schedule in which no abandoned wait takes a needed wakeup with it, no wakeup is lost. |
| BoundedBuffer.AbandonKeepsIff | code/fundamentals/concurrency.py:147-160 | A wait that ends in an exception loses a wakeup if and only if it had been notified, another of its kind sleeps, and there are no more woken ones than work. |
| BoundedBuffer.Buffer.Put | code/fundamentals/concurrency.py:147-152 | One lock-held stretch of `put`: wait when full, else append and wake one consumer. |
| BoundedBuffer.Buffer.Get | code/fundamentals/concurrency.py:154-160 | One lock-held stretch of `get`: wait when empty, else take the oldest item and wake one producer. |
| BoundedBuffer.NeverStuckWithWork | code/fundamentals/concurrency.py:131-160 | In such a schedule, when nobody can run, sleeping consumers mean an empty buffer and sleeping producers a full one. |
| BoundedBuffer.SleepersAreServed | code/fundamentals/concurrency.py:147-160 | In such a schedule a sleeping consumer next to an item implies a woken consumer that can run; likewise producers. |
| ReadWriteLock.RunsExclude | code/fundamentals/concurrency.py:70-110 | Over every schedule, abandoned waits included: readers and writers never overlap and a free lock leaves no writer asleep. |
| ReadWriteLock.NoOverlap | code/fundamentals/concurrency.py:70-110 | Never two writers, never a writer with a reader. |
| ReadWriteLock.PatientRunsServeReaders | code/fundamentals/concurrency.py:85-110 | Over every schedule in which no step strands them, readers sleep only while a writer is inside or queued. |
| ReadWriteLock.FreeLockSleepsNobody | code/fundamentals/concurrency.py:85-110 | Over those schedules nobody sleeps on a free lock that no woken writer is about to take. |
| ReadWriteLock.ReadersServedStep | code/fundamentals/concurrency.py:97-105 | A step strands sleeping readers if and only if it is the last queued writer's wait ending in an exception with no writer inside. |
| LockOrder.RunsAreSafe | code/fundamentals/concurrency.py:277-289 | Over every schedule of transfers: the total is unchanged, nobody is overdrawn, and some transfer can always go on. |
| OptimisticStore.NoLostUpdate | code/fundamentals/concurrency.py:231-247 | Over every run whose puts no snapshot can be mistaken for, each write worked on what the write before it left. |
| OptimisticStore.PutIsHarmlessIff | code/fundamentals/concurrency.py:225-229 | That condition on a put is exact: without it some run after the put loses an update. |
| OptimisticStore.HonestStep | code/fundamentals/concurrency.py:225-247 | A step keeps every snapshot of the present version a snapshot of the present value unless, and exactly if not, it is a put outside that condition. |
| OptimisticStore.Store.Update | code/fundamentals/concurrency.py:249-258 | Against any interference that keeps snapshots honest: success applies the function once to the value it replaces, failure changes nothing, and the attempts are bounded. |
| OptimisticStore.Store.CompareAndSet | code/fundamentals/concurrency.py:238-247 | The new entry goes in exactly when the version is the expected one. |
| OptimisticStore.Store.UpdatePessimistically | code/fundamentals/concurrency.py:260-268 | With the lock held throughout the change always goes in, on the present value; only a missing key is refused. |
| OptimisticStore.OthersKeepHonest | code/fundamentals/concurrency.py:231-247 | Between a thread's read and its own compare-and-set, others whose puts are harmless leave its snapshot honest. |
| LogicalClocks.CompareMeans | code/hld/logical_clocks.py:127-139 | The four outcomes of `compare` in terms of pointwise order. |
| LogicalClocks.StampCountsPast | code/hld/logical_clocks.py:114-125 | A stamp counts, node by node, exactly the events in its past. |
| LogicalClocks.HappensBeforeIffBefore | code/hld/logical_clocks.py:328-341 | Over every run, one event happened before another if and only if its vector compares BEFORE, and then its Lamport time is smaller. |
| LogicalClocks.Simulate | code/hld/logical_clocks.py:328-341 | The local, send and deliver steps on clock objects compute those stamps. |
| HybridClock.HybridIsCausal | code/hld/logical_clocks.py:283-312 | Hybrid stamps respect causality whatever the physical clocks read. |
| HybridClock.PhysicalIsNewestReading | code/hld/logical_clocks.py:283-312 | The physical part is the newest reading in the event's past. |
| HybridClock.DriftIsBounded | code/hld/logical_clocks.py:293-312 | With the check on, a stamp is at most the allowed drift ahead of the clock that made it. |
| LruCache.Cache.Get | code/hld/lru_cache.py:117-132 | Hit, miss and expiry against the recency sequence the pointer ring stands for. |
| LruCache.Cache.Put | code/hld/lru_cache.py:134-156 | Overwrite, insert and evict against that sequence, counters included. |
| LruCache.Cache.Delete | code/hld/lru_cache.py:158-165 | The entry, live or not, leaves ring and map. |
| LruCache.Cache.Keys | code/hld/lru_cache.py:167-176 | Walking the ring lists the live keys, most recently used first. |
| LruCache.Cache.Contains | code/hld/lru_cache.py:111-115 | True exactly for a live entry, and nothing moves. |
| LruSimulation.StackProperty | code/hld/lru_cache.py:117-156 | The cache of any capacity is that long a prefix of one recency stack. |
| LruSimulation.HitsNeverDecrease | code/hld/lru_cache.py:199-205 | A larger capacity never hits less often on the same stream. |
| LruSimulation.SimulateHits | code/hld/lru_cache.py:199-205 | The loop over the real cache counts those hits. |
| CountMinSketch.EstimateNeverUndercounts | code/hld/count_min_sketch.py:46-57 | True count <= estimate <= total added. |
| CountMinSketch.Sketch.Merge | code/hld/count_min_sketch.py:68-80 | Merging two sketches of one shape gives the sketch of both streams. |
| TopK.TopK.Add | code/hld/count_min_sketch.py:108-126 | After any stream, stale heap entries, evictions and rebuilds included, nobody outside the candidates has a larger true count than any stored estimate. |
| TopK.TopK.Top | code/hld/count_min_sketch.py:128-133 | The ranking of the candidates; whoever is missing has a true count no larger than any listed estimate. |
| UnionFind.UnionFind.Find | code/hld/email_threading.py:85-92 | The root; path compression changes no set and ends. |
| UnionFind.UnionFind.Union | code/hld/email_threading.py:94-103 | The two sets become one and every other set stays. |
| UnionFind.DepthIsLogarithmic | code/hld/email_threading.py:94-103 | 2 to the depth of an id is at most the size of its set. |
| EmailThreading.MailboxThreader.Add | code/hld/email_threading.py:138-155 | A redelivery changes nothing; the answer is the id of the oldest delivered message of the conversation. |
| EmailThreading.MailboxThreader.Threads | code/hld/email_threading.py:167-172 | The threads are the connected components of the references, ghosts included, newest activity first. |
| EmailThreading.ThreadsOf | code/hld/email_threading.py:124-192 | A whole stream of deliveries, redeliveries included, ends in the thread list of the messages kept from it. |
| EmailThreading.ConnectedIffPath | code/hld/email_threading.py:138-155 | Being in one conversation is being joined by a chain of references. |
| EmailThreading.SameThreadsWhateverTheOrder | code/hld/email_threading.py:124-192 | Without the subject fallback the thread list is the same for every delivery order and every redelivery. |
| DispatchState.NobodyTwice | code/hld/dispatch_matching.py:95-173 | In every reachable state a driver has at most one of an offer and a ride, a trip is offered exactly when one lease names it and under way exactly when its driver is on it, and the index holds the rest; a trip is left REQUESTED if and only if its pickup is off the map and it was not cancelled. |
| Dispatch.DispatchService.Search | code/hld/dispatch_matching.py:176-188 | The nearest `k` of those not excluded within the first doubled radius that reaches anybody. |
| DispatchState.ExcludedCannotCrowdOut | code/hld/dispatch_matching.py:176-188 | Asking the index for `k` plus the number excluded is enough. |
| Dispatch.SearchDecides | code/hld/dispatch_matching.py:208-221 | The offer goes to the nearest driver within the cap who has not refused; no hit means there is none. |
| Dispatch.DispatchService.RequestRide | code/hld/dispatch_matching.py:198-206 | Reap, record, offer; a pickup off the map is refused after the trip is on record. |
| Dispatch.DispatchService.AcceptOffer | code/hld/dispatch_matching.py:231-242 | Lease to ride, only for the holder and in time; otherwise nothing changes. |
| Dispatch.DispatchService.DeclineOffer | code/hld/dispatch_matching.py:244-253 | The driver is freed and barred from the trip, and the trip is offered on or given up. |
| Dispatch.DispatchService.ReapExpiredOffers | code/hld/dispatch_matching.py:255-272 | The overdue offers worked off one after the other, re-offers in between. |
| DispatchState.ReapedIsCurrent | code/hld/dispatch_matching.py:255-272 | Afterwards no offer is overdue, every other offer stands, and each overdue driver counts as having refused. |
| Dispatch.DispatchService.GoOffline | code/hld/dispatch_matching.py:148-154 | An outstanding offer is declined first; the driver ends up with neither lease nor place in the index. |
| Dispatch.DispatchService.NearestAvailable | code/hld/dispatch_matching.py:190-196 | After a reap, the `k` nearest dispatchable drivers within the first radius that reaches any. |
| Dispatch.DispatchService.CompleteTrip | code/hld/dispatch_matching.py:294-301 | Only a trip in progress completes, and its driver is dispatchable again if online. |
| Dispatch.DispatchService.CancelTrip | code/hld/dispatch_matching.py:303-316 | Releases the lease of an offered trip or the driver of an assigned one; otherwise refused without change. |
| KafkaLog.Partition.Read | code/hld/mini_kafka.py:68-72 | Bisecting a log with gaps returns the first `limit` records from the offset. |
| KafkaLog.Partition.Compact | code/hld/mini_kafka.py:74-80 | Exactly the unkeyed records and the newest of every key stay. |
| KafkaLog.Partition.Expire | code/hld/mini_kafka.py:82-87 | Exactly the records older than the time go, and the log starts at the first one kept or at its end. |
| KafkaLog.CompactionKeepsReaders | code/hld/mini_kafka.py:74-80 | The key-to-latest-value table read from any offset is the same after a compaction. |
| KafkaLog.CompactedIsMinimal | code/hld/mini_kafka.py:74-80 | No key is left twice and no unkeyed record is lost. |
| KafkaBroker.Broker.Append | code/hld/mini_kafka.py:133-161 | A repeated number is answered with the first record, a gap is refused, and only the next number writes. |
| KafkaBroker.Broker.CreateTopic | code/hld/mini_kafka.py:107-116 | A topic is added with empty partitions; bad counts, bad retention and a name in use are refused without change. |
| KafkaBroker.Broker.Expire | code/hld/mini_kafka.py:199-206 | Retention is applied to every partition of the topic, and every log only moves on. |
| KafkaBroker.Producer.Send | code/hld/mini_kafka.py:229-245 | However many attempts, exactly one record is written and returned. |
| KafkaBroker.NumberedSend | code/hld/mini_kafka.py:150-161 | A numbered send is stored if its number is the next one, dropped but acknowledged with the last record if it is the last one written, and refused otherwise; each exactly then. |
| KafkaBroker.RestartedProducer | code/hld/mini_kafka.py:150-161 | A producer starting over under a used id: stored, dropped but acknowledged, or refused, by how much the id wrote before. |
| KafkaGroup.ConsumerGroup.Rebalance | code/hld/mini_kafka.py:272-279 | Contiguous ranges in member order; positions are forgotten. |
| KafkaGroup.AssignedCovers | code/hld/mini_kafka.py:272-279 | Every partition belongs to exactly one member. |
| KafkaGroup.ConsumerGroup.Join | code/hld/mini_kafka.py:286-292 | A new member shares in a fresh assignment; with the topic missing it is refused and on the list all the same. |
| KafkaGroup.ConsumerGroup.Leave | code/hld/mini_kafka.py:294-299 | The others share the partitions out anew. |
| KafkaGroup.ConsumerGroup.Poll | code/hld/mini_kafka.py:312-332 | Reads every assigned partition in turn up to the limit, falling back to the start offset when retention got there first. |
| KafkaGroup.PollProgress | code/hld/mini_kafka.py:312-332 | Counting what it read as returned, a poll skips nothing between its old and new positions. |
| KafkaGroup.ConsumerGroup.Commit | code/hld/mini_kafka.py:334-343 | The committed offsets become the member's positions and nothing else changes. |
| KafkaRuns.RunsAreGood | code/hld/mini_kafka.py:251-343 | Over every run of joins, leaves, polls that do not fail, commits and whatever others do to the broker, what lies below committed offsets and positions has been returned or is gone from the log. |
| KafkaRuns.NothingBelowCommitIsMissed | code/hld/mini_kafka.py:251-343 | In particular each record below a committed offset was returned by a poll or removed, and each partition has one owner. |
| KafkaRuns.PollFailsIff | code/hld/mini_kafka.py:312-332 | A poll fails if and only if retention has passed the committed offset, and the position if any, of a partition it comes to; both known beforehand. |
| KafkaRuns.FailedPollSkipsIff | code/hld/mini_kafka.py:312-332 | After a failed poll its positions still stand for returned records if and only if everything it read had been returned before. |
| KafkaRuns.CommitAfterFailedPoll | code/hld/mini_kafka.py:312-343 | The next commit carries that into the committed offsets, under the same condition. |
| Chunker.RollingHash.Push | code/hld/chunker_delta_sync.py:57-63 | The value stays the polynomial hash of the last `window` bytes. |
| Chunker.ContentDefinedChunks | code/hld/chunker_delta_sync.py:78-114 | One pass with one rolling hash cuts where the specification cuts. |
| Chunker.ChunksTile | code/hld/chunker_delta_sync.py:96-114 | Chunks tile the data within the size bounds; only the last may be short. |
| Chunker.ChunkingIsLocal | code/hld/chunker_delta_sync.py:96-114 | With `window <= min_size`, or where the hash decides nothing, chunking from a cut point is chunking the rest of the file alone. |
| ChunkLocality.LocalIff | code/hld/chunker_delta_sync.py:96-114 | The chunks behind every cut of every file of bytes are those of the rest alone if and only if `window <= min_size`, every cut is forced (`min_size == max_size`), or every hash calls for one (`avg_size == 1`). |
| ChunkLocality.Counterexample | code/hld/chunker_delta_sync.py:96-114 | For all other parameters: a file of bytes whose first cut is at `max_size` and behind it a cut missed that the rest alone has. |
| Chunker.SharedSuffix | code/hld/chunker_delta_sync.py:96-114 | Two files cut where a common suffix begins have identical chunks from there on. |
| Chunker.ChunkStore.Put | code/hld/chunker_delta_sync.py:146-156 | One block per digest, one more reference. |
| Chunker.ChunkStore.Release | code/hld/chunker_delta_sync.py:164-173 | The block goes with its last reference. |
| LoadBalancer.WeightedRoundRobin.Choose | code/hld/load_balancer.py:113-119 | One step of smooth weighted round robin on the score table. |
| LoadBalancer.RunsAreBalanced | code/hld/load_balancer.py:113-119 | Scores sum to zero and stay above minus the total weight. |
| LoadBalancer.EveryWindowIsFair | code/hld/load_balancer.py:113-119 | Every W consecutive picks choose each backend exactly its weight many times. |
| LoadBalancer.NeverFarAhead | code/hld/load_balancer.py:113-119 | At no time is a backend a whole period ahead of its share. |
| LoadBalancer.FullPeriod | code/hld/load_balancer.py:113-119 | After W picks all scores are back at zero. |
| LoadBalancer.Serve | code/hld/load_balancer.py:113-119 | The loop over the real object makes those picks. |

## Findings

Properties one would expect that the code does not have, each with an input and the exact condition.

| what fails | where | shown by | holds exactly when |
|---|---|---|---|
| Anti-entropy makes two nodes agree on every shared key | code/hld/kv_cluster.py:116-122 | `KvCollision.AntiEntropyOverlooks`: a stand-in forgets its counter with its copy and issues one clock twice; a tombstone prints like the value `None` | they agreed before or the stored texts of the bucket differ (`KvCluster.AntiEntropyAgreesIff`) |
| A Merkle diff sees every difference | code/hld/merkle_tree.py:61-63 | `MerkleTree.TextCanCollide`: `=` in keys or values | the bucket texts differ (`MerkleTree.DiffIsExact`) |
| A failed `poll` loses nothing | code/hld/mini_kafka.py:312-332 | `KafkaRuns.FailedPollSkips`: its positions stay advanced, and the next commit passes records nobody received | everything it read had been returned before (`KafkaRuns.FailedPollSkipsIff`, `KafkaRuns.CommitAfterFailedPoll`); polls fail as `KafkaRuns.PollFailsIff` says |
| A send under a producer id is stored or refused | code/hld/mini_kafka.py:154-157 | `KafkaBroker.RestartedProducer`: acknowledged with an old record and dropped | the number is not the last one the id wrote to the partition (`KafkaBroker.NumberedSend`) |
| An optimistic update never overwrites a `put` | code/fundamentals/concurrency.py:225-229 | `OptimisticStore.PutCanBeLost`: `put` starts again from version 1 | no snapshot can be mistaken for the new entry (`OptimisticStore.PutIsHarmlessIff`) |
| A free read-write lock leaves nobody asleep | code/fundamentals/concurrency.py:97-105 | `ReadWriteLock.AbandonStrandsReader`: a writer whose wait ends in an exception notifies nobody | the step is not the last queued writer giving up while a reader sleeps and no writer is inside (`ReadWriteLock.ReadersServedStep`) |
| A requested ride is offered or ends unfulfilled | code/hld/dispatch_matching.py:198-206 | `Dispatch.DispatchService.RequestRide`: the trip is on record before `encode` refuses the pickup | the pickup is on the map (`DispatchState.NobodyTwice`) |
| A journal replays | code/hld/matching_engine.py:274-282 | `MatchingEngine.FailedCancelBlocksReplay`: a cancel that failed is journalled and fails again | no cancel in it was of an order that did not rest at the time (`MatchingEngine.Replay`) |
| Chunking is local for any window | code/hld/chunker_delta_sync.py:96-114 | `Chunker.LongWindowIsNotLocal`, and `ChunkLocality.Counterexample` for all parameters | `window <= min_size`, `min_size == max_size` or `avg_size == 1` (`ChunkLocality.LocalIff`) |
| An interrupted wait on the buffer wakes somebody else | code/fundamentals/concurrency.py:147-160 | `BoundedBuffer.AbandonStrandsConsumer`: an item and a sleeping consumer, and nobody to run | it had not been notified, or the notification is not needed (`BoundedBuffer.AbandonKeepsIff`) |
| `join` is all or nothing | code/hld/mini_kafka.py:286-292 | `KafkaGroup.ConsumerGroup.Join`: refused for a missing topic, the new member is on the list all the same and is refused as a duplicate later | the topic exists, or the member had joined before |

## Left out

- KvCluster.KVCluster.Put: sibling lists are sets, so the order of `values`, `repaired` and fingerprints' parts is not modelled; the ring order of a key is a parameter, which `ConsistentHashing.HashRing.FullOrderIsPermutation` justifies.
- MatchingEngine.MatchingEngine.Apply: `heapq` heaps are sorted sequences and Order objects are one table from id to record; unique ids and rising sequence numbers are preconditions; `depth` and the Sequencer are not modelled.
- LsmTree.LsmTree.Compact: the Bloom bitset is held as a set of positions; byte counters, amplification figures and false-positive rates are not modelled.
- LruCache.Cache.Get: keys and values are strings and each call reads the clock once.
- TopK.TopK.Add: `heapq` is a sequence with a minimum at its head; the pair order is Python's tuple order.
- Chunker.ContentDefinedChunks: `value & (avg - 1)` is `value % avg`, which is the same for a power of two; `compute_delta`, `fixed_chunks` and MetadataStore are not modelled.
- Dispatch.DispatchService.Search: the geo index is a nearest-first search over exact distances that does not raise; distances and radii are integers; pricing is not modelled. Trip objects are one table from id to record. Each command reads the clock once.
- KafkaBroker.Broker.Append: `md5` is an arbitrary hash, record fields that repeat the partition's own name are dropped, and each call reads the clock once; `lag` is not modelled.
- KafkaGroup.ConsumerGroup.Poll: one step, where the code takes the broker's lock anew for each partition it reads; what others do to the broker happens before or after it.
- KafkaRuns.RunsAreGood: for the reset policy "earliest"; with "latest" records before the first poll are skipped by design.
- OptimisticStore.Store.Update: other threads are an arbitrary function of the entries, applied before each read and each write.
- HybridClock.HybridIsCausal: physical readings are integers of milliseconds.
- LoadBalancer.WeightedRoundRobin.Choose: health probes, ejection, leases and the other strategies are not modelled.
- VersionedStore and LastWriterWinsStore of `logical_clocks.py`, `try_transfer` and the counters of `concurrency.py`, PeriodicLeaderboards: easy members around what is modelled.
- `cron_scheduler.py`: its lease and heap bookkeeping would repeat the shape of the dispatch invariants.
- `cursor_pagination.py` and `circuit_breaker.py`: slices of a sorted list and counters over a window; they would add easier members beside the leaderboard's pages and the round-robin schedule.
- Float rounding, haversine distances, geohash cells, HMAC, JSON and the demonstration `main` functions.
