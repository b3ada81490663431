# ConfigServer: a verified model

ConfigServer decides which configs each log agent receives, caches that decision at several
levels, and brings agents to it by heartbeat diffs. This project models those parts in Dafny
and proves what they keep: over every interleaving of the cache protocols, over every run of
the registry, the heartbeats and the admin operations, and for all inputs of the diff and of
the constraint and selector languages.

`dafny verify dfyconfig.toml` checks the whole project.

## Map

| file | what it models |
|---|---|
| `EpochProtocol.dfy` | the epoch-keyed cache of resolved names: replicas, readers that query step by step, structural and silent writes, pub/sub, lost connections |
| `InvalidationProtocol.dfy` | the two config cache levels under concurrent writers, with atomic lookups |
| `BackfillProtocol.dfy` | the same caches and writers with lookups taken apart into arbitrarily slow readers, and the compare-and-set script |
| `Levels.dfy` | what the cache protocols share: connections and the phases of a writer |
| `Reconcile.dfy` | the periodic pass over the shared cache, and the version backfill of onetime commands |
| `Manager.dfy` | the cache manager of one replica as a class, refined to the store over sequential runs |
| `Store.dfy` | the database, its writes and the resolution query |
| `ResolveKey.dfy` | the key of the resolution cache |
| `Registry.dfy`, `Recency.dfy` | the agent registry (map, linked list, index) and the recency-ordered list it refines |
| `Heartbeat.dfy`, `Onetime.dfy` | the heartbeat diffs, an agent that applies them, FetchConfig, and onetime commands |
| `Fnv.dfy`, `Numbers.dfy` | FNV-1a versions, and the bit arithmetic under them |
| `Diff.dfy` | the line diff of the configuration editor |
| `SemVer.dfy`, `IpSelector.dfy`, `Canary.dfy` | version constraints, IP selectors, canary rollouts |
| `History.dfy` | the admin operations as an undo log |
| `Rollout.dfy` | from the admin's change to the agent's next heartbeat |
| `Text.dfy`, `Wrappers.dfy` | string operations and result types |

## Conventions and hypotheses

* Database rows, caches and queues are maps, sets and sequences. A query result is a map from
  config name to row, since names are primary keys and SQL promises no order.
* Pipeline and instance configs and onetime commands share one row type and are told apart by
  their kind; a handler the source writes out once per kind is one method here.
* Address parsing, text encoding and JSON are the environment's: they are parameters, and
  where a round trip is claimed the JSON codec is assumed to read back the well-formed values
  it writes.
* Agents that ask (the fleet) and share a key hash are assumed to agree in address, version and
  tags. `EpochProtocol.PlainFleetIsSound` derives this when FNV-64a does not collide on the
  fleet's keys, no attribute holds a NUL byte and no tag name an `=`;
  `ResolveKey.EqualsSignCollides` and `ResolveKey.NulCollides` show why the last two matter.
* Versions come from a millisecond clock, so they are positive, below 2^53 (the range in which
  the compare-and-set script's doubles are exact), and never the deletion mark -1. Onetime
  commands stored before versions existed have version 0.
* A resolution runs its queries one by one without a transaction, so each of them may read a
  different database; the names it stores are those its queries found.
* Pub/sub: while a replica's connection is broken, messages to it are lost. The receive error
  flushes its caches, any number of times until the connection is up; the reconnection itself
  flushes nothing. Redis deletes and publishes succeed.

Where the code decides against the expected claim, the model follows the code, and the exact
condition is proved:

* `CreatePipelineConfig` and `CreateInstanceConfig` do not bump the epoch, although a mapping
  may name a config that does not exist yet. A created config joins an agent's names if and only
  if such a mapping was waiting in a matched group (`Manager.NamesAfterWrite`), and a warm entry
  lacks exactly the configs created since it was filled (`Manager.Manager.GetConfigsForAgent`).
  Under concurrency, with all invalidations delivered, it lacks exactly the configs created since
  their rows were looked up (`EpochProtocol.QuietMeansCurrent`), and one of those is assigned if
  and only if its mapping was waiting (`EpochProtocol.MissingWasWaiting`).
* A message published between the last flush of a broken connection and the reconnection is lost
  and never flushed for (`InvalidationProtocol.LostWithoutConnection`). With nothing pending and
  the connection up again an old row can stay in the first level
  (`InvalidationProtocol.LostNoticeLeavesOldRow`); every freshness result names these messages
  among what an entry may lack.
* A onetime command stored without a version is served by the manager with one derived from its
  creation time, by the store with 0. Manager and store agree if and only if no assigned name is
  missing and no assigned command is of that kind (`Manager.ServedIsDelivered`). The version
  backfill belongs to the reconciler, which runs only with Redis.
* The canary list sits under a fixed key, not under an epoch: a cached list lacks a returned
  write if and only if that write overtook its reader between fetch and store
  (`EpochProtocol.CanaryListFreshness`).
* With split lookups a cached row is outdated, with nothing on its way to remove it, if and only
  if the invalidation of a later commit was over before its reader stored it, or its notice was lost
  (`BackfillProtocol.SharedFreshness`, `BackfillProtocol.LocalFreshness`); such a row stays until
  the next write, expiry, higher version or reconcile pass.
* Capacity eviction purges statuses by a NUL prefix that no key of the evicted agent has
  (`Registry.EvictionPurgesNothingOfItsOwn`); the collector's colon prefix also hits agents
  whose id continues the collected one behind a colon (`Registry.CollectSparesStatuses`).
* FetchConfig ignores canaries, so the detour for oversized responses equals inline delivery
  if and only if every pending entry is its stable row's version, or is held already where that
  row is empty (`Heartbeat.TwoPhaseIsInline`).
* A label behind a version ("-beta") never lowers it, against item 11 of Semantic Versioning
  2.0.0. The version equals the one without the label if and only if the label adds no number
  but zeros behind a dot, and is above it otherwise (`SemVer.LabelNeverLowers`).
* Deriving versions for old onetime commands keeps the version caches compare by if and only if
  the row had a version or a positive creation time (`Reconciler.BackfillKeepsCacheVersion`).

A group with a version constraint matches on version alone; the comment above the query still
speaks of tags only.

## Model

| member | source | states |
|---|---|---|
| EpochProtocol.StepKeepsInv | internal/cache/manager.go:719-813 | every step of readers, structural and silent writers, pub/sub and expiry keeps: on a replica's current epoch each query behind an entry, a running resolution or a fetched list read every write whose invalidation has reached the replica |
| EpochProtocol.InvalidationsReplace | internal/cache/manager.go:733-813 | the writer's own bump, a delivered message and a flush each begin a new epoch on their replica and drop its canary list |
| EpochProtocol.StraddlersStoreUnderDeadEpochs | internal/cache/manager.go:941-979 | a reader of whose queries one missed a returned write holds an epoch its replica has left for good, in every continuation of every run |
| EpochProtocol.PlainFleetIsSound | internal/cache/manager.go:767-792 | without NUL bytes, `=` in tag names and hash collisions, agents that share a key hash agree in what resolution looks at |
| EpochProtocol.ReachableEntriesAreFresh | internal/cache/manager.go:767-813 | in every interleaving a reachable entry holds what its queries found, each in a database with every invalidation returned on the replica; a write a query missed is silent, unpublished, queued, or its message was lost and not flushed for |
| EpochProtocol.QuietMeansCurrent | internal/cache/manager.go:805-813 | with no invalidation on its way and none lost, a reachable entry is the current resolution without the configs created since their rows were looked up |
| EpochProtocol.SilentlyBehind | internal/store/gormdb/gormdb.go:428-571 | whatever mix of databases its queries read, an entry that missed only creations and updates up to a moment holds the names of that moment without the configs created since each lookup |
| EpochProtocol.MissingWasWaiting | internal/cache/manager.go:1038-1070 | such a config is missing from the entry, and the agent is assigned it if and only if a mapping in a matched group was waiting when it was created |
| EpochProtocol.CanaryListFreshness | internal/cache/manager.go:823-850 | over every run a cached canary list lacks a returned write if and only if that write overtook its reader, never on the epoch of its fetch; what else it lacks is silent, pending, queued or lost; with none of these it is the rolling canaries |
| EpochProtocol.KeepStoresStaleList | internal/cache/manager.go:832-845 | storing a list leaves out a returned write if and only if such a write was invalidated between fetch and store |
| EpochProtocol.CanaryListCanStayStale | internal/cache/manager.go:823-850 | a run after which an overtaken list is cached although nothing is pending |
| InvalidationProtocol.StepKeepsInv | internal/cache/manager.go:638-756 | every step of writers, lookups, delivery, connection loss and expiry keeps both staleness excuses |
| InvalidationProtocol.StaleEntriesAreExcused | internal/cache/manager.go:638-653 | in every reachable state a stale second-level entry has a writer between its database write and its second-level delete, and a stale first-level entry an unpublished writer, a queued message, or one lost and not flushed for |
| InvalidationProtocol.LookupIsFresh | internal/cache/manager.go:500-532 | a lookup answers with the database row, or its absence, unless the key is being invalidated or its message was lost and not flushed for |
| InvalidationProtocol.WriterPhases | internal/cache/manager.go:638-653 | the key leaves the writer's own first level, then the second, then every connected replica has it queued and every other has missed it |
| InvalidationProtocol.ConnectionSteps | internal/cache/manager.go:733-744 | a breaking connection loses what waits, the flush that follows empties the first level and makes up for it, a reconnection does neither |
| InvalidationProtocol.LookupFills | internal/cache/manager.go:500-532 | a lookup fills the first level with its answer, and the second only from the database and with a positive version |
| InvalidationProtocol.LostWithoutConnection | internal/cache/manager.go:733-744 | a message is lost only with a breaking connection or without one, and only a flush, which empties the first level, makes up for it |
| InvalidationProtocol.LostNoticeLeavesOldRow | internal/cache/manager.go:733-756 | a run in which a message falls between the last flush and the reconnection: nothing is pending, all connections are up, and the old row stays |
| BackfillProtocol.StepKeepsInv | internal/cache/manager.go:638-713 | every step of writers, slow readers, delivery, connection loss and expiry keeps the account of where each later commit's invalidation is |
| BackfillProtocol.ScriptDecides | internal/cache/manager.go:681-696 | the script stores a row if and only if it has a positive version and nothing that decodes to as high a version is cached |
| BackfillProtocol.WriterPhases | internal/cache/manager.go:638-653 | what each phase of a writer removes or announces |
| BackfillProtocol.SharedFreshness | internal/cache/manager.go:701-713 | in every reachable state a second-level entry is older than a commit of its key if and only if such a commit has still to delete it or had deleted it before the entry was stored; otherwise it is the database row |
| BackfillProtocol.LocalFreshness | internal/cache/manager.go:719-756 | a first-level entry is outdated if and only if the notice of a later commit is on its way to the replica, was lost and not flushed for, or had been acted on before the entry was stored; otherwise it is the database row |
| BackfillProtocol.OvertakenStoreStaysStale | internal/cache/manager.go:701-713 | a store by a reader whose row was replaced stays stale over every continuation without a write of the key or its expiry, unless a higher version is stored |
| BackfillProtocol.CachedRowsWereCurrent | internal/cache/manager.go:701-713 | with arbitrarily slow readers every cached row of either level was in the database at the start or committed since |
| BackfillProtocol.VersionsOnlyRise | internal/cache/manager.go:681-696 | until its key is removed a second-level entry stays or is replaced by one of a strictly higher version |
| BackfillProtocol.SlowReaderRevivesOldRow | internal/cache/manager.go:701-713 | the shortest such run: both levels hold the old row with nothing pending |
| Reconciler.Cache.CompareVersions | internal/cache/manager.go:324-334 | the loop over listed rows removes exactly the decodable entries with another version, on both levels, and announces them |
| Reconciler.Cache.CleanupDeleted | internal/cache/manager.go:459-485 | the scan removes exactly the keys of the prefix without a row |
| Reconciler.Cache.ReconcileCache | internal/cache/manager.go:280-375 | the pass leaves exactly the consistent entries; what it removed is gone from this replica's first level too and announced, nothing else is |
| Reconciler.PassIsExact | internal/cache/manager.go:280-375 | of a listed kind exactly the keys stay that have a row and do not decode to another version; unlisted kinds and keys without a config prefix are untouched |
| Reconciler.PassRepairsStaleEntry | internal/cache/manager.go:304-375 | a stale entry left by an overtaken reader goes if and only if its row is gone or has another version |
| Reconciler.PrefixesAreDisjoint | internal/cache/manager.go:53-70 | no key carries two config prefixes, and the lock and agent keys carry none |
| Reconciler.BackfillOnetimeVersions | internal/store/gormdb/gormdb.go:351-369 | every unversioned row gets its creation time or the clock, all others are unchanged |
| Reconciler.BackfillKeepsCacheVersion | internal/cache/manager.go:613-624 | the backfill keeps the version caches compare by if and only if the row had a version or a positive creation time, and is idempotent |
| Manager.Manager.Write | internal/cache/manager.go:983-1112 | store write then invalidation keeps every cache coherent with the new database, whatever is written: exactly the written key leaves both levels, exactly the structural writes begin a new epoch and drop the canary list, a created command without a version gets the clock's; a failed write changes nothing |
| Manager.Manager.GetConfig | internal/cache/manager.go:500-611 | the three-level read returns the database row, with the derived version of an unversioned command, or that there is none; it fills the first level, and the second only from the database and with a positive version |
| Manager.Manager.GetActiveCanaries | internal/cache/manager.go:823-850 | the cached list is the rolling canaries |
| Manager.Manager.Hydrate | internal/cache/manager.go:860-930 | of the names with a row, each is the row with content and version of its rolling canary if that accepts the agent, and otherwise the row, a command with version 0 by its creation time |
| Manager.Manager.GetConfigsForAgent | internal/cache/manager.go:941-979 | cold or warm, exactly the assigned configs except those created since the warm entry was filled, each with content and version of its rolling canary if that accepts the agent and its row otherwise; an error only if the store's query would fail |
| Manager.ServedIsDelivered | internal/cache/manager.go:941-979 | that is the store's direct resolution, names, versions and details, if and only if no assigned name is missing and no served version is derived |
| Manager.UnversionedCommandDiffers | internal/cache/manager.go:605-610 | a command with version 0 and a creation time, which the store and the manager deliver with different versions |
| Manager.Serve | internal/cache/manager.go:941-1112 | over every sequential run of writes, reads, expiries and reconnections each write, question and read is answered as the database of that moment allows |
| Manager.AskedIsDelivered | internal/cache/manager.go:941-979 | in such a run an agent assigned no config created since the epoch began, and no unversioned command, gets the store's resolution |
| Manager.WaitingMappingGoesStale | internal/cache/manager.go:1064-1070 | the smallest database in which a creation without a new epoch changes the resolution |
| Manager.NamesAfterWrite | internal/cache/manager.go:1038-1080 | of the writes that do not bump the epoch only the creation of a config with a waiting mapping changes an agent's names, by that config |
| ResolveKey.WriteKey | internal/cache/manager.go:767-792 | the bytes fed to the hash: address, host identity and version, each ended by a NUL byte, then the sorted tags |
| ResolveKey.SortAscending | internal/cache/manager.go:783-786 | the sorted tags are ascending and a permutation |
| ResolveKey.KeyTextMeaning | internal/cache/manager.go:767-792 | agents without NUL bytes share a key text if and only if address, host id (or else host name), version and the multiset of tag texts agree |
| ResolveKey.OneByteChangesKey | internal/cache/manager.go:767-792 | key texts that differ in one byte have different hashes |
| ResolveKey.KeyDeterminesAttributes | internal/cache/manager.go:780-792 | with no `=` in tag names, if and only if the multisets of tags do |
| ResolveKey.SharedKeySharesNames | internal/store/gormdb/gormdb.go:428-571 | agents with one key text resolve to the same names in every database if and only if they carry the same tags |
| ResolveKey.EqualsSignCollides | internal/cache/manager.go:780-782 | for every agent with `=` in a tag name another agent shares its key text and some database assigns them different configs |
| ResolveKey.NulCollides | internal/cache/manager.go:768-778 | a NUL byte lets agents with other addresses and versions share a key text |
| ConfigStore.Store.AddressGroups | internal/store/gormdb/gormdb.go:468-481 | the address stage selects the groups whose selector accepts the agent, and fails exactly on an unreadable selector |
| ConfigStore.Store.FilterVersions | internal/store/gormdb/gormdb.go:496-522 | the version stage removes exactly the non-default groups whose constraint the agent fails |
| ConfigStore.Store.MatchedGroups | internal/store/gormdb/gormdb.go:428-522 | the staged selection equals the closed form per group and always keeps the default group |
| ConfigStore.StagedIsNames | internal/store/gormdb/gormdb.go:428-571 | queries that see the same groups, tags and mappings find the assigned names whose rows were there when they were looked up |
| ConfigStore.Store.ApplyCanaries | internal/store/gormdb/gormdb.go:573-614 | a config carries content and version of its canary if that is rolling and accepts the agent, and is its row otherwise |
| ConfigStore.Store.GetConfigsForAgent | internal/store/gormdb/gormdb.go:423-617 | the delivery is exactly the assigned configs, each with content and version of its rolling canary if that accepts the agent and its row otherwise |
| ConfigStore.AssignedMeans | internal/store/gormdb/gormdb.go:428-571 | a config is assigned if and only if it exists and is mapped to the default group, or to a group whose version constraint the agent meets, or that has none and shares a tag with the agent or selects its address |
| ConfigStore.FailsMeans | internal/store/gormdb/gormdb.go:468-481 | the query fails exactly on a group's selector, or on the rolling canary of an assigned config, that cannot be read |
| ConfigStore.WriteFails | internal/store/gormdb/gormdb.go:109-145 | a write fails exactly on a taken key and on the deletion of the default group |
| ConfigStore.GroupsAfter | internal/store/gormdb/gormdb.go:109-145 | which groups are there after any write, with which content |
| ConfigStore.TagsAfter | internal/store/gormdb/gormdb.go:149-163 | which tags each group carries after any write |
| ConfigStore.MappingsAfter | internal/store/gormdb/gormdb.go:169-183 | which mappings are there after any write |
| ConfigStore.RemovalUnassigns | internal/store/gormdb/gormdb.go:179-183 | after a removal the config is assigned only through another mapping, every other config as before |
| ConfigStore.AdditionAssigns | internal/store/gormdb/gormdb.go:169-177 | after an addition the config is assigned through the new mapping too |
| ConfigStore.AddThenRemove | internal/store/gormdb/gormdb.go:169-183 | removing a mapping just added restores the database and every agent's configs |
| ConfigStore.DeletedGroupAssignsNothing | internal/store/gormdb/gormdb.go:133-145 | nothing is assigned through a deleted group, nor through one created anew in its name |
| ConfigStore.NewTagsDecide | internal/store/gormdb/gormdb.go:149-163 | new tags alone decide whom an otherwise unconditional group matches, and change no other group |
| ConfigStore.MoreTagsMoreConfigs | internal/store/gormdb/gormdb.go:432-467 | more agent tags never lose a config |
| ConfigStore.CreationChangesNames | internal/store/gormdb/gormdb.go:169-177 | a creation changes an agent's names exactly when a mapping was waiting in a matched group |
| Registry.LruList.InsertFront | internal/cache/manager.go:1143-1145 | links an element behind the sentinel and keeps the ring |
| Registry.LruList.RemoveAt | internal/cache/manager.go:1171 | unlinks an element from any position and keeps the ring |
| Registry.LruList.MoveToFront | internal/cache/manager.go:1136 | the element becomes the first, the others keep their order |
| Registry.AgentRegistry.UpsertAgent | internal/cache/manager.go:1131-1147 | map, list and index stay consistent under the cap, the registry becomes the recency list with the agent in front, and statuses change only by the purge of an eviction |
| Registry.EvictionSparesPlainKeys | internal/cache/manager.go:1184-1191 | with no NUL byte in any status key that purge removes nothing |
| Registry.AgentRegistry.EvictOldest | internal/cache/manager.go:1165-1192 | removes the last agent of the list from all three structures and purges by its NUL prefix |
| Registry.AgentRegistry.EvictStaleAgents | internal/cache/manager.go:1196-1228 | keeps exactly the agents not before the cutoff, in order, and purges exactly the collected prefixes |
| Registry.TableHoldsWhoFoundRoom | internal/cache/manager.go:1444-1454 | over every run of reports the status table holds the keys it began with and those that came while fewer distinct keys than the cap had been seen, and never more than the cap |
| Registry.TableIsUpToDate | internal/cache/manager.go:1444-1454 | each with its last report: updates are never dropped |
| Registry.Replay | internal/cache/manager.go:1131-1228 | after any run the class holds the value that the laws of recency speak of |
| Registry.CollectSparesStatuses | internal/cache/manager.go:1218-1227 | collecting one agent spares all statuses of another if and only if neither id with its colon starts the other |
| Registry.StatusKeyIsInjective | internal/cache/manager.go:1116-1118 | without colons in ids and names no two statuses share a key |
| Registry.PlainIdsArePurgedAlone | internal/cache/manager.go:1116-1118 | ids without a colon are purged alone |
| Registry.ColonIdsArePurgedTogether | internal/cache/manager.go:1218-1227 | collecting `a` purges a status of `a:b` |
| Registry.EvictionPurgesNothingOfItsOwn | internal/cache/manager.go:1184-1191 | no status key of the evicted agent has the purged prefix |
| Recency.RunIsOrdered | internal/cache/manager.go:1131-1211 | over every run: at most 100000 agents, no id twice, most recent upsert first, each with its last state |
| Recency.WhoIsListed | internal/cache/manager.go:1131-1211 | a listed id was upserted and not collected since; one upserted, not collected and followed by fewer distinct ids than the cap is listed; without collections that is exactly who is |
| Recency.EvictsLeastRecent | internal/cache/manager.go:1140-1142 | a new agent at capacity displaces exactly the least recently upserted one |
| Recency.CollectKeepsFresh | internal/cache/manager.go:1201-1211 | collection keeps exactly the agents heard of since the cutoff |
| Heartbeat.IndexIsLastReport | internal/server/agent/handler.go:451-457 | the index knows exactly the reported names, each with the version reported last |
| Heartbeat.DiffConfigs | internal/server/agent/handler.go:126-153 | the response holds the outdated non-empty configs in order and one deletion, version -1, for each reported name without content |
| Heartbeat.DiffIsDistinct | internal/server/agent/handler.go:126-153 | at most one entry per name |
| Heartbeat.HeartbeatConverges | internal/server/agent/handler.go:106-186 | one applied diff brings any agent to exactly the assigned non-empty configs at server versions, and to their contents |
| Heartbeat.OutdatedIsReplaced | internal/server/agent/handler.go:126-153 | one heartbeat brings a config held at another version to the assigned version and content |
| Heartbeat.NextHeartbeatIsEmpty | internal/server/agent/handler.go:126-153 | a converged agent gets an empty diff |
| Heartbeat.StripOversized | internal/server/agent/handler.go:241-265 | details are stripped and the flag set exactly above 262144 bytes |
| Heartbeat.TotalBytesAdds | internal/server/agent/handler.go:245-250 | the counted bytes are additive over the list and are the length of each detail |
| Heartbeat.FetchBringsStable | internal/server/agent/handler.go:291-314 | an agent that applies the answer has every name it asked for at its stable row, gone if there is none, untouched if it is empty, and no other name touched |
| Heartbeat.TwoPhaseIsInline | internal/server/agent/handler.go:241-337 | the detour reaches the inline state if and only if every pending entry is its stable row's version or, where that row is empty, held already |
| Heartbeat.StrippedAsksTheSame | internal/server/agent/handler.go:241-265 | stripping changes neither deletions nor requests |
| Heartbeat.CanaryIsLostInTwoPhases | internal/server/agent/handler.go:291-314 | any canary of another version on a pending config is lost in the detour: the agent ends on the stable row, or without one if that is empty |
| Onetime.DiffCommands | internal/server/agent/handler.go:188-239 | cancellations of deleted commands, then the due deliveries in order |
| Onetime.DeadlineDecides | internal/server/agent/handler.go:212-239 | a stored command is sent if and only if it has no deadline or the clock has not passed it, and the agent reports another hash, none, or its full state; it carries its own deadline and its content with the generation |
| Onetime.LateIsNeverDelivered | internal/server/agent/handler.go:214-216 | over every run, once the clock has passed a deadline no heartbeat delivers a command with it |
| Onetime.OneVerdictPerName | internal/server/agent/handler.go:188-239 | cancelled if and only if reported and deleted, delivered if and only if due: never both, and a deadline never cancels |
| Onetime.OneVerdictInRuns | internal/server/agent/handler.go:188-239 | the same at every heartbeat of every run |
| Onetime.ReportIsLastSent | internal/server/agent/handler.go:188-239 | over every run the agent reports a name if and only if a command of that name was sent and not cancelled since, with the version of the one sent last |
| Onetime.DeliveredStaysSilent | internal/server/agent/handler.go:222-232 | over every run without its deletion a delivered command stays reported and no ordinary heartbeat mentions it |
| Onetime.SilentOnlyForSameHash | internal/server/agent/handler.go:222-232 | at any heartbeat of any run a stored command is passed over if and only if it is past its deadline, or what the agent was sent last under the name has its hash |
| Onetime.SentLastIsEarlier | internal/server/agent/handler.go:216-232 | what was sent last is the stored command itself or one after whose sending the stored one was created |
| Onetime.RecreatedIsResent | internal/server/agent/handler.go:214-239 | a recreated command is sent again if and only if it is in time and the hashes differ |
| Onetime.GenerationShows | internal/server/agent/handler.go:476-499 | recreation with the same content changes the delivered bytes if and only if the content is a JSON object |
| Onetime.GenerationKeepsContent | internal/server/agent/handler.go:476-499 | the generation mark is the only change to the content |
| Fnv.OnetimeContentHash | internal/server/agent/handler.go:504-515 | the loop computes the masked FNV-1a fold |
| Fnv.HashIsFold63 | internal/server/agent/handler.go:504-515 | masking at the end equals folding modulo 2^63 all along; the version is never negative |
| Fnv.HashVector | internal/server/agent/handler.go:504-515 | the published test vector of the hash |
| Fnv.StepIsBijection | internal/server/agent/handler.go:504-515 | each step on 63-bit words has a two-sided inverse |
| Fnv.CommonTailCancels | internal/server/agent/handler.go:504-515 | a common tail neither creates nor hides a collision |
| Fnv.OneByteChangesHash | internal/server/agent/handler.go:504-515 | details differing in exactly one byte never share a version |
| LineDiff.FillTable | webui/src/pages/ConfigsPage.tsx:51-54 | the table holds the recurrence everywhere |
| LineDiff.BestIsUpperBound | webui/src/pages/ConfigsPage.tsx:52-54 | no common subsequence is longer than the table entry |
| LineDiff.Traceback | webui/src/pages/ConfigsPage.tsx:55-66 | the walk terminates, reproduces both sides, keeps as many lines as the last entry says, and resolves ties so that removed lines come first |
| LineDiff.ComputeDiff | webui/src/pages/ConfigsPage.tsx:47-67 | without added lines the old text, without removed lines the new one, a longest common subsequence is kept, and in a changed stretch the removed lines come first |
| LineDiff.ShortestScript | webui/src/pages/GroupsPage.tsx:26-46 | such a diff is a shortest edit script |
| Text.JoinSplit | webui/src/pages/ConfigsPage.tsx:48-49 | splitting a text loses nothing |
| SemVer.VersionSegments | internal/model/semver.go:169-189 | the loop reads the numeric prefix of the segments |
| SemVer.CompareVersions | internal/model/semver.go:142-165 | the loop computes the recursive comparison |
| SemVer.CompareMeaning | internal/model/semver.go:142-165 | zero exactly on lists that agree after zero padding, negative exactly when the first disagreement is smaller |
| SemVer.ComparePreorder | internal/model/semver.go:142-165 | a total preorder across lengths |
| SemVer.ConjunctionIsConvex | internal/model/semver.go:62-74 | an AND group accepts an interval of versions |
| SemVer.ValidatedMeansTree | internal/model/semver.go:42-101 | a validated constraint is evaluated as its OR-of-ANDs tree and never reaches the parse error |
| SemVer.OperatorMeaning | internal/model/semver.go:104-138 | for the texts themselves: `<v` matches exactly the versions below v at the first disagreement, and so for the other five operators |
| SemVer.BoundLaws | internal/model/semver.go:104-138 | `>=` is the complement of `<` and `<=` of `>`, both together are `==`, lower bounds are upward closed and upper bounds downward |
| SemVer.CommaIsAnd | internal/model/semver.go:62-74 | a comma between clauses is AND, whatever blanks surround it |
| SemVer.BarsAreOr | internal/model/semver.go:42-60 | double bars between groups are OR, blank groups aside |
| SemVer.VersionReadsBack | internal/model/semver.go:169-189 | a version written as dotted numbers, with or without `v`, reads back as its numbers |
| Text.DecimalPlaces | internal/model/semver.go:180-187 | numbers are read by decimal places |
| SemVer.PrintRoundTrip | internal/model/semver.go:42-138 | a printed tree is valid, reads back as itself and matches what it means |
| SemVer.ReprintKeepsMeaning | internal/model/semver.go:42-138 | every tree the parser yields can be printed so: printing what was read gives the same tree and the same matches |
| SemVer.LabelNeverLowers | internal/model/semver.go:142-189 | a labelled version is equal to the one without the label if and only if the label adds no number but zeros, above it otherwise, and never below |
| SemVer.PlainLabelIsLost | internal/model/semver.go:169-189 | a label without a dot, like "-beta" behind "1.0.0", compares equal |
| SemVer.NumberedLabelRaises | internal/model/semver.go:169-189 | a numbered label, like "-beta.2" behind "1.0.0", compares above |
| IpSelector.AcceptedIsInterval | internal/model/ip_selector.go:94-158 | every accepted rule denotes one interval of the address order |
| IpSelector.CidrIsItsBlock | internal/model/ip_selector.go:95-101 | a CIDR of length n matches exactly the 2^(w-n) addresses of its block (RFC 4632 section 3.1, RFC 4291 section 2.3) |
| IpSelector.CidrText | internal/model/ip_selector.go:95-101 | `a/n` matches exactly the zone-free addresses of a's family that share its first n bits, and is refused beyond the family's width |
| IpSelector.RangeText | internal/model/ip_selector.go:102-121 | `a-b` matches exactly the addresses from a to b, and is refused if a is above b |
| IpSelector.ShortRangeText | internal/model/ip_selector.go:128-145 | `a-o` matches exactly the addresses of a's /24 from a up to the last octet o |
| IpSelector.AddressText | internal/model/ip_selector.go:122-126 | an address matches itself alone |
| IpSelector.ShortRangeStaysInBlock | internal/model/ip_selector.go:128-145 | a short range stays in its /24 |
| IpSelector.NormalizeIPSelector | internal/model/ip_selector.go:30-48 | the loop computes the normal form or the first invalid item |
| IpSelector.NormalizeIsCanonical | internal/model/ip_selector.go:30-48 | normalisation is idempotent and keeps the matched set |
| IpSelector.StoredSelector | internal/model/ip_selector.go:19-84 | parse after marshal is the normal form, and the stored text matches an address if and only if one of the typed rules does |
| Canary.EligibleIsTargetedInBucket | internal/model/canary.go:119-164 | eligibility is targeting and a bucket below the percentage, errors included |
| Canary.EligibleMeaning | internal/model/canary.go:77-164 | an agent gets the canary if and only if it passes each selector that is set, any one tag being enough, and its bucket is below the percentage; the error cases exactly |
| Canary.RolloutGrows | internal/model/canary.go:141-164 | raising the percentage never removes an agent; zero and a hundred are nobody and every targeted agent |
| Canary.Bucket | internal/model/canary.go:43-72 | a bucket below a hundred exists exactly for agents with an identity |
| Canary.BucketFollowsIdentity | internal/model/canary.go:43-72 | the bucket is the 32-bit FNV-1a hash of the instance id, else the host id, else the host name, then NUL and the config's name, modulo a hundred |
| Canary.Fold32Vector | internal/model/canary.go:66-71 | the published test vector of that hash |
| Canary.StoredAgentMatches | internal/server/admin/handler.go:2371-2428 | an agent's stored record is matched as the agent itself was |
| Canary.ClassifyMeaning | internal/server/admin/handler.go:2371-2428 | the category of an agent says what eligibility, targeting and identity say |
| Canary.GetCanaryStats | internal/server/admin/handler.go:2371-2428 | the four counts partition the agents: the canary count is the number that eligibility accepts, the unknown ones have no identity, the others are left out by a selector |
| History.AdminHandler.CreateConfig | internal/server/admin/handler.go:251-299 | a new name gets the content at the clock's version and one log entry, nothing else changes; a taken name is confirmed or a conflict and changes nothing |
| History.AdminHandler.UpdateConfig | internal/server/admin/handler.go:315-351 | the content becomes current, one entry with the replaced content is appended, no other config or canary changes; a repetition changes nothing |
| History.AdminHandler.DeleteConfig | internal/server/admin/handler.go:353-373 | the config and its mappings are gone, its content is in the log, all else is as before |
| History.AdminHandler.EditCanary | internal/server/admin/handler.go:2012-2107 | the canary carries the payload, keeps its status, and gets a new version exactly when its content changes |
| History.AdminHandler.SetCanaryStatus | internal/server/admin/handler.go:2196-2227 | only the status of the one canary changes, and only from the required one |
| History.AdminHandler.PromoteCanary | internal/server/admin/handler.go:2234-2303 | the canary's content is current, the replaced one is in the log, the canary is gone, all else is as before |
| History.AdminHandler.RollbackConfig | internal/server/admin/handler.go:1517-1585 | it succeeds exactly on this config's entries with a content; that content is current again, also for a deleted config, and what it replaced is in the log |
| History.AdminHandler.HandleAll | internal/server/admin/handler.go:251-373 | over every run of the handlers each content that was current at any point is current at the end or one rollback away |
| History.NoContentIsLost | internal/server/admin/handler.go:251-373 | over every run each content ever current is current or one rollback away |
| History.ContentsStayValid | internal/server/admin/handler.go:251-373 | over every run no empty or refused content becomes current or a canary, not even by a rollback |
| History.RollbackUndoesItself | internal/server/admin/handler.go:1517-1585 | rolling back to the entry a rollback wrote restores the content |
| History.RepetitionIsNeutral | internal/server/admin/idempotency_test.go:47-148 | repeating any request but a rollback changes neither contents, versions nor the log |
| History.PauseThenResume | internal/server/admin/handler.go:2184-2227 | pausing and resuming a rolling canary restores the state |
| History.PromotionShowsCanaryToAll | internal/server/admin/handler.go:2229-2303 | promotion delivers the canary's content to every agent assigned the config, and leaves the content of the canary's agents as it was |
| History.PauseWithdrawsCanary | internal/server/admin/handler.go:2184-2188 | while paused every agent receives the stable config |
| History.AbortWithdrawsCanary | internal/server/admin/handler.go:2309-2336 | ending a canary gives every agent the stable config and lets another start |
| History.CanaryRefuses | internal/server/admin/handler.go:1896-2227 | a canary refuses a second one, a percentage outside 0 to 100 or while it does not roll, an edit once it has ended, and a status change from any but the required status |
| History.DeletedNameStartsUnmapped | internal/server/admin/handler.go:353-373 | a deleted config is assigned to nobody, nor is its name when created anew |
| Rollout.CanaryReachesAgent | internal/store/gormdb/gormdb.go:597-612 | an agent the rolling canary accepts has its content and version after one heartbeat, whatever other version it held, on the store's and the manager's answer |
| Rollout.OthersKeepStable | internal/store/gormdb/gormdb.go:597-612 | any other agent has the stable version after one |
| Rollout.WithdrawnIsRemoved | internal/server/agent/handler.go:126-153 | a config that is deleted or leaves its last group is gone from every agent after its next heartbeat |
| Rollout.UpdateIsDelivered | internal/server/admin/handler.go:315-351 | agents receive an accepted update at the clock's version |
| Rollout.RollbackIsDelivered | internal/server/admin/handler.go:1517-1585 | and a restored content |
| Rollout.CreationIsDelivered | internal/server/admin/handler.go:251-299 | and a created config whose mapping waited |
| Rollout.StartIsDelivered | internal/server/admin/handler.go:1896-2010 | a started canary is offered at once with the payload's selectors and percentage |
| Rollout.EditIsDelivered | internal/server/admin/handler.go:2012-2107 | an edit of a rolling canary takes effect at once |
| Rollout.PercentIsDelivered | internal/server/admin/handler.go:2135-2183 | a new percentage alone decides which targeted agents receive the canary |
| Rollout.PromotionIsDelivered | internal/server/admin/handler.go:2234-2303 | promotion gives all assigned agents the canary's content, at a new version if the stable content was another |

## Left out

- ConfigStore.Store.GetConfigsForAgent: delivers a map by name, so the order of rows, which SQL leaves open, is not stated.
- EpochProtocol.ReachableEntriesAreFresh: assumes that publishing succeeds; a publish error is only logged by the code and leaves peers to the entry's expiry.
- InvalidationProtocol.StaleEntriesAreExcused: a lookup is one step, which BackfillProtocol does without; assumes that Redis deletes and publishes succeed; the fallback expiry after a failed delete is not modelled.
- IpSelector.AcceptedIsInterval: takes the text syntax of addresses from the environment's parser; zoned addresses are in no block, as in Go's netip.
- Heartbeat.FetchBringsStable: the part of FetchConfig for onetime commands, which returns their details by name, is not modelled.
- History.AdminHandler.SetCanaryStatus: the audit log and the requesting user are not part of the state.
- History.AdminHandler.EditCanary: the payload's selectors arrive in stored form; their validation is in the selector model.
- History.AdminHandler.PromoteCanary: a failing delete of the canary record, which the code only logs, is not modelled.
- Registry.AgentRegistry.UpsertAgent: the mirror of agents and statuses in Redis, with its lifetimes, is not modelled.
- Singleflight, freecache internals, wall-clock lifetimes and cluster routing: expiry and eviction are nondeterministic removals.
- The reconcile lock's renewal and loss: the pass is modelled as one that completes.
- HTTP, protobuf and JSON plumbing, sessions, passwords, mail, roles, metrics and configuration loading.
- Groups and onetime commands in the history: group rollbacks are not full undos, and onetime rollback recreates the command.
- Agreement between the admin group filter and delivery: the two use different rules.
- Freedom of FNV from collisions beyond one byte, and the uniformity of rollout buckets.
- The other user-interface components.
