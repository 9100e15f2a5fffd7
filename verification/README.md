# Verified model of the RKN checker's blocking index and its updater

The checker answers one question, "is this host blocked, and by which rule?", from an index that
is rebuilt every time a registry is downloaded. This project models the index (radix tree, Bloom
filter, in-memory store), the machinery that keeps it up to date (scheduler, client) and the parser
that feeds it, and proves that the fast structures answer what a plain scan of the registry would
answer, for every registry, every name and every interleaving.

`dafny verify dfyconfig.toml` checks everything.

## How it is organised

| file | what it models |
|---|---|
| `Prelude.dfy`, `GoStrings.dfy` | optional values; splitting, joining and suffixes of Go strings |
| `Domain.dfy` | domain checks, rules, registry entries, the registry object |
| `Reference.dfy` | the plain meaning of a registry: one scan, and what that scan reports |
| `Trie.dfy`, `RadixTree.dfy` | the radix tree as a value with its laws, and on the heap with in-place splits |
| `BloomFilter.dfy` | the packed bit array and its probes |
| `StoreIndex.dfy`, `MemoryStore.dfy` | what an update builds, and the store object |
| `StoreConcurrency.dfy` | the store under concurrent lookups, statistics, updates and clears, step by step |
| `RegistryParser.dfy` | CSV rows to entries, and entries to rules |
| `RegistryClient.dfy` | preference order and failover over sources |
| `Backoff.dfy`, `UpdateHistory.dfy`, `Scheduler.dfy` | retries, counters and whole runs over the client and store objects |
| `SchedulerLifecycle.dfy` | the scheduler under any interleaving of its calls and channels |
| `SchedulerRuns.dfy` | that the interleaved scheduler does what the sequential one does, both ways |

A Go string is a sequence of bytes; it is written here with one `char` for each byte. The heap tree
carries its shape as a ghost value, so each heap method is proved equal to an operation on shapes,
and the laws (finite map, canonical form, uniqueness) are proved about shapes. `hide` appears in
some bodies to keep definitions away from the solver where a proof does not need them.

## Where the code differs from what one might expect

The model follows the code. Each difference is proved, with the exact condition.

- The store's wildcard lookup never matches the bare domain, although `BlockingRule.Matches` does:
  `Reference.VerdictIsSomeRule` says exactly which matching rules block,
  `Reference.BareDomainIsNotBlocked` gives the family of inputs that differ.
- URL-path rules never block: the store asks them about an empty URL
  (`StoreIndex.NothingMatchesTheEmptyURL`, `MemoryStore.MatchPatterns`).
- `orderSources` drops every source but the last among those that bear the last successful name.
  `RegistryClient.OrderedIsPermutation` says when the order is a permutation, and
  `RegistryClient.FailoverReachesEverySource` when failover still reaches every source: if and only if
  that name is empty or all sources bearing it are one and the same. It matters, because every official
  source reports the same name (`internal/infrastructure/registry/official_source.go:84-86`).
- A wildcard on a single label, or on a base over 253 bytes, is accepted by the parser and silently
  yields no rule (`RegistryParser.AcceptedEntryBecomesRule`, both directions).
- An address with a port is recognised as an address and then refused
  (`RegistryParser.AddressWithPortIsRefused`).
- A scheduler works once: after a returned `Stop` a second `Start` begins an update that nothing
  waits for and whose goroutine never finishes but panics where it would
  (`SchedulerLifecycle.RestartRunsAndPanics`, over all continuations).
- The repository's README speaks of a filter of 10M bits and 7 hash functions; the code sizes the
  filter anew for each registry and keeps the probe count within 1 to 10, and so does the model.

## Model

| member | source | states |
|---|---|---|
| GoStrings.JoinSplit | internal/infrastructure/storage/memory_store.go:51-53 | joining the parts of a split gives the string back, for every string and separator |
| GoStrings.SplitJoin | internal/infrastructure/storage/memory_store.go:51-53 | splitting joined separator-free parts gives the parts back |
| GoStrings.SplitAt | internal/infrastructure/storage/radix_tree.go:169 | a split may be cut at any separator of the string |
| GoStrings.SplitMembers | internal/infrastructure/registry/parser.go:202 | the parts of a split are exactly the separator-free stretches between separators or ends |
| GoStrings.SuffixLoop | internal/infrastructure/storage/radix_tree.go:169-172 | the Split/Join loop tests exactly the strings p with "."+p a suffix, empty labels included, in strictly decreasing length |
| Tries.KeysAreFound | internal/infrastructure/storage/radix_tree.go:108-136 | a search finds a value exactly for the keys spelled by the labels down to a terminal node |
| Tries.LookupInsert | internal/infrastructure/storage/radix_tree.go:42-106 | after an insert its own key finds the new value and every other key finds what it found before, through all three edge cases |
| Tries.LookupInsertOnEdge | internal/infrastructure/storage/radix_tree.go:64-105 | the same law for the three cases of a shared edge: descend, key ends inside the edge, fork |
| Tries.SplitAtKeyLookup | internal/infrastructure/storage/radix_tree.go:71-84 | after a split at the key's end the key is found and everything below the old edge is found as before |
| Tries.ForkLookup | internal/infrastructure/storage/radix_tree.go:86-105 | after a fork the new key is found and everything below the old edge is found as before |
| Tries.CanonicalInsert | internal/infrastructure/storage/radix_tree.go:42-106 | inserts keep the shape canonical: non-empty labels filed by first byte, every inner node terminal or branching |
| Tries.InsertUpdatesContents | internal/infrastructure/storage/radix_tree.go:42-106 | insertion is update of the finite map |
| Tries.SomeKeyBelow | internal/infrastructure/storage/radix_tree.go:146-166 | below every edge of a canonical shape there is a terminal node |
| Tries.ReachesIffKeyBelow | internal/infrastructure/storage/radix_tree.go:138-166 | for a non-empty prefix the descent succeeds exactly when some stored key starts with it |
| Tries.LabelNotShorter | internal/infrastructure/storage/radix_tree.go:42-106 | two canonical nodes with equal answers cannot disagree on how long an edge label is |
| Tries.CanonicalIsUnique | internal/infrastructure/storage/radix_tree.go:42-106 | a canonical shape is determined by the answers it gives |
| Tries.RunRefinesMap | internal/infrastructure/storage/radix_tree.go:34-106 | after any sequence of Insert and Clear the tree is canonical and stands for the map the same sequence builds |
| Tries.SameKeysSameShape | internal/infrastructure/storage/radix_tree.go:42-106 | two canonical trees, with values of any two types, agree in labels, branching and terminal nodes exactly when they hold the same set of keys |
| Tries.ShapeDependsOnKeys | internal/infrastructure/storage/radix_tree.go:34-106 | two sequences of Insert and Clear leave the same shape exactly when they leave the same key set, whatever the order and the values |
| Tries.ShapeIndependentOfHistory | internal/infrastructure/storage/radix_tree.go:34-106 | with values: two sequences leave the same tree, node for node, exactly when they leave the same map |
| RadixTrees.RadixNode.LowerHalf | internal/infrastructure/storage/radix_tree.go:72-75 | the fresh node of a split takes over the child table, flag and value, and the nodes below, of the old child |
| RadixTrees.RadixNode.OnlyChildChanged | internal/infrastructure/storage/radix_tree.go:66-68 | if only one child's subtree was written to and it gained only new nodes, the siblings are untouched and still disjoint from it |
| RadixTrees.RadixTree.constructor | internal/infrastructure/storage/radix_tree.go:27-32 | a new tree is valid and empty |
| RadixTrees.RadixTree.Insert | internal/infrastructure/storage/radix_tree.go:34-40 | updates the map at a non-empty key, ignores the empty key, keeps the tree valid (no sharing, no cycles, canonical, size = number of keys) |
| RadixTrees.RadixTree.InsertInto | internal/infrastructure/storage/radix_tree.go:42-62 | the heap recursion yields the inserted shape, writes only inside the node's own subtree, allocates the rest, and adds one to the size exactly for a new key |
| RadixTrees.RadixTree.InsertBelow | internal/infrastructure/storage/radix_tree.go:64-105 | the same below a shared edge |
| RadixTrees.RadixTree.SplitEdge | internal/infrastructure/storage/radix_tree.go:71-84 | overwriting the child in place gives the split shape and keeps ownership disjoint |
| RadixTrees.RadixTree.ForkEdge | internal/infrastructure/storage/radix_tree.go:86-105 | overwriting the child in place gives the forked shape and keeps ownership disjoint |
| RadixTrees.RadixTree.Search | internal/infrastructure/storage/radix_tree.go:108-118 | returns the value stored under the key, and fails for every other key and for the empty one |
| RadixTrees.RadixTree.FindNode | internal/infrastructure/storage/radix_tree.go:120-136 | the node found carries what the shape holds for the rest of the key |
| RadixTrees.RadixTree.HasKeyPrefix | internal/infrastructure/storage/radix_tree.go:138-144 | true exactly for the empty prefix or one that some stored key starts with |
| RadixTrees.RadixTree.MatchesWildcard | internal/infrastructure/storage/radix_tree.go:168-179 | hits exactly when some stored key is a dot-suffix, and returns the value of the longest such key |
| RadixTrees.RadixTree.Size | internal/infrastructure/storage/radix_tree.go:181-183 | the number of distinct keys |
| RadixTrees.RadixTree.LongestCommonPrefix | internal/infrastructure/storage/radix_tree.go:185-197 | the loop computes the longest common prefix |
| RadixTrees.RadixTree.Clear | internal/infrastructure/storage/radix_tree.go:199-202 | replaces the tree by a fresh empty one |
| RadixTrees.EqualKeysEqualShapes | internal/infrastructure/storage/radix_tree.go:22-25 | two valid heap trees hold the same keys exactly when they have the same shape up to values |
| RadixTrees.EqualMapsEqualShapes | internal/infrastructure/storage/radix_tree.go:22-25 | with values: two valid heap trees have the same contents exactly when they have the same shape |
| RadixTrees.LcpIsMaximal | internal/infrastructure/storage/radix_tree.go:191-196 | agreement on n bytes and on no further one determines the common prefix |
| RadixTrees.WildcardAnswerIsUnique | internal/infrastructure/storage/radix_tree.go:168-179 | at most one answer to a wildcard lookup is right |
| RadixTrees.FirstRoundIsLongest | internal/infrastructure/storage/radix_tree.go:171-176 | the first hit of the loop is the longest stored dot-suffix |
| RadixTrees.NoRoundNoHit | internal/infrastructure/storage/radix_tree.go:171-178 | if no round hits, no stored key is a dot-suffix |
| BloomFilters.MasksAreDisjoint | internal/infrastructure/storage/bloom_filter.go:46-47 | different bit indexes select different bits of a word |
| BloomFilters.SetBit | internal/infrastructure/storage/bloom_filter.go:47 | or-ing a mask sets its bit and changes no other bit of the word |
| BloomFilters.SetPosition | internal/infrastructure/storage/bloom_filter.go:45-47 | one word update adds exactly one position to the packed set |
| BloomFilters.Index | internal/infrastructure/storage/bloom_filter.go:44 | under wrapping 64-bit arithmetic every probe stays below the size |
| BloomFilters.ProbesAre | internal/infrastructure/storage/bloom_filter.go:43-44 | an item's positions are those of the exact sums h1 + i*h2 for i below k, wrapped to 64 bits once, modulo the size |
| BloomFilters.DimensionsAreNearest | internal/infrastructure/storage/bloom_filter.go:14-29 | the bit count is the computed one, the probe count the nearest to the computed one among 1 to 10, and no items count as one million |
| BloomFilters.BloomFilter.constructor | internal/infrastructure/storage/bloom_filter.go:14-39 | if the sizing fits for the given item count, a new filter is empty, with the sizes computed for that count, its probe count in 1..10 and enough words |
| BloomFilters.BloomFilter.Add | internal/infrastructure/storage/bloom_filter.go:41-49 | adds exactly the item's positions and clears none |
| BloomFilters.BloomFilter.Contains | internal/infrastructure/storage/bloom_filter.go:51-62 | true exactly when all the item's positions are set |
| BloomFilters.BloomFilter.Clear | internal/infrastructure/storage/bloom_filter.go:76-80 | leaves no position set |
| BloomFilters.RunIsUnion | internal/infrastructure/storage/bloom_filter.go:41-80 | after any run the set positions are exactly those of the items added since the last Clear |
| BloomFilters.NoFalseNegative | internal/infrastructure/storage/bloom_filter.go:41-62 | no item added since the last Clear is ever reported absent |
| Domain.ValidDomainIsLabels | internal/domain/url.go:39-68 | a domain is valid exactly when it is two or more labels joined by dots, at most 253 bytes long; a label has 1 to 63 bytes and no hyphen at either end |
| Domain.MatchesIff | internal/domain/blocking.go:91-113 | a rule matches a complete URL exactly when its name is the pattern (domain, address, SNI), is the wildcard's base or something, a dot and the base, or begins with the pattern (path) |
| Domain.RuleComesFromEntry | internal/domain/registry.go:51-72 | a rule carries its entry's kind, pattern and paths, and exists only for values a new entry of that kind may have |
| Domain.NewEntryWithoutRule | internal/domain/registry.go:21-49 | a new entry yields no rule exactly when it passed only by its leading `*.` and its name, or the base of a wildcard, is no valid domain |
| Reference.RuleIff | internal/domain/registry.go:51-72 | an entry has a rule exactly when it is a valid domain or SNI name, a wildcard on a valid domain, a valid address or a non-empty URL; the rule then carries its kind, value and paths |
| Domain.Registry.AddEntry | internal/domain/registry.go:102-110 | appends a complete entry, refuses a nil or incomplete one without any change, and keeps the count in step with the entries |
| Reference.ScanMeaning | internal/infrastructure/storage/memory_store.go:101-135 | one pass finds the last exact entry, the last IP entry and the last entry with the longest covering base |
| Reference.VerdictMeaning | internal/infrastructure/storage/memory_store.go:65-87 | a verdict is the rule of the last exact entry, else of the last IP entry, else of the longest covering wildcard; no verdict means no entry speaks of the name |
| Reference.VerdictIff | internal/infrastructure/storage/memory_store.go:90-135 | a name is blocked exactly when some entry with a rule lists it: as it is, or for a wildcard by ending in a dot and its base |
| Reference.BlocksIsSpeaking | internal/domain/blocking.go:91-113 | an entry speaks of a name exactly when its rule matches it, is no path rule and is no wildcard on its own base |
| Reference.VerdictIsSomeRule | internal/domain/blocking.go:91-113 | a name is blocked exactly when some rule's `Matches` holds on it, path rules and wildcards on their own base excepted |
| Reference.BareDomainIsNotBlocked | internal/domain/blocking.go:101-103 | for every valid base, the wildcard's rule matches the base and the verdict does not block it |
| StoreIndex.DomainMapIsScan | internal/infrastructure/storage/memory_store.go:107-110 | the domain map holds for each name what the scan reports as last exact entry |
| StoreIndex.IPMapIsScan | internal/infrastructure/storage/memory_store.go:120-122 | the same for addresses |
| StoreIndex.WildcardMapIsScan | internal/infrastructure/storage/memory_store.go:112-118 | the longest dot-suffix in the wildcard map is the scan's longest cover |
| StoreIndex.IndexGivesVerdict | internal/infrastructure/storage/memory_store.go:65-77 | looking in domains, addresses and wildcards in turn gives the verdict of the scan |
| StoreIndex.NoFilterKeyNoVerdict | internal/infrastructure/storage/memory_store.go:47-63 | a name none of whose tested strings was added to the filter has no verdict |
| StoreIndex.EmptyNameHasNoVerdict | internal/infrastructure/storage/memory_store.go:40-42 | answering the empty name without a lookup is right |
| StoreIndex.NothingMatchesTheEmptyURL | internal/infrastructure/storage/memory_store.go:79-85 | no rule matches the empty URL the path branch asks about |
| StoreIndex.DomainKeys | internal/infrastructure/storage/memory_store.go:108-133 | the domain map has one key for each distinct name of a valid Domain or SNI entry |
| StoreIndex.WildcardKeys | internal/infrastructure/storage/memory_store.go:112-117 | one key for each distinct base of a valid wildcard |
| StoreIndex.IPKeys | internal/infrastructure/storage/memory_store.go:120-121 | one key for each distinct address of a valid entry |
| StoreIndex.HostKeys | internal/infrastructure/storage/memory_store.go:124-129 | one key for each distinct non-empty host of a path entry |
| StoreIndex.HostMapInOrder | internal/infrastructure/storage/memory_store.go:124-130 | the host map holds for each host the rules of its path entries, in entry order |
| StoreIndex.CountsAreBounded | internal/infrastructure/storage/memory_store.go:153-167 | the four counts together never exceed the number of entries |
| MemoryStores.MemoryStore.constructor | internal/infrastructure/storage/memory_store.go:28-37 | a new store is valid and answers as the empty registry |
| MemoryStores.MemoryStore.IsBlocked | internal/infrastructure/storage/memory_store.go:39-88 | for every name, the result is blocked exactly when the scan over the installed entries has a verdict, and carries that rule, its kind as the reason, and the name |
| MemoryStores.MemoryStore.PassesFilter | internal/infrastructure/storage/memory_store.go:47-61 | passes exactly the names of which they themselves or some dot-suffix have all their positions among those of the keys, at the size and probe count of the last update; so a dismissed name was not added, nor any of its dot-suffixes |
| MemoryStores.MemoryStore.LookUp | internal/infrastructure/storage/memory_store.go:65-87 | the lookup without the filter gives the verdict of the scan |
| MemoryStores.MemoryStore.MatchPatterns | internal/infrastructure/storage/memory_store.go:79-85 | the path branch never finds a rule |
| MemoryStores.MemoryStore.Update | internal/infrastructure/storage/memory_store.go:90-151 | installs the registry's entries and version; a nil registry is refused and changes nothing |
| MemoryStores.MemoryStore.Build | internal/infrastructure/storage/memory_store.go:95-135 | the loop builds, in fresh objects only, the maps and tree of the entries, and a filter with exactly the positions of their keys, at the size and probe count for their number |
| MemoryStores.MemoryStore.IndexEntry | internal/infrastructure/storage/memory_store.go:101-134 | one round extends every structure by one entry, invalid entries changing nothing |
| MemoryStores.MemoryStore.Install | internal/infrastructure/storage/memory_store.go:137-148 | the assignments under the lock leave a store that holds the new entries |
| MemoryStores.MemoryStore.Stats | internal/infrastructure/storage/memory_store.go:153-167 | the counts are those of the installed entries and add up to at most the total; the filter size is the one computed for the count of the last update, clears notwithstanding |
| MemoryStores.MemoryStore.Clear | internal/infrastructure/storage/memory_store.go:169-181 | empties the store in place, keeping the version and the size of the filter |
| StoreConcurrency.IndexOneHolds | internal/infrastructure/storage/memory_store.go:101-134 | an off-lock building step keeps the private structures those of the entries seen so far |
| StoreConcurrency.LookupStepOk | internal/infrastructure/storage/memory_store.go:47-87 | each step of a lookup keeps what the lookup has established about its snapshot |
| StoreConcurrency.StepKeepsInv | internal/infrastructure/storage/memory_store.go:44-45 | under the readers-writer lock, nobody else's step disturbs a reader or a writer |
| StoreConcurrency.WriterStep | internal/infrastructure/storage/memory_store.go:137-181 | field-by-field assignment and clearing keep the invariant, half-done states included |
| StoreConcurrency.InvNext | internal/infrastructure/storage/memory_store.go:39-181 | every step of every caller keeps the invariant |
| StoreConcurrency.LockWasTaken | internal/infrastructure/storage/memory_store.go:44-45 | whoever holds the read lock was free just before it took it, has held it without a break for one name (or for the statistics), and has seen one registry installed all the while |
| StoreConcurrency.LookupsAreAtomic | internal/infrastructure/storage/memory_store.go:44-87 | in every interleaving each completed lookup answers as the scan of the one registry that was installed from the moment this very lookup took the lock until it let go, which is what the latest update or clear completed by then had put in place; and keeps that answer |
| StoreConcurrency.StatsAreAtomic | internal/infrastructure/storage/memory_store.go:153-167 | in every interleaving completed statistics are those of the one registry installed from the moment the call took the lock until it let go, put in place by the latest update or clear completed by then, and add up |
| StoreConcurrency.UpdateInstallsItsArgument | internal/infrastructure/storage/memory_store.go:90-151 | a completed update has installed exactly the registry it was called with, after building and assigning nothing else since that call |
| StoreConcurrency.ClearInstallsNothing | internal/infrastructure/storage/memory_store.go:169-181 | a completed clear has left the empty registry under the version and filter size installed when it was called |
| StoreConcurrency.InstalledStep | internal/infrastructure/storage/memory_store.go:90-181 | only the step that completes an update or a clear changes what is installed |
| StoreConcurrency.InstalledIsLatest | internal/infrastructure/storage/memory_store.go:90-181 | what is installed is always what the latest completed update or clear put in place, or a new store's contents |
| StoreConcurrency.WorkShrinks | internal/infrastructure/storage/memory_store.go:39-181 | every step of a busy caller leaves it less to do |
| StoreConcurrency.OnlyBuildersWait | internal/infrastructure/storage/memory_store.go:137-138 | a busy caller can always go on, except an update that has built everything and waits for the lock |
| StoreConcurrency.FinishesAlone | internal/infrastructure/storage/memory_store.go:39-181 | left alone, every caller comes to its end: a lookup to the verdict, statistics to the counts, an update or clear to having installed its registry |
| StoreConcurrency.LookupCompletes | internal/infrastructure/storage/memory_store.go:39-88 | with no writer inside, a lookup can start and alone comes to the verdict of the installed registry |
| StoreConcurrency.UpdateCompletes | internal/infrastructure/storage/memory_store.go:90-151 | with the lock free, an update can start and alone comes to having installed the registry it was called with |
| StoreConcurrency.FilterIsExact | internal/infrastructure/storage/memory_store.go:47-61 | in every reachable state without a writer, the filter admits exactly the strings whose positions lie among those of the keys of the installed registry |
| StoreConcurrency.FilterNeverChangesAnAnswer | internal/infrastructure/storage/memory_store.go:47-63 | in every reachable state without a writer, a name dismissed by the filter has no verdict |
| RegistryParser.DomainPatternIsLabels | internal/infrastructure/registry/parser.go:29 | the domain pattern is the language of labels joined by single dots |
| RegistryParser.LabelPatternMeaning | internal/infrastructure/registry/parser.go:29 | a label of the pattern is 1 to 63 letters, digits and hyphens with no hyphen at an end |
| RegistryParser.PatternedDomainIsValid | internal/domain/url.go:39-68 | a name that fits the pattern is a valid domain exactly when it has two labels and at most 253 bytes |
| RegistryParser.AcceptedEntryBecomesRule | internal/infrastructure/registry/parser.go:219-265 | an accepted entry yields no rule exactly when it is a wildcard whose base has a single label or exceeds 253 bytes |
| RegistryParser.SingleLabelWildcardIsDropped | internal/infrastructure/registry/parser.go:220-233 | every piece that lower-cases to a wildcard on a single label is accepted and yields no rule |
| RegistryParser.AcceptedIff | internal/infrastructure/registry/parser.go:219-265 | which pieces are accepted: patterned wildcards, whole addresses, values with a slash, and patterned names of two labels and at most 253 bytes |
| RegistryParser.AcceptedEntryFits | internal/infrastructure/registry/parser.go:229-256 | an accepted entry fills exactly the field of its kind, and the value fits the kind |
| RegistryParser.ProtocolIsIgnored | internal/infrastructure/registry/parser.go:220-222 | a piece that lower-cases to an http, https or ftp protocol and a rest is read as any piece that lower-cases to that rest, unless the rest starts with a protocol again |
| RegistryParser.AddressWithPortIsRefused | internal/infrastructure/registry/parser.go:237-257 | an address with a port is taken for an address and refused as invalid |
| RegistryParser.EntriesOfRowsMembers | internal/infrastructure/registry/parser.go:159-213 | the parsed entries are exactly those of the non-empty pieces of the rows below the header |
| RegistryParser.StripIsReading | internal/infrastructure/registry/parser.go:268-276 | the value of a piece is its lower-case form without the one protocol it starts with, if any |
| RegistryParser.ReadAsStable | internal/infrastructure/registry/parser.go:220-222 | where lower-casing is stable, that is the value with one protocol before it, or the value alone if it starts with none |
| RegistryParser.CategorizeMeaning | internal/infrastructure/registry/parser.go:219-265 | an accepted piece becomes the entry that holds exactly its value, filed as wildcard, address, URL or domain by what the value is; a refused one gets the error of its first obstacle |
| RegistryParser.AddressMeaning | internal/infrastructure/registry/parser.go:279-292 | a value with exactly one colon counts as an address if the part before it is one, any other if the whole is |
| RegistryParser.ParsedVerdict | internal/infrastructure/registry/parser.go:149-276 | after an update with the parsed rows a name is blocked exactly when, in some row below the header, some piece between the bars of the second column, lower-cased and freed of one protocol, is that name as an address or a domain of two labels, or a wildcard on such a domain above it |
| RegistryParser.CategorizeEntry | internal/infrastructure/registry/parser.go:219-265 | appends the entry of an accepted piece, and nothing with an error otherwise |
| RegistryParser.ParseCSVRecord | internal/infrastructure/registry/parser.go:189-216 | appends the entries of all pieces of the second column, skipping refused ones; fails only for a missing or an empty column, and says which |
| RegistryParser.ParseCSVText | internal/infrastructure/registry/parser.go:149-186 | succeeds exactly when no row is malformed and some entry is accepted, and says what was wrong otherwise; never delivers an empty registry |
| RegistryClient.OrderedIsPermutation | internal/infrastructure/registry/client.go:125-147 | every source is tried exactly once if and only if at most one bears the last successful name |
| RegistryClient.OrderedStartsWithLast | internal/infrastructure/registry/client.go:142-144 | the last successful source is tried first |
| RegistryClient.OrderMeaning | internal/infrastructure/registry/client.go:125-147 | without a last success the order is the configured one; otherwise it is the last source that bears the name, if any, then all others in configured order |
| RegistryClient.SameNameLeavesOne | internal/infrastructure/registry/client.go:134-144 | when all sources share the name, only the last one is left |
| RegistryClient.ServeMeaning | internal/infrastructure/registry/client.go:77-91 | the source that serves a call is the first in order that delivers, with no cancellation seen before it |
| RegistryClient.FirstCallGoesThroughTheList | internal/infrastructure/registry/client.go:69-95 | with no last success the serving source is the first as configured that delivers |
| RegistryClient.PreferredSourceServesAgain | internal/infrastructure/registry/client.go:76-95 | while the last source with the last successful name delivers, it goes on serving |
| RegistryClient.OrderedMembers | internal/infrastructure/registry/client.go:125-147 | a source is tried exactly when it is configured and does not bear the last successful name or is the last that does |
| RegistryClient.FailoverReachesEverySource | internal/infrastructure/registry/client.go:69-95 | the guarantee that every call not cancelled succeeds exactly when some configured source delivers holds if and only if the last successful name is empty or all sources that bear it are the same one |
| RegistryClient.DroppedSourceIsNotReached | internal/infrastructure/registry/client.go:134-144 | in every list, a source left out of the order is never reached, even if it is the only one that delivers |
| RegistryClient.Client.OrderSources | internal/infrastructure/registry/client.go:125-147 | the appending loop yields the preference order |
| RegistryClient.Client.FetchRegistry | internal/infrastructure/registry/client.go:69-95 | delivers the serving source's registry and remembers the source, resetting the failures; a failed call only adds one to them; with no last success it goes through the configured list in order |
| Backoff.NoDelayWraps | internal/infrastructure/updater/scheduler.go:167 | none of the n delays wraps if and only if the last product fits in 64 bits |
| Backoff.BackoffSum | internal/infrastructure/updater/scheduler.go:164-173 | the delays before attempts 1 to a sum to retryDelay * (2^a - 1) |
| Backoff.ScheduleIsDoubling | internal/infrastructure/updater/scheduler.go:164-173 | if the last delay that `maxRetries` allows fits, every schedule within the limit doubles exactly from retryDelay on and sums accordingly; `PerformUpdate` applies it to the timers it started |
| Backoff.WrappedDelayIsNegative | internal/infrastructure/updater/scheduler.go:167 | past the limit a delay can come out negative |
| UpdateHistory.OutcomesAddUp | internal/infrastructure/updater/scheduler.go:210-227 | successes and failures make up the history |
| UpdateHistory.SuccessesAreCounted | internal/infrastructure/updater/scheduler.go:210-218 | the count of successes is the number of successful updates |
| UpdateHistory.LastInstalledIsLatest | internal/infrastructure/updater/scheduler.go:189-218 | the registry in place is that of the latest success, or the one at first if there is none |
| UpdateHistory.TrailingIsLongestFailedSuffix | internal/infrastructure/updater/scheduler.go:216-226 | the trailing run is the longest all-failed end of the history |
| Schedulers.CourseIsBounded | internal/infrastructure/updater/scheduler.go:164-185 | attempts stay within the limit, a success is never empty and was delivered by a configured source, a failure has used up its attempts or its time |
| Schedulers.UpdateSucceedsIff | internal/infrastructure/updater/scheduler.go:155-186 | an update succeeds exactly when some attempt within the limit is reached in time and fetches a non-empty registry; it installs what the first such attempt fetched |
| Schedulers.CourseEnds | internal/infrastructure/updater/scheduler.go:164-185 | every attempt made is in time and none but the last fetched anything; the source preferred afterwards is that of the attempts made |
| Schedulers.PreferenceIsLatest | internal/infrastructure/updater/scheduler.go:126-152 | the source preferred at an attempt is the one that served the latest served attempt before it |
| Schedulers.CourseIsRetry | internal/infrastructure/updater/scheduler.go:155-186 | sources and failover matter to an update's outcome only by what each attempt fetches |
| Schedulers.Scheduler.ExecuteUpdate | internal/infrastructure/updater/scheduler.go:189-207 | the store is touched only by a fetched non-empty registry and then holds it |
| Schedulers.Scheduler.RecordSuccess | internal/infrastructure/updater/scheduler.go:210-218 | the counters match the history extended by a success |
| Schedulers.Scheduler.RecordFailure | internal/infrastructure/updater/scheduler.go:221-227 | the counters match the history extended by a failure |
| Schedulers.Scheduler.TryAttempts | internal/infrastructure/updater/scheduler.go:163-185 | the retry loop follows the course of the update; it starts exactly one backoff timer before each retry, plus one if the context was done while waiting, which is the case exactly when it fails with attempts made and left; it leaves the store alone unless it succeeds |
| Schedulers.Scheduler.PerformUpdate | internal/infrastructure/updater/scheduler.go:155-186 | one update extends the history by its outcome and records its error; the timers are those of its retries, in order, and double and sum exactly if the last one allowed fits; after a failure every lookup answers as before, after a success the store holds the fetched registry |
| Schedulers.RunSucceedsIff | internal/infrastructure/updater/scheduler.go:126-186 | in any run the k-th update succeeds exactly when, with the source preferred after the updates before it, one of its attempts is fruitful |
| Schedulers.Scheduler.Run | internal/infrastructure/updater/scheduler.go:126-152 | the history grows by exactly the outcomes of the initial update and of one update for each event, each starting from the source the one before it left preferred; the counters summarise the history and the store holds the last success |
| Schedulers.Scheduler.GetStatus | internal/infrastructure/updater/scheduler.go:230-244 | between updates, totals, successes, trailing failures and registry size are those of the history; there is an error exactly after a failed update |
| Schedulers.Scheduler.IsHealthy | internal/infrastructure/updater/scheduler.go:255-270 | between updates, unhealthy exactly when the last five updates all failed or the last success is stale |
| SchedulerLifecycle.MoveKeepsInv | internal/infrastructure/updater/scheduler.go:126-227 | every move of a run goroutine keeps exclusivity, counters, store, triggers and channels in order |
| SchedulerLifecycle.InvNext | internal/infrastructure/updater/scheduler.go:85-227 | every step of anyone keeps the invariant |
| SchedulerLifecycle.AtMostOneUpdate | internal/infrastructure/updater/scheduler.go:85-152 | in every reachable state at most one update is in flight, restarts included |
| SchedulerLifecycle.CountersDescribeHistory | internal/infrastructure/updater/scheduler.go:155-227 | total is successes plus failures plus one if an update is in progress, the failure count is the trailing run, and there is an error exactly when it is positive |
| SchedulerLifecycle.NoTriggerIsLost | internal/infrastructure/updater/scheduler.go:117-151 | every trigger is pending, just received, or followed by an update that began later |
| SchedulerLifecycle.StoreHoldsLastSuccess | internal/infrastructure/updater/scheduler.go:189-227 | unless a stored registry is just being recorded, the store holds the registry of the last recorded success, never an empty one |
| SchedulerLifecycle.FailureLeavesStore | internal/infrastructure/updater/scheduler.go:163-185 | an update recorded as failed ends with the store it began with |
| SchedulerRuns.RunTracks | internal/infrastructure/updater/scheduler.go:126-227 | in every run the moves account for the history and the update in progress: each recorded failure follows a context done while waiting, or all its attempts, with nothing fetched, and each success is of what its last attempt fetched |
| SchedulerRuns.HistoryIsRetries | internal/infrastructure/updater/scheduler.go:155-186 | every finished update has the outcome the retry rules give for what its attempts fetched and whether it gave up |
| SchedulerRuns.HistoryIsRunOf | internal/infrastructure/updater/scheduler.go:85-227 | whatever is started, stopped, triggered and cancelled in between, the history of a run is that of the sequential scheduler for the scripts its moves spell |
| SchedulerRuns.FetchedIsStored | internal/infrastructure/updater/scheduler.go:176-207 | a fetched non-empty registry can be stored and recorded as a success at once, by three moves |
| SchedulerRuns.CourseIsPossible | internal/infrastructure/updater/scheduler.go:163-185 | from any attempt on, an update can take every course the retry rules give |
| SchedulerRuns.EventUpdates | internal/infrastructure/updater/scheduler.go:143-149 | a tick or a pending trigger leads to an update of any course |
| SchedulerRuns.RunIsPossible | internal/infrastructure/updater/scheduler.go:126-186 | every run of the sequential scheduler, for any sources and scripts, is one of the interleaved scheduler, with the same outcomes and store |
| SchedulerRuns.StopIsPossible | internal/infrastructure/updater/scheduler.go:100-115 | a first Stop of a looping scheduler is accepted, makes the goroutine leave, and returns |
| SchedulerRuns.TriggerIsPossible | internal/infrastructure/updater/scheduler.go:117-124 | a trigger is accepted at any time and the loop can take it up |
| SchedulerRuns.LeavingIsPossible | internal/infrastructure/updater/scheduler.go:126-132 | on a stop or a cancellation the goroutine can leave, clearing `running` and closing `doneCh` |
| SchedulerLifecycle.NoPanicWhenUsedOnce | internal/infrastructure/updater/scheduler.go:100-127 | with one Start and at most one Stop no channel is closed twice |
| SchedulerLifecycle.StopIsFinal | internal/infrastructure/updater/scheduler.go:100-152 | with one Start, once a Stop has returned nothing runs and no update begins in any continuation |
| SchedulerLifecycle.NobodyFinishesLater | internal/infrastructure/updater/scheduler.go:127 | once `doneCh` is closed it stays so, in no continuation does a goroutine finish that has not, and one that closes it again panics |
| SchedulerLifecycle.RestartRunsAndPanics | internal/infrastructure/updater/scheduler.go:85-127 | after a returned Stop a second Start does begin an update, and in no continuation does its goroutine finish: at its end it panics |

## Left out

- `net.ParseIP`, `url.Parse` (host extraction), Unicode lower-casing and space trimming, the two FNV
  hashes and the floating-point sizing of the filter are parameters; every result holds for any such
  functions. Of the sizing only a positive bit count whose rounding up does not wrap is required:
  by a filter at its own item count, by a store at every count, since any registry may come.
- CSV, ZIP and Windows-1251 decoding, format detection: the parser starts from decoded rows, one of
  which may be malformed.
- The URL normalizer, the gRPC and REST servers, configuration and `main`: not part of this model.
- Sources: what a source does (unhealthy, fetch failed, parse failed, parsed) is arbitrary for each
  call; HTTP, SOAP and the health cache are not part of this model.
- Wall-clock values (`LastUpdated`, `LastUpdate`, `CheckedAt`, `NextUpdate`), entry identifiers, dates and
  error texts: nothing else depends on them. Whether the last success is too old is a parameter of
  `IsHealthy`; `GetStatus` is without its times and its `running` flag, `Stats` without `LastUpdate`.
- Schedulers.Scheduler.GetStatus: is stated between updates, like `IsHealthy`; what the counters say while an
  update is in progress is `SchedulerLifecycle.CountersDescribeHistory`.
- `SuccessRate`: a floating-point quotient of two counters.
- `URL` is a value here; its setter is only used by the normalizer.
- A child table of the radix tree is a map value in a node's field, not an object of its own; that a split
  hands one Go map object from the old child to its lower half, for an instant shared, is not captured.
- The entry count is also readable without the lock (`Size`); a concurrent reader of it alone may see
  a count before the rest of an install, and nothing is claimed about that.
- The false-positive rate of the Bloom filter: which strings it admits is exact, how likely is not stated.
- Fairness: the step models prove safety, that callers can go on, and what they come to when left alone;
  that a waiting writer or a pending trigger is eventually served under every schedule is not stated.
- Other writers of the store (`UpdateRegistry`, `ClearRegistry` of the service) beside a running
  scheduler: the scheduler results assume that only the scheduler writes; the store results do not.
- Of the lower-casing nothing is assumed; where a result needs it to be stable on a value, it says so.
- In the store's step model the tree stands as its finite map and one search or filter call is one step;
  aliasing between tree nodes is covered by the heap model (`RadixTree.dfy`). In the scheduler's step model
  a fetch and a store update are one step each; the store's own steps are those of `StoreConcurrency.dfy`.
- Backoff.NoDelayWraps: is stated for a positive retry delay and at least one retry, because without a
  delay to wait for there is nothing to wrap.
