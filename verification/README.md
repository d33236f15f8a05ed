# A verified model of lrmdns

lrmdns is an authoritative DNS server. This project models the parts of it where a mistake would
be hard to see, and proves what they promise for every input, every run and every interleaving.

| files | part of the server |
|---|---|
| `Names`, `Records`, `RecordLog`, `FlatZones` | names and their canonical order; the flat log of records a zone was given; what lookups, zone selection and zone transfers mean over it |
| `Sorting`, `ZoneIndex` | the nested maps of `Zone` and `ZoneStore`, as classes, proved against the flat log |
| `Messages`, `Responses`, `QueryProcessor` | `process_query`, proved equal to a response written over the flat logs only |
| `AliasChains` | what its answers make of CNAME chains, compared with following them to the end |
| `Replicas` | secondaries filled from a transfer, compared with their primary |
| `RateLimiter` | the sliding window with its lazy pruning and its periodic cleanup |
| `Text`, `NameText`, `ZonePreprocessor`, `ZoneParser`, `ZoneFiles`, `FileOrder`, `ZoneLoading` | zone files, from characters to the store and its responses |
| `Nsec`, `KeyTag` | denial by NSEC chains and the DNSKEY key tag |
| `Reload` | queries, transfers and reloads as an interleaved step system under the readers-writer lock |
| `UdpServer`, `TcpServer` | datagram truncation; framing and the run of a connection |

## How to read it

A name is a sequence of labels, leftmost first, absolute and folded to lower case. A zone is
specified by its *log*: the sequence of all records ever added. `RRset(log, n, t)` picks the records
of one owner and type in log order, and everything else is said in terms of it. The classes keep the
source's maps and vectors and carry a ghost log; their methods are proved against the log.

- Map iteration order is arbitrary: `Sorting.Collect` yields the keys in some order, and whatever is
  proved holds for all orders.
- The clock readings of the rate limiter are arguments, non-decreasing because the mutex serialises
  the calls. A call has four of them.
- The message encoder is a function about which only its size is assumed: between 1 and 65535
  octets, and no more than header, questions, records and OPT laid end to end. The decoder yields
  valid names and the id that the packet starts with.
- Ten arms of `parse_resource_record` are one unknown function (`Arms`); every theorem about zone
  files holds for all such functions.
- Loops that only push the elements of a vector one by one appear as one concatenation.

## Where the code does less than one might think

Each of these is proved with its exact condition, and with a concrete input that fails.

- README.md:38 promises that CNAMEs are chased to their final targets. `src/protocol.rs:142-164`
  follows one alias, looks its target up by exact name, and stays in the zone of the question. The
  answer equals full resolution exactly when the zone at hand has, at each alias's target, what the
  target's own zone serves for it (wildcards included), and where that is nothing no alias is served
  either (`AliasChains.ChaseCompleteExact`). It falls short for an alias of an alias, for a target that
  a wildcard serves, and for a target in another zone (`AliasChains.ChaseStopsShort`,
  `AliasChains.ChaseMissesWildcard`, `AliasChains.ChaseStaysInZone`).
- `find_zone` finds the longest enclosing origin under every iteration order exactly when that origin
  is the name itself, or it counts at least one label (a leading `*` is not counted, the root has
  none) and is not tied with another through a leading `*` (`FlatZones.FindZoneExact`,
  `FlatZones.RootNotSelected`). The result is
  unique exactly when there is no such tie; a root zone does no harm to that
  (`FlatZones.SelectionExact`, `FlatZones.TwoSelected`).
- A zone-file line with both parentheses opens a group and leaves it open
  (`ZonePreprocessor.EndsClosedExact`, `ZonePreprocessor.BothParenthesesStayOpen`).
- Of the five ways to place TTL and class that section 5.1 of RFC 1035 allows, the class before the
  TTL is never read, and with neither a record of one data token is not read; such lines are dropped
  without an error (`ZoneFiles.SpelledRecordExact`, `ZoneFiles.DroppedLines`).
- Relative names do not parse below the root origin, because `x` becomes `x..`
  (`NameText.RelativeExact`, `NameText.RelativeFailsUnderRoot`).
- UDP responses to EDNS clients are cut at the server's own 4096 octets; the client's payload size is
  read and not used. A response within 4096 octets keeps to a smaller client's size exactly when it
  does so whole, and for every smaller size there is one that does not
  (`UdpServer.ClientLimitExact`, `UdpServer.ClientLimitOverrun`).
- A server that has a zone from a transfer sends the replies of its primary, SOA queries apart,
  exactly when the zone's origin owns a record and no other name for which the store selects the
  zone owns SOA records only (`Replicas.ReplicaExact`, `Replicas.ReplicaDiffers`).
- The key-tag sum fits 32 bits for all flags up to 131072 octets of RDATA, and for the three flag
  bits that a parsed key keeps up to 131074 (`KeyTags.FitsExact`, `KeyTags.ParsedFitsExact`).

Records before the first SOA of a file are parsed and forgotten (`ZoneFiles.ZoneIsFromSoa`). The SOA of
responses and transfers has the zone's `minimum` as its TTL, wildcard answers keep their
`*` owner, and REFUSED, FORMERR, NOTIMP and AXFR replies carry no EDNS; the response function says so
and the code is proved equal to it.

## Model

| member | source | states |
|---|---|---|
| ZoneIndex.Zone.constructor | src/zone.rs:27-33 | a new zone denotes the empty log under its origin and SOA |
| ZoneIndex.Zone.AddRecord | src/zone.rs:35-45 | the nested map afterwards denotes the log with the record at its end, for every name and type; origin and SOA do not change |
| ZoneIndex.IndexGrows | src/zone.rs:35-45 | a push into the nested map keeps the agreement of the map with the log: the same names, and for each name and type the same records in the same order |
| ZoneIndex.Zone.Lookup | src/zone.rs:47-49 | exactly the records of that owner and type in the order they were added, nothing if there are none |
| ZoneIndex.Zone.ContainsName | src/zone.rs:51-53 | true exactly when some record ever added has that owner |
| ZoneIndex.Zone.LookupWildcard | src/zone.rs:57-75 | the search loop returns the records of the nearest wildcard owning the type |
| FlatZones.WildcardIsNearest | src/zone.rs:57-75 | records are found exactly when the `*` child of some proper non-empty suffix owns the type, and they are those below the longest such suffix |
| FlatZones.WildcardExact | src/zone.rs:57-75 | the records found are, in log order, exactly those of the type owned by `*` and the name less its fewest leading labels, at least one and not all, for which there are any; none if there are none |
| FlatZones.WildcardCandidateValid | src/zone.rs:63-67 | for a valid name every wildcard candidate has legal labels and at most 255 octets, so building it never fails |
| ZoneIndex.Zone.GetAllRecords | src/zone.rs:93-128 | the double sorting loop over the hash maps yields the reference transfer: SOA, stable sort of the log without its SOAs, SOA, whatever the hash order |
| ZoneIndex.Zone.Owners | src/zone.rs:100-101 | the owners of the log, each once, strictly ascending in canonical order |
| ZoneIndex.Zone.RecordsOf | src/zone.rs:105-120 | one owner's records group by group, types strictly ascending and complete, the SOA group skipped |
| ZoneIndex.GroupsAreTransfer | src/zone.rs:93-128 | grouping by ascending owners and ascending types is the same sequence as stably sorting the log |
| RecordLog.OrderedUnique | src/zone.rs:99-121 | sequences that are sorted by owner and type and have the same records per owner and type are equal: order and RRsets leave no freedom |
| RecordLog.TransferUnique | src/zone.rs:93-128 | any sequence that is sorted and has the log's non-SOA RRsets is the transfer of that log |
| RecordLog.TransferIsTransfer | src/zone.rs:93-128 | the reference transfer is sorted by owner and type and keeps each non-SOA RRset in its log order |
| RecordLog.TransferConserves | src/zone.rs:93-128 | between its SOAs a transfer has every non-SOA record exactly as often as the log and no SOA |
| RecordLog.TransferSorted | src/zone.rs:99-121 | of two records of a transfer the first has the smaller owner, or the same owner and no larger type number |
| RecordLog.TransferReplays | src/zone.rs:35-49 | adding a transfer's records to a fresh zone reproduces every non-SOA lookup, and the replica transfers the identical sequence |
| RecordLog.TransferIgnoresInterleaving | src/zone.rs:93-128 | logs that differ only in how RRsets are interleaved have the same transfer |
| RecordLog.SameRRsetsPermute | src/zone.rs:35-49 | logs with equal lookups are permutations of one another |
| FlatZones.TransferHasTwoSoas | src/zone.rs:96-127 | a transfer starts and ends with the zone's SOA and has no other SOA, however many were added |
| Replicas.ReplicaExact | src/zone.rs:91-128 | in any store, replacing a zone by its transferred copy keeps the reply to every query but SOA ones, whichever zone is selected, if and only if the origin owns a record and every other owner for which that zone is selected owns something besides SOA |
| Replicas.ReplicaName | src/zone.rs:111-114 | which names exist in such a zone: the origin and the owners of non-SOA records |
| Replicas.FilledFromTransfer | src/zone.rs:77-89 | the SOA that opens a transfer carries all that `extract_soa_data` and `Zone::new` need: building a zone from the stream, its last record apart, restores origin and SOA data and yields the replica |
| Replicas.ReplicaDiffers | src/zone.rs:111-114 | a loadable zone with a second SOA below its origin: the primary answers a query for that name with NOERROR, the secondary with NXDOMAIN |
| Replicas.Replicate | src/zone.rs:35-128 | adding the middle of a transfer record by record to a fresh zone gives a zone that denotes the transferred log and transfers the identical sequence |
| ZoneIndex.ZoneStore.constructor | src/zone.rs:137-141 | a new store has no zones |
| ZoneIndex.ZoneStore.AddZone | src/zone.rs:143-145 | the zone is filed under its origin, replacing any previous one; all others stay |
| ZoneIndex.ZoneStore.FindZone | src/zone.rs:147-169 | an exact match, else an enclosing origin with the most counted labels, else none if every enclosing origin counts zero labels |
| FlatZones.ScanBest | src/zone.rs:154-168 | in any iteration order the scan ends with a best-counted enclosing origin, and with none only if none counts any label |
| FlatZones.ScanReaches | src/zone.rs:154-168 | every best-counted enclosing origin is the result under some iteration order |
| FlatZones.LongestEnclosingIsLongest | src/zone.rs:153-160 | walking up from a name meets the longest origin that encloses it, or none exactly if no origin does |
| FlatZones.FindZoneExact | src/zone.rs:147-169 | the result is the longest enclosing origin in every iteration order if and only if that origin is the name itself, or it counts labels and is not a `*` child tied with its parent origin |
| FlatZones.TheZoneSelected | src/zone.rs:147-169 | the exact match, else the longest enclosing origin that counts labels, is always a possible result |
| FlatZones.SelectionExact | src/zone.rs:147-169 | every iteration order gives that same result if and only if it is not tied: it does not start with a `*` below which another origin counts as many labels |
| FlatZones.PlainFindZone | src/zone.rs:147-169 | if no origin is the `*` child of another, root zones allowed, the result is unique for every name |
| FlatZones.RootNotSelected | src/zone.rs:155-161 | a store with only a root zone selects it for the root and for no other name |
| FlatZones.TwoSelected | src/zone.rs:157-166 | a store and a name for which two zones can be selected |
| QueryProcessing.QueryProcessor.ProcessQuery | src/protocol.rs:21-211 | the response equals, field by field, the reply specified over the flat logs for a zone choice that the store allows |
| QueryProcessing.AnswerFrom | src/protocol.rs:97-185 | the decision tree sets answers, response code and negative SOA as specified over the log |
| QueryProcessing.AddNameServers | src/protocol.rs:187-195 | testing the built response for a positive answer is the same as asking the log for one, so the origin's NS records go with positive responses only |
| QueryProcessing.LookupOrWildcard | src/protocol.rs:100-106 | the records that answer for a name: its own if it exists, the nearest wildcard's otherwise |
| QueryProcessing.ChaseAliases | src/protocol.rs:142-165 | every alias followed by what its target owns, in order, one hop and exact names only |
| QueryProcessing.FilterCovering | src/protocol.rs:115-127 | the signatures that cover the asked type, in log order |
| Responses.ResponseDetermined | src/protocol.rs:82-92 | unless two origins are tied for the name, a query has exactly one response, independent of map order, with or without a root zone |
| Responses.ResponseIgnoresInterleaving | src/protocol.rs:21-211 | stores whose zones differ only in how RRsets are interleaved allow the same responses |
| Responses.SameAnswersFor | src/protocol.rs:97-195 | a response depends on nothing of a zone but the RRsets of the asked type, CNAME, SIG and NS, the SOA data, and whether the name exists |
| Responses.NothingInvented | src/protocol.rs:108-195 | every record of a response was added to the zone, except the SOA of a negative one |
| Responses.NameErrorExact | src/protocol.rs:175-183 | NXDOMAIN if and only if no record has the name as owner and no `*` child of a proper non-empty suffix owns the type or a CNAME |
| Responses.NegativeExact | src/protocol.rs:167-195 | the answer section is empty exactly when neither the type nor a CNAME is owned, exactly when the SOA is the whole authority section |
| Responses.AnswersExact | src/protocol.rs:100-129 | an owner of the type is answered with exactly its records of the type in log order, followed, under DO and only then, by exactly the signatures it owns that cover the type, in log order; a name that does not exist gets its wildcard's records alone |
| Responses.AliasAnswersExact | src/protocol.rs:132-166 | otherwise each alias comes with exactly what its target owns of the type, in log order, and DO adds nothing |
| Responses.AuthorityExact | src/protocol.rs:166-195 | positive responses carry exactly the NS records of the origin; negative ones one SOA at the origin whose TTL is the zone's minimum; the code is NOERROR if and only if something is answered or the name exists, else NXDOMAIN |
| Responses.ReplyExact | src/protocol.rs:22-60 | id, flags, question, code and EDNS case by case: NOTIMP, FORMERR, the AXFR marker, REFUSED if and only if AA is unset, 4096 octets and the DO bit echoed for answered EDNS queries only |
| Responses.SectionsExact | src/protocol.rs:82-210 | refused exactly when no zone is selected; otherwise AA and the sections of the selected zone, with DO as the query has it |
| AliasChains.ChaseCompleteExact | src/protocol.rs:142-165 | against README.md:38: for a name without the type, the answer equals full alias resolution through all zones and wildcards if and only if every alias is final: the zone at hand has at its target exactly what the target's zone serves, and if that is nothing there is no further alias |
| AliasChains.FinalWithinZone | src/protocol.rs:152 | for targets in the same zone, final means that the target owns the type itself or that a query for it finds neither type nor alias, not even through a wildcard |
| AliasChains.ChaseStopsShort | src/protocol.rs:142-165 | a one-zone store with a chain of two aliases: every response to a query for the first ends at it |
| AliasChains.ChaseMissesWildcard | src/protocol.rs:152 | a one-zone store with an alias whose target a wildcard serves: a query for the target gets the address, one for the alias does not |
| AliasChains.ChaseStaysInZone | src/protocol.rs:152 | a two-zone store with an alias from one into the other: a query for the target gets the address, one for the alias does not |
| RateLimiting.RateLimiter.constructor | src/ratelimit.rs:25-34 | a new limiter has admitted nothing |
| RateLimiting.RateLimiter.CheckRateLimit | src/ratelimit.rs:36-72 | a call is admitted if and only if fewer than the limit of the admissions ever made for the address lie in the window that ends now, measured on a log that is never pruned; the log grows by exactly the admitted call; stored vectors stay sorted and within the limit; other clients are pruned, and idle ones dropped, exactly when the last cleanup is more than a minute old |
| RateLimiting.RateLimiter.Cleanup | src/ratelimit.rs:76-83 | every vector is cut to the window, empty clients vanish, and no decision depends on it |
| RateLimiting.AdmitsExact | src/ratelimit.rs:53-59 | the window count is the number of log positions of that address less than one window back |
| RateLimiting.RetainAgain | src/ratelimit.rs:54-56 | pruning early never changes what a later pruning leaves |
| RateLimiting.CallFaithful | src/ratelimit.rs:45-71 | one call keeps stored vectors and full log in agreement on the window, and both give the same decision |
| RateLimiting.Replay | src/ratelimit.rs:36-89 | any run of calls gets the decisions of a limiter that never forgets |
| RateLimiting.NeverOverLimit | src/ratelimit.rs:45-71 | over any run, no half-open interval one window long has more than the limit of one address's admissions |
| RateLimiting.Isolated | src/ratelimit.rs:36-89 | the decisions a run gives to one address are those of the run with all other addresses' calls deleted |
| RateLimiting.OwnRunClocked | src/ratelimit.rs:39-45 | one address's calls are, exactly, a run with non-decreasing clock readings of its own |
| RateLimiting.ReplayIsolated | src/ratelimit.rs:36-89 | two limiters, one run on all calls and one on a single address's, agree on that address, though others trigger the shared cleanup |
| NsecDenial.ValidateNsecDenial | src/dnssec.rs:152-196 | succeeds if and only if some NSEC record covers the name or is its own without the type |
| NsecDenial.LinkSound | src/dnssec.rs:166-192 | no link of a sorted circular chain denies an owner that has the type, wrap-around and single owner included |
| NsecDenial.DenialExact | src/dnssec.rs:152-196 | on links of a chain success is sound; on a full chain, in any order and among other records, it succeeds if and only if the name is no owner or lacks the type |
| Names.NameLessTotal | src/dnssec.rs:169-177 | the canonical order of section 6.1 of RFC 4034 is strict and total on names |
| Names.NameLessTransitive | src/dnssec.rs:169-177 | the canonical order is transitive |
| Names.LabelLessExact | src/dnssec.rs:169-177 | labels compare as octet strings: one comes before another if and only if, after some common beginning, it ends or has the smaller octet |
| Names.NameLessExact | src/dnssec.rs:169-177 | names compare label by label from the root: one comes before another if and only if, above some common end, it ends or has the smaller label |
| Names.CanonicalExample | src/dnssec.rs:169-177 | the example list of section 6.1 of RFC 4034 is in order |
| KeyTags.ComputeKeyTag | src/dnssec.rs:200-224 | an error exactly for records that are no DNSKEY; without overflow the tag is that of the sum of big-endian 16-bit words; overflow is reported exactly if the sum leaves 32 bits, and never up to 131072 octets |
| KeyTags.ByteSumIsWordSum | src/dnssec.rs:213-220 | adding octets by the parity of their index is adding big-endian words with a zero-padded last octet |
| KeyTags.FitsExact | src/dnssec.rs:206-222 | every key with RDATA of a given length, whatever its flags, is free of 32-bit overflow if and only if the length is at most 131072 |
| KeyTags.ParsedFitsExact | src/dnssec.rs:206-222 | the same for the flags that a key from a zone file can have (src/zone.rs:520-524), with the bound 131074 |
| KeyTags.BoundIsTight | src/dnssec.rs:213-222 | 131072 octets of 255 reach exactly 2^32 - 1 |
| KeyTags.DnskeySum | src/dnssec.rs:206-220 | the sum is the flags, 3 times 256, the algorithm and the sum of the key |
| ZonePreprocessor.PreprocessZoneContent | src/zone.rs:232-293 | for every text the output lines have exactly the tokens of the visible parts of the input lines, in order, and are those of the piecewise state machine |
| ZonePreprocessor.TokensConserved | src/zone.rs:232-293 | no token is lost, invented, split or joined by comments, parentheses or line ends |
| ZonePreprocessor.StepConserves | src/zone.rs:254-284 | each line keeps "outside parentheses the accumulator is empty, inside it ends in a space" and adds exactly its own tokens |
| ZonePreprocessor.CommentInvisible | src/zone.rs:238-252 | in any text, what follows a semicolon after an even number of quotes changes no output line |
| ZonePreprocessor.NoSemicolonKept | src/zone.rs:238-272 | a line without a semicolon loses no token but its parentheses |
| ZonePreprocessor.QuotedSemicolonKept | src/zone.rs:240-246 | neither does a line whose first semicolon stands after an odd number of quotes |
| ZonePreprocessor.DistributesExact | src/zone.rs:232-293 | preprocessing a text in two parts gives the same lines for every second part if and only if the first part ends outside parentheses |
| ZonePreprocessor.TextDistributesExact | src/zone.rs:237-293 | the same if and only if for texts cut at a line end |
| ZonePreprocessor.GroupBecomesLine | src/zone.rs:256-278 | a record opened on one line and closed on a later one becomes one line with exactly its tokens |
| ZonePreprocessor.EndsClosedExact | src/zone.rs:256-273 | a text ends outside parentheses if and only if its last line has no `(` and either has `)` or follows a text that does |
| ZonePreprocessor.BothParenthesesStayOpen | src/zone.rs:256-263 | a line with both parentheses whose text ends inside them |
| ZoneParser.ParseResourceRecord | src/zone.rs:301-348 | advancing through the tokens yields the record, the dropped line or the error that the token list denotes |
| ZoneParser.ParseLines | src/zone.rs:177-225 | the loop over lines rejects exactly when the fold over token lists does, and otherwise holds the zone that the fold denotes |
| ZoneParser.KeepRecord | src/zone.rs:213-223 | the first SOA creates the zone under the configured origin; records are added only once there is one |
| ZoneParser.ParseZoneFile | src/zone.rs:172-228 | succeeds if and only if the file is readable, the origin parses, every line parses and an SOA is present, and then holds the denoted zone |
| ZoneFiles.ZoneIsFromSoa | src/zone.rs:177-227 | a file denotes its records from the first SOA on under the configured origin, whatever `$ORIGIN` says; a bad line anywhere rejects it |
| ZoneFiles.LayoutIndependent | src/zone.rs:172-293 | in any file, a record spread over lines and comments denotes the same zone as the record on one line |
| ZoneFiles.CommentIgnored | src/zone.rs:172-293 | adding a comment to any line of a file changes no zone |
| ZoneFiles.DefaultTtlApplies | src/zone.rs:178-207 | records without a TTL get that of the `$TTL` line before them, or 3600 without one |
| ZoneFiles.OriginApplies | src/zone.rs:194-199 | after an `$ORIGIN` line, relative owners are read below its name |
| ZoneFiles.AddressExact | src/zone.rs:350-358 | exactly four decimal octets without leading zeros are an address, and that one |
| ZoneFiles.BadDataRejects | src/zone.rs:212 | a line with a bad address or host name rejects the whole file, wherever it stands |
| ZoneFiles.SpelledRecordExact | src/zone.rs:301-346 | of the five placements of TTL and class, a record is read back with the right TTL if and only if at least four tokens remain and the TTL does not follow the class; otherwise it is dropped without an error |
| ZoneFiles.DroppedLines | src/zone.rs:301-346 | two such lines: an address without TTL and class, and one with the class first |
| ZoneFiles.ParsePrintedData | src/zone.rs:349-455 | A, NS, CNAME, PTR, MX, SRV and SOA data print and parse back under any origin |
| ZoneFiles.PrintParse | src/zone.rs:172-228 | printing any list of such records and parsing the text yields the zone from its first SOA on; for an SOA-first list all records, hence all lookups |
| FileOrder.OrderIgnored | src/zone.rs:172-228 | SOA-first files that differ only in how their RRsets are interleaved give, in any store, the same responses to every query and the same transfers |
| FileOrder.NegativeSoaOfFile | src/zone.rs:77-89 | the SOA of negative responses has the data of the file's first record and as TTL its minimum field, at the configured origin |
| NameText.ParsePrintedName | src/zone.rs:757-763 | valid plain names print and parse back |
| NameText.AnyCaseRead | src/zone.rs:757-763 | a name is read in any letter case, as its labels in lower case |
| NameText.OwnerIsDomainName | src/zone.rs:308-329 | the wildcard branches of the owner field change nothing: apart from `@`, owners read as any other name |
| NameText.RelativeExact | src/zone.rs:757-763 | a relative spelling denotes prefix plus origin if and only if the origin is not the root |
| NameText.RelativeFailsUnderRoot | src/zone.rs:757-763 | `x` is rejected below the root while `x.` is read |
| NameText.SpellingsAgree | src/zone.rs:308-329 | below a non-root origin `@`, relative, `*.` and absolute spellings denote the same names |
| ZoneLoading.LoadZones | src/main.rs:127-150 | a fresh store exactly when the whole configuration denotes one, with that content; otherwise no store |
| ZoneLoading.AllOrNothing | src/main.rs:127-150 | a store is produced if and only if every configured file denotes a zone, and it has, for each origin, the last zone configured for it and nothing else |
| ZoneLoading.OriginsConfigured | src/main.rs:129-147 | every zone of a loaded store is filed under its own origin, which is a configured name |
| Reload.StepKeepsInv | src/main.rs:168-182 | every step of every task and of the reloader keeps the lock discipline and each task's link to a single version |
| Reload.SingleVersion | src/protocol.rs:83-211 | in every interleaving with any reloads, each response, each complete transfer and the part sent of each broken one is computed from one version of the store, current at some instant while it ran |
| Reload.VersionsAreLoads | src/main.rs:172-176 | over any run the versions are the first store and then, in order, the stores last loaded before each swap, computed from the events alone; the store in use is the last of them |
| Reload.ServedAfterReload | src/main.rs:172-176 | a task spawned after reloads is served from the store the last of them loaded, or from one loaded later |
| Reload.ReloadPossible | src/main.rs:170-177 | with no reader, a reload can be carried through: the store becomes the loaded one and no lock is left |
| Reload.AnswerPossible | src/protocol.rs:83-210 | a reading task can be answered with any zone the store allows and leaves no lock |
| Reload.TransferPossible | src/server.rs:503-529 | a transfer that has collected its records can send all of them in order and end |
| Reload.NeverBackwards | src/main.rs:173-176 | successive lock holders never see versions go backwards, and no task holds the lock during a swap |
| Reload.MonotonicReads | src/main.rs:168-182 | a task that starts after another has finished is served from the same version or a later one |
| Reload.FailedReloadInvisible | src/main.rs:172-181 | a run with a failed reload in it ends in the identical state as the run without it, and is possible exactly if that is |
| UdpServer.ChooseMessage | src/server.rs:254-316 | the three stripping loops send the whole response if it fits, else the first rung that has something to drop and fits, else the response without records |
| UdpServer.LadderExact | src/server.rs:254-316 | over the fields: the whole response if it fits; else without answers if it has some and then fits; else without answers and authority if it has some and then fits; else without any records; the limit is the EDNS payload or 512 octets |
| UdpServer.TruncationKeepsHeader | src/server.rs:261-316 | id, code, flags, question and EDNS survive truncation, TC is set exactly when something had to go, and answers are kept whole or dropped whole |
| UdpServer.MinimalFits | src/protocol.rs:198-208 | header, question and OPT of any response need at most 282 octets |
| UdpServer.NeverTooLarge | src/server.rs:249-316 | no datagram exceeds its limit, for every response and every encoder within the size bound |
| UdpServer.ClientLimitKept | src/server.rs:255-259 | no client is sent more than it advertised, provided it advertised at least 4096 octets or no EDNS |
| UdpServer.ClientLimitExact | src/server.rs:254-316 | for a smaller advertised size the datagram fits if and only if a server cutting at that size would choose it; a response within 4096 octets fits if and only if it fits whole |
| UdpServer.ClientLimitOverrun | src/server.rs:255-259 | for every smaller advertised size and every encoder that writes keys in full there is a loadable zone with a DNSKEY whose response is of exactly 4096 octets and is sent whole |
| UdpServer.PlainEncoderExists | src/server.rs:249-252 | what is assumed of encoders holds of the one that compresses nothing |
| UdpServer.HandleUdpQuery | src/server.rs:159-334 | limited packets get REFUSED and malformed ones FORMERR, both with the packet's id and no records; answered queries get their datagram; all are within 512 octets or, for EDNS queries, 4096 |
| UdpServer.IdOctets | src/server.rs:181-184 | ids are read in network order, and are 0 for packets of less than two octets |
| TcpServer.FramesRoundTrip | src/server.rs:577-580 | bodies of legal size, each written after its length, are read back as exactly those bodies |
| TcpServer.FrameLength | src/server.rs:577-580 | the length stands in network order before the body |
| TcpServer.HandleTcpConnection | src/server.rs:363-588 | for every input stream the bytes written are the framed replies of the turns of its requests; the query count is exactly that of the ordinary replies and within the limit |
| TcpServer.TurnCodes | src/server.rs:415-561 | malformed requests get FORMERR under the packet's id, limited ones REFUSED, both without records; of the others transfer requests end the connection and all else gets its response |
| TcpServer.NextTurn | src/server.rs:376-411 | reading one frame splits the replies still to come: none, the last ones, or one reply and those of the rest of the stream |
| TcpServer.WriteReplies | src/server.rs:507-524 | the bytes written for a list of replies extend the framed stream by exactly those replies |
| TcpServer.RepliesReadBack | src/server.rs:577-580 | the peer reads back exactly the encoded replies |
| TcpServer.ConnectionInOrder | src/server.rs:363-588 | replies come in request order with their request's id, at most the budget of them; only the last turn can be an error, a refusal by the limiter or a transfer; requests stay unanswered only after such a turn, an empty frame or the budget |
| TcpServer.TransferDelivered | src/server.rs:490-550 | a transfer request gets the complete stream of the selected zone, one record a message, in order, or one REFUSED |

## Left out

- NameText.ParseName: reads absolute names only, as lrmdns.yaml:45 asks of origins.
- ZoneParser.ParseLines: rejects `$ORIGIN` names without a final dot, which the library reads as relative names.
- ZoneParser.ParseZoneFile: rejects configured origins without a final dot, for the same reason.
- NameText.PlainLabel: letters, digits, inner hyphens, a leading underscore, or a single `*`; what the library reads beyond that (escapes, other characters, internationalised and `xn--` labels) is rejected here, and the case of a spelling is not kept.
- ZoneParser.ParseResourceRecord: the arms for AAAA, TXT, CAA, DNSKEY, RRSIG, NSEC, DS, NAPTR, TLSA and SSHFP are an arbitrary function of type, tokens and origin.
- ZoneFiles.SpelledRecordExact: types and the class are spelled in upper case and every line names its owner; in other spellings the code sees other tokens.
- KeyTags.ComputeKeyTag: the tag after an overflow depends on the build profile and is not stated.
- TcpServer.HandleTcpConnection: a timeout is an end of the stream; failing reads and writes appear only as the `Disconnect` event of `Reload`.
- Replicas.ReplicaExact: SOA queries are excluded, because transfers send the SOA under the zone's `minimum` as its TTL.
- Reload: lock fairness, hence that a reload ever gets its turn, and shutdown signals are not modelled.
- Reload.Event: the store that a reload loads is any store; which one it is, `ZoneLoading` says.
- The wire format of messages: encoder and decoder are functions with assumed bounds, since the library that implements them is not part of this model.
- DNS classes: every record and question is of class IN.
- Error texts and the line numbers in them.
- Sockets, tasks, timers, logging, metrics, configuration defaults and the HTTP API: plumbing around the modelled parts.
- Digest checks of `verify_ds`, `check_signature_validity` and `find_related_dnssec_records`: cryptography and single comparisons.
- Wildcard semantics of RFC 4592, empty non-terminals and delegations: the code does not implement them.
