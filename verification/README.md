# EdgeShield: a verified model of its stateful and byte-level core

EdgeShield watches a network passively. Captured frames are decoded, DHCP and mDNS payloads are
searched for names, a discovery engine keeps one record per MAC address and sends events about
changes, a rule engine turns events into alerts, and SQLite stores behind a write-back cache keep
devices, alerts and daily history. An HTTP API is guarded by bearer keys and a rate limiter.

This project models the parts where untrusted bytes or long runs of events drive loops and mutable
state, and proves what they keep over every input and every run.

| file | what it models |
|---|---|
| `Common`, `Utf8`, `Sums`, `Dates` | octets, time, well-formed UTF-8 (table 3-7 of the Unicode standard), sums over maps, order of date texts |
| `DnsName`, `Mdns`, `MdnsWritten`, `Dhcp` | the compressed-name reader, the mDNS record walk and a writer of messages for it to read, the DHCP option walk |
| `Protocols`, `Devices` | protocol text codec, device record with saturating counters, database row |
| `WriteBack`, `Crashes`, `SqliteStore` | the cache, dirty set and table as an interleaved protocol; what a crash can lose; the store as a class whose calls are runs of that protocol |
| `Discovery`, `DiscoveryRuns`, `DeviceStories` | the per-packet update, whole packet runs, and what a device's record says after them |
| `RateLimiter`, `Auth`, `AuthRuns` | the pruned failure list against the full history; request checks; requests that overlap in any way |
| `Alerts`, `AlertStores` | alert rows and filters, both alert stores and their equivalence |
| `Conditions`, `RuleEngine`, `RuleRuns`, `Delivery`, `AlertCauses` | rule conditions and their meaning; rule evaluation; whole runs with users acknowledging and deleting; when what is sent is what is stored; which events alert |
| `History`, `Toml` | daily snapshots and range queries; TOML quoting |

`dafny verify dfyconfig.toml` checks the whole project.

## Where the code and its comments differ

The model follows the code.

- `crates/storage/src/sqlite.rs:158-162` says that updates made during a flush are caught by the next
  one. `WriteBack.UpdatesCanBeLost` gives a run in which one is not; `WriteBack.CleanRowsAreFresh`
  gives the exact condition; `WriteBack.AtomicFlushesLoseNothing` shows that nothing is lost when
  upserts do not overlap a flush.
- For the same reason a successful flush does not bound what a crash can lose for every device.
  `Crashes.CrashLosesNothingOlder` proves the bound for each MAC that was dirty at the flush's snapshot,
  or neither mid-upsert nor overtaken by an earlier flush. `Crashes.PendingCanBeLost` and
  `Crashes.OvertakenStaysLost` show that both exceptions are real. With no new upsert of the MAC before
  the next crash, `Crashes.RecoversIffFresh` says exactly when it is recovered all the same; after that
  crash, `Crashes.RecoversIffStored` does.
- The DHCP cookie is looked for at octet 240, although section 2 of RFC 2131 puts it at 236. An empty
  option 53 makes the code index out of range; the model calls this `Panicked` and proves that
  nothing else does.
- A length octet from 0x40 to 0xBF is read as an ordinary label length, although section 4.1.4 of
  RFC 1035 reserves it. Labels of 1 to 191 octets are therefore in scope, which includes all legal ones.
- The first hostname seen stays, even when it came from mDNS and DHCP offers another later.
- `after_seconds` of an offline rule is not consulted by the rule engine.
- `process_event` gives up at the first store error in `is_acknowledged`: alerts that earlier rules have
  already stored are then never sent (`RuleRuns.FaultLosesDelivery`); and an alert that could not be
  stored is sent all the same (`Delivery.UnstoredIsSent`). `Delivery.DeliveryIff` and
  `Delivery.RunDeliveryIff` give the exact condition for sending what is stored.
- The read key is compared first: when both keys are the same, that key may not change anything.
- `check` tests the limiter before it records a failure, in two steps. Requests of one address that overlap
  can all be told "invalid key", whatever `max_failures` is (`AuthRuns.OverlapBreaksBound`);
  `AuthRuns.GuessesAreBounded` gives the bound that does hold, and
  `AuthRuns.GuessesBoundedByConcurrency` one by the number of requests under way.
- A rate limit with a block shorter than its window lets more than `max_failures` failures through
  within one window (`RateLimiter.ShortBlockBreaksBound`).

## Model

| member | source | states |
|---|---|---|
| `DnsName.ReadNameInternal` | crates/protocol/src/mdns.rs:205-268 | for every payload, offset and mode the loop ends, never indexes out of range, returns what the recursive decoder with a budget of ten jumps says, and makes exactly the iterations that `Moves` counts; a name that is reported is the labels of a path laid out there, each in its place, with a full stop between each two |
| `DnsName.MovesBounded` | crates/protocol/src/mdns.rs:215-267 | however the pointers are arranged, those iterations number at most eleven times the payload's length, and one for an empty payload |
| `DnsName.PointerBits` | crates/protocol/src/mdns.rs:222-226 | the masks and shifts of the code are the comparison and the sum used by the model, for all octets |
| `DnsName.DecodeLaidOut` | crates/protocol/src/mdns.rs:215-267 | octets laid out as a path of labels and pointers are read if and only if the path has few enough pointers, all leading below the start; then exactly its labels come back and the end is just past the first pointer or zero octet |
| `DnsName.DecodeFollowsLayout` | crates/protocol/src/mdns.rs:215-267 | nothing else is read: whatever the reader accepts is laid out as such a path |
| `DnsName.ElevenPointersFail` | crates/protocol/src/mdns.rs:232-236 | a name with more than ten pointers is neither read nor skipped |
| `DnsName.ReadIsSkipPlusUtf8` | crates/protocol/src/mdns.rs:193-268 | reading succeeds if and only if skipping does and every label is UTF-8, and the ends agree |
| `DnsName.EndIsLocal` | crates/protocol/src/mdns.rs:229-244 | the reported end depends only on the octets of the name in place, not on what its pointers lead to |
| `DnsName.DecodeStays` | crates/protocol/src/mdns.rs:205-268 | a name that reads in a message reads the same after anything is appended |
| `DnsName.RoundTrip` | crates/protocol/src/mdns.rs:205-281 | labels written after any message, their tail replaced by a pointer to any earlier place that reads as that tail, are read back: the text has each label in its place, octet 0x2E before every later one, and nothing else, and the end is just past what was written, whatever follows |
| `DnsName.JoinIsDotted` | crates/protocol/src/mdns.rs:245-246 | in the joined text label i stands at i plus the lengths of the labels before it, the octet before each later label is 0x2E, and nothing follows the last |
| `DnsName.DottedIsUnique` | crates/protocol/src/mdns.rs:245-246 | the labels leave no choice about such a text |
| `DnsName.ReportSpells` | crates/protocol/src/mdns.rs:205-268 | every name that is read says the labels of its path in that form, and ends where the path does |
| `DnsName.JoinIsUtf8` | crates/protocol/src/mdns.rs:245-265 | every name that is reported is well-formed UTF-8 |
| `Mdns.ParseRecord` | crates/protocol/src/mdns.rs:149-189 | a record that parses moves on by at least eleven octets and stays within the payload; `MdnsWritten.RecordRoundTrip` says what is in it |
| `Mdns.SkipQuestions` | crates/protocol/src/mdns.rs:83-89 | the question loop ends where the questions end, having passed exactly the questions before the first bad one |
| `Mdns.WalkSection` | crates/protocol/src/mdns.rs:97-123 | one section extends the walk by its count of records, or stops at the first bad one, keeping what was gathered |
| `Mdns.WalkSections` | crates/protocol/src/mdns.rs:96-124 | the nested loops read exactly the well-formed record prefix of all three sections together |
| `Mdns.GatheredIsSummary` | crates/protocol/src/mdns.rs:110-122 | the running updates find the first SRV target and the first PTR with readable data, or else the last PTR's owner name |
| `Mdns.ParseMdns` | crates/protocol/src/mdns.rs:64-131 | for every payload the parser returns the declarative summary, and walks exactly the questions and records that the definitions name; `MdnsWritten.MessageRoundTrip` says what the summary is of |
| `Mdns.WalkFitsPayload` | crates/protocol/src/mdns.rs:83-124 | 5q + 11r <= length - 12 for the questions and records walked, whatever the header claims |
| `MdnsWritten.RecordRoundTrip` | crates/protocol/src/mdns.rs:149-189 | a record written as owner, 16-bit type, class, TTL, length and data, for type 12 a name, for type 33 three 16-bit fields and a name, otherwise any octets, is parsed with its owner, type, instance or target, and end, for every message before it and anything after |
| `MdnsWritten.MessageRoundTrip` | crates/protocol/src/mdns.rs:64-189 | of every written header, questions and three sections of records, with any pointers between them and anything after, the parser reports the first target as hostname, and instance and service type of the first pointer that names something, or else the last pointer's owner |
| `Dhcp.ParseDhcp` | crates/protocol/src/dhcp.rs:63-144 | for every payload: the last usable hostname and vendor class and the last message type among the options before End or truncation; a panic if and only if one of them is an empty option 53 |
| `Dhcp.UpdateInfo` | crates/protocol/src/dhcp.rs:112-138 | one option replaces the hostname, the vendor class or the message type when it is usable, and nothing else |
| `Dhcp.WrittenOptionsAreRead` | crates/protocol/src/dhcp.rs:86-144 | every list of options and pads written into a payload, before End and anything or up to its end, is read back, but for a pad in the last octet |
| `Dhcp.EncodedOptionsUnderstood` | crates/protocol/src/dhcp.rs:63-144 | for every list of options and pads after octets 63 82 53 63 at 240: hostname and vendor class are the texts of the last options 12 and 60 that have more than NULs, without the NULs at their end, the message type is the first octet of the last option 53, and the parser panics if and only if one of these is empty |
| `Dhcp.UsableIff` | crates/protocol/src/dhcp.rs:113-132 | an option value gives a text if and only if it is the encoding of Unicode characters; the text is its longest prefix that does not end in NUL, and not empty |
| `Utf8.ValidIff` | crates/protocol/src/dhcp.rs:115-115 | the octets accepted as UTF-8 are the RFC 3629 encodings of sequences of Unicode scalar values, and nothing else |
| `Dhcp.TrimmedIsUtf8` | crates/protocol/src/dhcp.rs:113-132 | cutting NULs off the end of a valid string leaves a valid string |
| `Protocols.DisplayParses` | crates/common/src/types.rs:79-127 | every protocol's text parses back to it, all 256 unknown numbers included |
| `Protocols.ReadStats` | crates/storage/src/sqlite.rs:327-355 | the loop that fills the map computes the last-wins reading of the pairs, skipping unknown names |
| `Protocols.StatsRoundTrip` | crates/storage/src/sqlite.rs:317-355 | per-protocol counts survive storage as text |
| `Protocols.ProtocolsRoundTrip` | crates/storage/src/sqlite.rs:284-315 | protocol sets survive storage as text |
| `Devices.CountersExact` | crates/common/src/types.rs:184-231 | after any traffic every counter is its true total, or 2^64 - 1 when that is less, and the keys of the per-protocol counts are exactly the protocols |
| `Devices.PacketCountIsStatsTotal` | crates/common/src/types.rs:211-231 | the packet count is the capped sum of the per-protocol counts, saturated or not |
| `Devices.RowRoundTrip` | crates/storage/src/sqlite.rs:358-402 | writing a device to a row and reading it back loses only parts of a millisecond |
| `Devices.MergedRowReadsBack` | crates/storage/src/sqlite.rs:184-197 | an upsert into an existing row keeps its first_seen and replaces everything else |
| `Devices.ColumnsMean` | crates/storage/src/sqlite.rs:184-197 | two devices have the same columns if and only if they differ in first_seen and parts of a millisecond of last_seen at most |
| `WriteBack.RowProvenance` | crates/storage/src/sqlite.rs:163-226 | in every reachable state a row carries a value that the cache held for that MAC, at the read its last store came from or at the opening |
| `WriteBack.MarksFollowAlways` | crates/storage/src/sqlite.rs:411-418 | over every run, an upsert that is not pending has been marked, and a mark is gone only through a later un-mark |
| `WriteBack.StoredInTurnAlways` | crates/storage/src/sqlite.rs:172-220 | over every run, what a flush has stored was read after its snapshot, and only stored MACs get un-marked |
| `WriteBack.CleanRowsAreFresh` | crates/storage/src/sqlite.rs:163-226 | in every reachable state, a MAC neither dirty nor mid-upsert has a fresh row unless its latest upsert fell wholly between the flush's read and un-mark; then it is fresh if and only if that upsert changed no column |
| `WriteBack.UpdatesCanBeLost` | crates/storage/src/sqlite.rs:158-220 | for every two different devices of one MAC there is a run after which nothing is dirty or pending and the row is out of date |
| `WriteBack.QuietFlushStores` | crates/storage/src/sqlite.rs:172-220 | a MAC with no upsert since the snapshot is fresh once the flush has passed it, so a later upsert and flush repair a lost update |
| `WriteBack.FailedFlushKeepsMarks` | crates/storage/src/sqlite.rs:184-220 | a flush that fails keeps every mark it started from, from every reachable state |
| `Crashes.CrashRecovers` | crates/storage/src/sqlite.rs:85-153 | once a flush has passed a MAC, every later crash, however many came before it, recovers a value that was held for it after that flush's snapshot |
| `Crashes.CrashLosesNothingOlder` | crates/storage/src/sqlite.rs:85-226 | once a flush has succeeded, every later crash, however many came before it, recovers, for each MAC that was dirty at its snapshot or neither mid-upsert nor overtaken, a value that the cache held at that snapshot or later |
| `Crashes.RecoversIffFresh` | crates/storage/src/sqlite.rs:163-226 | with no new upsert of a MAC since an idle moment, whatever marks and flushes follow, the next crash recovers it as of that moment if and only if its row was fresh then or a flush has stored it from a read since |
| `Crashes.RecoversIffStored` | crates/storage/src/sqlite.rs:85-153 | once the process has crashed since some moment, every later crash recovers a MAC as of that moment or later if and only if it has a row |
| `Crashes.UnmarkedRowStays` | crates/storage/src/sqlite.rs:172-220 | flushes never change the row of a MAC that is not marked |
| `Crashes.PendingCanBeLost` | crates/storage/src/sqlite.rs:411-418 | for every device there is a run in which a successful flush meets it mid-upsert and a later crash loses it |
| `Crashes.OvertakenStaysLost` | crates/storage/src/sqlite.rs:158-220 | for every change of a device there is a run in which a flush overtakes it, the next flush succeeds, and a later crash loses it |
| `WriteBack.PinnedAlways` | crates/storage/src/sqlite.rs:184-197 | over every run whose upserts keep first_seen, rows and buffer carry the cached first_seen |
| `WriteBack.ReopenRestores` | crates/storage/src/sqlite.rs:85-153 | when all rows are fresh, reopening rebuilds the same device map up to parts of a millisecond |
| `WriteBack.NeverDisturbed` | crates/storage/src/sqlite.rs:163-226 | over every run in which upserts do not overlap flushes, no upsert is ever overtaken |
| `WriteBack.AtomicFlushesLoseNothing` | crates/storage/src/sqlite.rs:85-226 | in such runs, whenever nothing is dirty or in flight, reopening rebuilds the same device map |
| `WriteBack.HistKinds` | crates/storage/src/sqlite.rs:163-226 | the step indices that the other results speak of are of upserts, marks, snapshots, reads and un-marks, as named |
| `WriteBack.HistIsLatest` | crates/storage/src/sqlite.rs:163-226 | no later step of that kind has happened since the last crash |
| `SqliteStore.LoadAll` | crates/storage/src/sqlite.rs:137-153 | the loading loop rebuilds the device of every row |
| `SqliteStore.SqliteStore.Open` | crates/storage/src/sqlite.rs:85-133 | the cache is what the table reads as, and nothing is dirty |
| `SqliteStore.SqliteStore.Upsert` | crates/storage/src/sqlite.rs:411-418 | the device is cached and marked, the table is untouched, every clean device stays fresh; a cache write and a mark of the protocol |
| `SqliteStore.SqliteStore.StoreRows` | crates/storage/src/sqlite.rs:177-215 | the writing loop stores exactly the MACs before the refused statement, in order |
| `SqliteStore.SqliteStore.Flush` | crates/storage/src/sqlite.rs:163-226 | on success nothing is dirty and every row is fresh; on an error all marks are kept and exactly the MACs before the refused statement are stored; either way it takes the steps that the protocol allows, in order |
| `SqliteStore.FlushLeads` | crates/storage/src/sqlite.rs:163-226 | snapshot, a read and a store for each MAC, the un-marks and the return are enabled in turn and lead to that state, for every order of the dirty set and every refused statement |
| `SqliteStore.RunGoesOn` | crates/storage/src/sqlite.rs:163-226 | what the class does in a call continues any run of the protocol, so every result about runs is about it |
| `SqliteStore.SqliteStore.Unmark` | crates/storage/src/sqlite.rs:217-220 | the second loop removes exactly the flushed MACs from the dirty set |
| `Discovery.GrownSetsBySize` | crates/discovery/src/discovery.rs:252-252 | comparing the sizes of sets that only grow is comparing the sets |
| `Discovery.TouchSource` | crates/discovery/src/discovery.rs:191-252 | the source half updates the device as specified and reports a change if and only if something visible changed |
| `Discovery.TouchDestination` | crates/discovery/src/discovery.rs:277-296 | the destination half, which compares fewer fields, still reports a change if and only if something visible changed |
| `Discovery.DiscoveryEngine.UpdateDevices` | crates/discovery/src/discovery.rs:158-306 | one packet moves the store and the events from one specified state to the next; `DeviceStories.RecordIs` says what the records then hold |
| `DeviceStories.RunIsAlone` | crates/discovery/src/discovery.rs:158-306 | over every packet run, each device's record is what its own packets make of it |
| `DeviceStories.RecordIs` | crates/discovery/src/discovery.rs:158-306 | over every packet run from every store: a device is known if and only if it was or a packet met it; `last_seen` is the clock of the last packet that met it; its addresses are the old ones and both of exactly those packets; hostname and vendor class are the old ones or the first that a packet from it offered, DHCP before mDNS; vendor and `first_seen` are those of its creation |
| `DeviceStories.LastSeenIs` | crates/common/src/types.rs:211-231 | `last_seen` is the clock reading of the last packet that had this MAC as source or destination |
| `DeviceStories.IpsAre` | crates/discovery/src/discovery.rs:230-285 | an address is in the record if and only if it was from the start or a packet that met the device carried it |
| `DeviceStories.HostnameIs` | crates/discovery/src/discovery.rs:201-217 | the first name wins, whichever protocol brought it, DHCP before mDNS within a packet |
| `DeviceStories.VendorClassIs` | crates/discovery/src/discovery.rs:223-228 | the first vendor class wins |
| `DeviceStories.CreationIs` | crates/discovery/src/discovery.rs:175-275 | vendor and `first_seen` stay those of the creation |
| `DiscoveryRuns.EventsAreFaithful` | crates/discovery/src/discovery.rs:158-306 | over every packet run and every pattern of full channels, the last attempt about a MAC carries its current protocols, names and IPs, and the last delivered event does if and only if that attempt was taken |
| `DiscoveryRuns.RunsAreOnlyNews` | crates/discovery/src/discovery.rs:237-302 | over every packet run, each event about a device shows strictly more than every earlier one, and than what was stored about it at the start |
| `DiscoveryRuns.EngineUpsertsPreserve` | crates/discovery/src/discovery.rs:175-287 | the engine's upserts keep first_seen, as the write-back results need |
| `DiscoveryRuns.DeviceCountersExact` | crates/discovery/src/discovery.rs:167-303 | over every packet run, each device's counters are the capped totals of its own traffic |
| `DiscoveryRuns.TrafficConserved` | crates/discovery/src/discovery.rs:167-303 | from an empty store and below the 64-bit cap, the devices together sent every octet, received every octet that went to another station, and counted one packet per station touched |
| `RateLimiter.RateLimiter.IsBlocked` | crates/api/src/auth.rs:295-308 | blocked if and only if the limiter is on and this address's block has not run out |
| `RateLimiter.RateLimiter.RecordFailure` | crates/api/src/auth.rs:312-347 | prunes, appends and perhaps blocks this address, and touches no other |
| `RateLimiter.EntryRefinesHistory` | crates/api/src/auth.rs:295-347 | over every run with a clock that does not go back, the pruned list decides as counting all failures since the last trigger would; blocked if and only if some trigger covers the time; the list stays below the threshold, so the cast to u32 is exact |
| `RateLimiter.ChronicleIsJudged` | crates/api/src/auth.rs:312-347 | every replayed history has, call by call, the verdict that the calls before it demand |
| `RateLimiter.VerdictsAreTrue` | crates/api/src/auth.rs:312-347 | on every failure of every run: ignored if and only if a block covers it, and otherwise a trigger if and only if it and the counted failures since the last trigger that are less than a window old number at least max_failures |
| `RateLimiter.TriggersAreSpaced` | crates/api/src/auth.rs:325-346 | after a trigger nothing is counted and nothing triggers for the length of a block |
| `RateLimiter.RateBound` | crates/api/src/auth.rs:312-347 | with a block at least as long as the window, failures that are not turned away within less than a window number at most max_failures |
| `RateLimiter.ShortBlockBreaksBound` | crates/api/src/auth.rs:312-347 | for every shorter block and every threshold there is a run that breaks the bound |
| `Auth.AuthState.Check` | crates/api/src/auth.rs:138-175 | a blocked address is refused whatever it presents; any other request gets the answer that the law below demands; a failure is recorded if and only if a well-formed token matches no key, for that address alone |
| `Auth.DecideIsLawful` | crates/api/src/auth.rs:107-202 | the answer to a request that is not blocked, from header text, verb and hashes alone: which permission is granted, and which refusal each other case gets |
| `Auth.GrantedIff` | crates/api/src/auth.rs:107-202 | granted if and only if there is no read key, or the header is "Bearer t" or "bearer t" with t not empty and t's hash is the read key's, while there is no admin key or the verb is not POST, DELETE, PUT or PATCH, or is the admin key's and not the read key's; and when it is Admin that is granted |
| `AuthRuns.IgnoredIffOvertaken` | crates/api/src/auth.rs:312-330 | a failure is ignored by the limiter if and only if a block began between its request's check and its record, and still lasts |
| `AuthRuns.GuessesAreBounded` | crates/api/src/auth.rs:138-175 | over every interleaving of requests from one address, within less than a window the requests told "invalid key" are at most max_failures plus those that a block overtook, and exactly the counted ones plus those |
| `AuthRuns.NoGuessIgnored` | crates/api/src/auth.rs:138-175 | when requests of the address do not overlap, every answered guess is counted |
| `AuthRuns.SequentialGuessesAreBounded` | crates/api/src/auth.rs:138-175 | and at most max_failures of them fall within less than a window |
| `AuthRuns.GuessesBoundedByConcurrency` | crates/api/src/auth.rs:138-175 | when at most c requests of the address are under way at a time, at most max_failures + 2(c - 1) of them are told "invalid key" within less than a window |
| `AuthRuns.OverlapBreaksBound` | crates/api/src/auth.rs:150-167 | for every max_failures and every n there is a run in which n requests are told "invalid key" at one instant |
| `AuthRuns.AddressesAreApart` | crates/api/src/auth.rs:312-330 | over every run of requests from any addresses, the entry of each address is the replay of its own failures, and its steps are a run of their own |
| `AuthRuns.CheckIsTwoTurns` | crates/api/src/auth.rs:138-175 | a call of check that nothing interrupts is those two steps, with the effect that `Auth.AuthState.Check` promises |
| `Alerts.SeveritySurvives` | crates/storage/src/alert_sqlite.rs:104-109 | severities survive storage as text |
| `Alerts.SeverityParsesIff` | crates/common/src/alert.rs:54-63 | the three names, and "warn", in any ASCII case, are the severities; nothing else is |
| `Alerts.EventTypeSurvivesIff` | crates/storage/src/alert_sqlite.rs:162-169 | an event type survives storage if and only if it is not a custom one named like a built-in one |
| `Alerts.RowReadsBack` | crates/storage/src/alert_sqlite.rs:89-132 | an alert read back from its row is the alert, up to milliseconds and such names |
| `Alerts.BuildFilter` | crates/storage/src/alert_sqlite.rs:135-158 | the numbered clauses and parameters select a stored alert if and only if the in-memory closure accepts it, for every combination of filters |
| `AlertStores.InMemoryAlertStore.InsertAlert` | crates/rules/src/store.rs:41-49 | the alert is stored under the next id |
| `AlertStores.InMemoryAlertStore.IsAcknowledged` | crates/rules/src/store.rs:103-107 | true if and only if some stored alert of this rule and MAC is acknowledged |
| `AlertStores.InMemoryAlertStore.ListAlerts` | crates/rules/src/store.rs:51-83 | the matching alerts, each once, newest first, cut to the limit, whatever order the map yields |
| `AlertStores.SelectDown` | crates/storage/src/alert_sqlite.rs:202-233 | the selected rows by descending id read back as the matching alerts |
| `AlertStores.SqliteAlertStore.ListAlerts` | crates/storage/src/alert_sqlite.rs:202-233 | the matching alerts by descending id, cut to the limit |
| `AlertStores.SqliteAlertStore.AcknowledgeAlert` | crates/storage/src/alert_sqlite.rs:264-282 | marks the alert, or reports that there is none |
| `AlertStores.DescendingIsUnique` | crates/storage/src/alert_sqlite.rs:202-233 | a listing of the matching alerts by descending id is unique |
| `AlertStores.ListingsAgree` | crates/rules/src/store.rs:51-83 | with strictly increasing timestamps both stores list the same alerts in the same order, for every filter and limit |
| `AlertStores.OrdersAgreeIff` | crates/rules/src/store.rs:76-77 | the order by id is an order by time for every filter if and only if no alert is older than one with a smaller id |
| `AlertStores.StoresAgree` | crates/storage/src/alert_sqlite.rs:172-325 | for every sequence of calls of any kind with increasing alert timestamps, every sequence of replies that the in-memory store may give is the SQLite store's, up to what storage changes in the alerts carried |
| `AlertStores.RunBoth` | crates/rules/src/store.rs:41-111 | both stores, fresh, give replies that are such sequences, for every sequence of calls |
| `RuleEngine.RuleEngine.EvaluateRule` | crates/rules/src/engine.rs:218-288 | an alert is raised if and only if the event is of the kind that the rule names, its cooldown has passed, and the store answers that nothing silences it; the alert gives the rule's name and severity and the event's kind, device and wall time; what becomes of the fire times, the store and the id, with either store call failing |
| `RuleEngine.EvaluateIsLawful` | crates/rules/src/engine.rs:218-288 | the same of the specified evaluation, the cooldown being seconds times 1,000,000,000 and the kinds the event's own constructors |
| `Conditions.FitsMeans` | crates/rules/src/engine.rs:231-252 | the five conditions hold of an event if and only if it is of the constructor that they name, and, for a vendor filter, the vendor holds the filter at some position up to ASCII case, for a prefix, the six octets of the MAC as colon-separated hexadecimal pairs start with it up to ASCII case |
| `Conditions.MacTextSpells` | crates/rules/src/engine.rs:290-299 | the text matched against a prefix has the octets of the MAC number, most significant first, as two digits each with colons between |
| `Conditions.SpellingIsUnique` | crates/rules/src/engine.rs:290-299 | a MAC has only one such text |
| `RuleEngine.RuleEngine.ProcessOne` | crates/rules/src/engine.rs:171-211 | one event against all rules, then the sends one by one, on a channel that may close after any of them, equals the specified transition; `Delivery.EventDelivers` and `AlertCauses.CausesRaiseAlerts` say what it does |
| `RuleEngine.RuleEngine.FireAll` | crates/rules/src/engine.rs:189-211 | the sending loop puts out exactly the alerts that the channel still takes, in order, and does not stop at a refusal |
| `AlertCauses.AlertsHaveCauses` | crates/rules/src/engine.rs:171-288 | over every run, every alert that is stored or sent has an event of the run and a rule that was on and names that kind of event, and gives the rule's name and severity and the event's kind, device and time; of a rule only its fire times ever change |
| `AlertCauses.CausesRaiseAlerts` | crates/rules/src/engine.rs:171-288 | at every step of every run, a rule alerts for a device if and only if the step is an event of that device and of the kind that the rule names, its turn comes, it is on and rested, and the store answers that no acknowledged alert silences it; and if the store takes it, such an alert is there afterwards under a new id |
| `RuleRuns.AcknowledgedStaysQuiet` | crates/rules/src/engine.rs:269-274 | over every run from the acknowledgement of an alert to its deletion, no rule of that name stores or sends an alert for that device, even when the store fails |
| `RuleRuns.AcknowledgingSilences` | crates/rules/src/store.rs:89-96 | so a user who acknowledges an alert hears nothing more of that rule name for that device until the alert is deleted |
| `RuleRuns.RoundStoresWhatItCollects` | crates/rules/src/engine.rs:181-191 | without store faults, what one event's rules collect is exactly what they store, under consecutive ids |
| `RuleRuns.SentIsPersisted` | crates/rules/src/engine.rs:171-211 | over every run with an open channel and no store fault, the alerts sent are the alerts stored, in order, with strictly increasing ids |
| `RuleRuns.FaultLosesDelivery` | crates/rules/src/engine.rs:181-191 | a witness: a failing acknowledgement check at a later rule leaves a stored alert that is never sent |
| `Delivery.RoundIsForetold` | crates/rules/src/engine.rs:181-188 | what one event's rules hand over and store is told from the state before it: exactly what the rules before the first refused one do |
| `Delivery.EventDelivers` | crates/rules/src/engine.rs:171-211 | for every engine and event, whatever fails, what is stored and what is sent; when the event is given up, what is lost is exactly what the rules before the first refused one stored |
| `Delivery.DeliveryIff` | crates/rules/src/engine.rs:181-191 | what is sent is what is stored if and only if, of the alerting rules whose turn comes, exactly those store their alerts whose alerts the channel takes: none when the event is given up |
| `Delivery.UnstoredIsSent` | crates/rules/src/engine.rs:280-285 | an alert that could not be stored is sent with id 0, which no stored alert has, when the channel takes it |
| `Delivery.RunDeliveryIff` | crates/rules/src/engine.rs:171-211 | over every run, the alerts sent are the alerts stored, in order, if and only if every event met that condition: a loss is never made up for |
| `RuleRuns.CooldownIsThinning` | crates/rules/src/engine.rs:110-123 | over every run, a rule alerts for a device exactly at the matching events that greedy thinning by its cooldown keeps and that are not silenced |
| `RuleRuns.AlertsAreSpaced` | crates/rules/src/engine.rs:110-123 | consecutive alerts of a rule for a device are at least the cooldown apart |
| `RuleRuns.AlertsPerSpan` | crates/rules/src/engine.rs:110-123 | an interval of length T holds at most T / cooldown + 1 alerts |
| `History.BuildRange` | crates/storage/src/history_sqlite.rs:286-306 | the numbered conditions mean the asked range, whichever ends are given |
| `History.PresentIff` | crates/storage/src/history_sqlite.rs:222-343 | over every run a key is present if and only if one of its insertions was not followed by its removal |
| `History.LastWriteWins` | crates/storage/src/history_sqlite.rs:222-271 | over every run a row is the last insertion's, but for first_seen, which is that of the first insertion since the key was last removed |
| `History.SqliteHistoryStore.InsertSnapshot` | crates/storage/src/history_sqlite.rs:222-271 | the upsert on the rows is the specified upsert on what they read back as |
| `History.SqliteHistoryStore.DeleteOlder` | crates/storage/src/history_sqlite.rs:328-343 | exactly the rows before the date go, and their number is returned |
| `History.SelectAscending` | crates/storage/src/history_sqlite.rs:286-325 | the rows in range, each once, by strictly ascending date |
| `History.SqliteHistoryStore.ListHistory` | crates/storage/src/history_sqlite.rs:273-326 | exactly the rows in range by strictly ascending date, cut to the limit |
| `History.ListingIsUnique` | crates/storage/src/history_sqlite.rs:307-307 | the table alone determines the listing |
| `History.LimitKeepsEarliest` | crates/storage/src/history_sqlite.rs:309-311 | whatever a limit cuts off is later than everything it keeps |
| `History.RangeIsCalendar` | crates/storage/src/history_sqlite.rs:296-305 | with dates written YYYY-MM-DD the range is the calendar's |
| `Dates.TextOrderIsCalendarOrder` | crates/storage/src/history_sqlite.rs:335-338 | comparing date texts is comparing dates |
| `Toml.TwoPassesAreOne` | crates/cli/src/setup.rs:255-258 | the two replacements in their order are one escape per character |
| `Toml.QuotedReadsBackIff` | crates/cli/src/setup.rs:255-258 | reading the quoted text as a TOML basic string gives the string back if and only if it has no forbidden control character |

## Left out

- Packet capture, decoding and protocol classification: a decoded and classified packet is an input of the discovery engine.
- SQLite, JSON and IP address texts, SHA-256, chrono and DashMap: a table of rows with atomic statements, faithful texts, a hash function given as a parameter, millisecond truncation, and atomic map operations.
- Rows whose text some other program wrote, which the readers skip, default or replace by the current time.
- Durability after a power loss: a row that a statement has stored is taken to survive a crash of the process.
- Counters above the range of an SQLite integer: they are one way for a statement to fail.
- Marks made while the dirty set is being collected: the collection is one step of the model, while the code iterates over a concurrent set.
- Aliasing of device records: a device is a value here, since the code clones it out of the store, changes the copy and writes it back; aliasing is not modelled.
- The listing and counting queries of the device store, and the vacuum of the history store.
- Errors of `get` and `upsert` in the discovery engine, which abandon the rest of one packet.
- The type of MAC addresses, which is not part of this model: its text is taken to be six colon-separated pairs of hexadecimal digits, as `mac_matches_prefix` documents; their case does not matter to it.
- The OUI vendor lookup and the text of alert messages: functions given as parameters.
- A, AAAA and TXT records of mDNS, which the code skips over as well.
- The offline scanner and its silence threshold; the rule engine's `after_seconds` has no effect to model.
- AuthRuns.GuessesAreBounded: reading the clock and changing the entry are one step, while `record_failure` reads the clock before it locks the entry, so two records may be applied in the other order of their readings.
- Alert delivery to notifiers, the terminal interface, telemetry, HTTP routing, configuration parsing, the daemon's timers and the rest of the command line: input, output and wiring around the parts modelled here.
- Numeric TOML escapes: quoting never writes them, and the reader of this model knows only the two escapes that it writes.
