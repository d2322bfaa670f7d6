# evan-proxy, verified

A Dafny model of the parts of evan-proxy that keep state under concurrency or do real interval
arithmetic, with proofs of what they promise. evan-proxy is a parental-control proxy: it
authenticates users on their own ports, blocks them during downtime, and answers blocked HTTPS
requests with a page signed by its own certificate authority.

What changes in place in the source is a class here (`CertCache`, `OrderList`, `CA`, `Limiter`,
`GlobalCounter`, `Login`, `UserDb`, the two `Handler`s, `Collector`, `CountingWriter`,
`TrafficCounter`). Each of its methods is proved equal to a step on plain values, and the theorems
are about all runs of such steps. Where calls run concurrently, the steps are the critical sections,
so a run is any interleaving at lock releases.

- **Leaf certificates.** `OrderList` is the linked list, `CertCache` the LRU over it,
  `LeafCacheSpec` what they mean, `CacheTrace` what a cache holds after any history,
  `CacheInclusion` how caches of two sizes compare. `CertAuthority` is the CA with its cache when
  calls run one at a time, `Rotation` when they run concurrently, and `ServedLeaves` says which CA
  signed what concurrent calls are handed.
- **Downtime.** `ClockText` reads times, `Downtime` validates and evaluates schedules,
  `DowntimeWeek` says what acceptance means over a week, `ClientStatus` is the app's second
  implementation.
- **Limiters.** `SlidingWindow` holds the two limiters, `LoginProtocol` runs login attempts through
  them concurrently, `LimiterTight` attains the bound, `LimiterExact` says who is let in,
  `LoginHandler` is the handler.
- **Users.** `UserTable` says what each operation does to the table and its caches, `UserDb` does it
  in place, `AuthTransparency` and `CacheCoherence` show that the caches do not show while operations
  follow each other, `PasswordRace` when a password check and a change overlap. `UserHistory` reads
  passwords and settings off the operations and their replies.
- **Ports.** `PortListeners` has the steps of whole actions and the theorems about them,
  `PortSections` the critical sections in any order, `PortHandler` the maps and the admin handlers,
  `PortActions` what each admin action leaves behind.
- **Requests.** `AuthSession` has the session cache and its chain of evidence, `ProxyHandler`
  serves CONNECT and plain requests, `BlockDecision` says who is blocked in terms of the table,
  `Passthrough` picks the hosts that are never blocked.
- **Traffic.** `TrafficLog` is the unbounded log, `TrafficCollector` the ring that shows its end,
  `ByteFlow` the way of the bytes under any interleaving, `ByteCounter` its objects.

Times are integers of a clock that does not go back: nanoseconds, or seconds in the traffic ring.

## What the code does not do

Where the code falls short of what its comments or its shape suggest, the model keeps the code and
the proofs say exactly when it holds.

- The comment at `pkg/mitm/ca.go:72-73` says that no leaf of a retired CA can land in the cache after
  the purge. The generation check and the insert are separate critical sections, so a rotation between
  them leaves such a leaf (`RaceLeavesStaleLeaf`). `RotationTheorem` bounds these leaves,
  `CleanTheorem` says exactly which runs have none, and `FusedTheorem` shows that one critical
  section for both would do.
- Deleting a user forgets every cache entry but the ad-hoc downtime. Recreated, the user is blocked
  though the new row knows of no downtime (`RecreatedUserDowntime`).
- Deadlines are stored in whole seconds, so a restart may end a block up to a second early
  (`DowntimeTheorem` says exactly when).
- Validation accepts day keys such as `01`, `007` or `+1`, and only the seven canonical ones are ever
  looked up (`EnforcedKeys`, `PaddedKeyIgnored`).
- A password check reads the hash, may rewrite it and caches the password in separate steps. One that
  overlaps a complete password change can store and cache the old password again
  (`OldPasswordReturns`); `HashTheorem` and `CacheTheorem` say exactly which interleavings do.
- A reconcile that runs inside a port update, between its database write and its start, has its new
  server orphaned (`InterleavedMoveOrphans`), and a handler that acts on a port it read earlier can
  register it for the wrong user (`StaleEnsure`). `InterleavingTheorem` says exactly which
  interleavings orphan a server, `AgreementTheorem` which ones keep owner, map and row in agreement.
- `Allow` lets a client without failures on record through whatever the limit, so with a limit below
  one the bound on failures is k rather than limit - 1 + k (`Bound`, attained in `BoundAttained`). The
  admin login cannot be configured so (`pkg/config/config.go:207`); the proxy's limiter can, since
  `AUTH_FAIL_RATE_LIMIT` is read without a check (`pkg/config/config.go:125`).
- User names may hold colons, and a session key joins address and name by a colon. On the port of such
  a user no request is ever attributed to the owner (`AttributionTheorem`), and another user's session
  from another address can be taken for one of its own (`OwnerWithColon`). `KeyTheorem` says exactly
  when two keys are equal, for any owner and any addresses.
- With interception on, a disabled user is blocked on CONNECT but not on plain HTTP (`DisabledUser`).

## Model

| member | source | states |
|---|---|---|
| `OrderList.OrderList.PushFront` | pkg/mitm/lru.go:64 | the new element becomes the head of the ring, all others keep their order |
| `OrderList.OrderList.MoveToFront` | pkg/mitm/lru.go:39-51 | the element becomes the head, the others keep their order, no element is lost |
| `OrderList.OrderList.Remove` | pkg/mitm/lru.go:67 | exactly this element leaves the ring |
| `OrderList.OrderList.Back` | pkg/mitm/lru.go:66 | the oldest element |
| `CertCache.CertCache.constructor` | pkg/mitm/lru.go:27-36 | an empty cache; a bound below one counts as one |
| `CertCache.CertCache.Get` | pkg/mitm/lru.go:39-51 | the list-and-index heap answers as the abstract cache, counts a hit or a miss, keeps list and index in bijection |
| `CertCache.CertCache.Put` | pkg/mitm/lru.go:54-70 | inserting or overwriting in place refines the abstract insert |
| `CertCache.CertCache.Insert` | pkg/mitm/lru.go:64-69 | the eviction loop keeps exactly the newest max entries |
| `CertCache.CertCache.Purge` | pkg/mitm/lru.go:74-79 | empties list and index together, the counters stay |
| `CertCache.CertCache.ValidIsWellFormed` | pkg/mitm/lru.go:11-20 | list and index in bijection mean distinct keys within the bound |
| `CertCache.CertCache.Len` | pkg/mitm/lru.go:81-85 | the list's length is the number of entries |
| `LeafCacheSpec.StepsKeepWellFormed` | pkg/mitm/lru.go:39-79 | every operation keeps keys distinct and the bound |
| `LeafCacheSpec.OthersAt` | pkg/mitm/lru.go:44-50 | with distinct keys, dropping a key cuts out its one position, and finding it gives that entry |
| `CacheTrace.AccessKeepsMostRecent` | pkg/mitm/lru.go:39-70 | one access keeps the cache the list of the most recently accessed keys |
| `CacheTrace.HistoryTheorem` | pkg/mitm/lru.go:39-79 | after any history the cache holds, in order, exactly the max most recently accessed keys since the last purge with their latest leaves, and hits plus misses are the gets |
| `CacheInclusion.CertForKeys` | pkg/mitm/mint.go:37-57 | a served request moves its name to the front, hit or miss, fresh or stale |
| `CacheInclusion.MoveToFrontTake` | pkg/mitm/lru.go:54-70 | moving to the front commutes with truncation |
| `CacheInclusion.InclusionTheorem` | pkg/mitm/mint.go:37-57 | on the same requests a smaller cache holds a prefix of a larger one, so its hits are never more |
| `CertAuthority.CA.constructor` | pkg/mitm/ca.go:46-57 | defaults for a TTL or a size of zero or less, and an empty cache |
| `CertAuthority.CA.CertFor` | pkg/mitm/mint.go:37-57 | run alone, it answers as `Answer` and `ServesTheorem` say; the cache takes one lookup and at most one insert, and holds no leaf of a retired CA |
| `CertAuthority.ServesTheorem` | pkg/mitm/mint.go:37-62 | a leaf served certifies the name under the current CA, has not expired and heads the cache; a cached leaf with more than a minute to go is never minted anew, and none is served exactly if signing is needed and fails |
| `CertAuthority.CA.AddFresh` | pkg/mitm/mint.go:48-55 | a leaf is cached exactly if the CA it was signed by is current |
| `CertAuthority.CA.Rotate` | pkg/mitm/ca.go:221-241 | unacceptable material changes nothing; otherwise the generation grows by one and the cache is emptied |
| `Rotation.StepKeepsInv` | pkg/mitm/mint.go:37-57 | every critical section of concurrent calls and rotations keeps the invariant about retired leaves |
| `Rotation.RotationTheorem` | pkg/mitm/ca.go:232-239 | under every interleaving, with no rotation between bump and purge, retired leaves in the cache come from calls past the check at the latest bump and do not outnumber them |
| `Rotation.ServedNameTheorem` | pkg/mitm/mint.go:97-119 | whatever interleaves, a leaf handed out certifies the name asked for and no future generation |
| `ServedLeaves.ServedTheorem` | pkg/mitm/mint.go:37-57 | over every interleaving, the CA of the leaf handed out: a call that minted is served a leaf of the CA current at its lookup or of a later one, hence of none retired before the call began, with the expiry signed; one from the cache is of the CA current at the lookup exactly if the lookup met no retired leaf, which outside rotations takes a late insert, and has more than a minute to go |
| `ServedLeaves.AloneTheorem` | pkg/mitm/mint.go:37-57 | a call that nothing interrupts is served a fresh leaf from the cache or one of the current CA, and does to the cache what the CA by itself does |
| `Rotation.FusedTheorem` | pkg/mitm/mint.go:48-55 | with check and insert in one critical section no retired leaf is cached |
| `Rotation.InsertCleanIff` | pkg/mitm/mint.go:48-55 | an insert leaves a clean cache clean exactly if the leaf's generation is still current |
| `Rotation.CleanTheorem` | pkg/mitm/mint.go:48-55 | over a run the cache is free of retired leaves at every moment outside rotations exactly if no call inserts, outside one, a leaf signed before the latest bump |
| `Rotation.RaceLeavesStaleLeaf` | pkg/mitm/ca.go:72-74 | a reachable state in which a leaf of the retired CA is cached after the purge |
| `ClockText.ParseHHMM` | pkg/userdb/downtime.go:21-35 | an accepted time is a minute of the day |
| `ClockText.TimeTheorem` | pkg/userdb/downtime.go:21-35 | exactly an hour of 0-23 and a minute of 0-59 around the first colon are read, as 60 times the hour plus the minute |
| `ClockText.DigitsTheorem` | pkg/userdb/downtime.go:26-33 | digits are read by position, each times its power of ten |
| `ClockText.AtoiTheorem` | pkg/userdb/downtime.go:26-33 | exactly the optionally signed digit strings are read, each at its value by position |
| `Downtime.WeeklyTheorem` | pkg/userdb/downtime.go:106-145 | evaluating day by day blocks exactly the union of the windows' arcs on the circular week |
| `Downtime.OtherKeysIgnored` | pkg/userdb/downtime.go:112-129 | only the seven canonical keys matter |
| `Downtime.SortByStart` | pkg/userdb/downtime.go:92-94 | sorts the array in place: ordered by start, the same intervals |
| `Downtime.Expand` | pkg/userdb/downtime.go:77-90 | overnight windows are split at midnight, the others are not |
| `Downtime.HasAdjacentClash` | pkg/userdb/downtime.go:96-100 | finds an interval that starts before its predecessor ends, if there is one |
| `Downtime.ClashIff` | pkg/userdb/downtime.go:92-100 | in a sorted list neighbours clash exactly if some minute lies in two intervals |
| `Downtime.OverlapTheorem` | pkg/userdb/downtime.go:67-102 | for any sorted arrangement of the split windows, neighbours clash exactly if two windows share a minute of the circular day |
| `Downtime.CheckOverlaps` | pkg/userdb/downtime.go:67-102 | the check accepts exactly the days without overlap |
| `Downtime.CheckDay` | pkg/userdb/downtime.go:39-63 | a day is accepted exactly if its key, its times and its windows are in order |
| `Downtime.DayKeyTheorem` | pkg/userdb/downtime.go:41-44 | the accepted day keys are exactly the signed decimals whose value by position is 0 to 6 |
| `Downtime.WindowTheorem` | pkg/userdb/downtime.go:45-58 | the accepted windows are exactly the readable ones that block neither nothing nor a whole day |
| `Downtime.ValidateSchedule` | pkg/userdb/downtime.go:39-63 | accepts exactly the schedules all of whose days are in order |
| `Downtime.EnforcedKeys` | pkg/userdb/downtime.go:111-142 | for every key, windows filed under it block some minute exactly if it is a canonical key |
| `Downtime.PaddedKeyIgnored` | pkg/userdb/downtime.go:41-44 | key 01 is accepted exactly when 1 is, and blocks nothing |
| `DowntimeWeek.AcceptedDayTheorem` | pkg/userdb/downtime.go:67-102 | an accepted day has at most one overnight window and at most 1440 minutes in all |
| `DowntimeWeek.TallyIsTotalLength` | pkg/userdb/downtime.go:67-102 | counting a day minute by minute and window by window gives the same total |
| `DowntimeWeek.DailyOverlapTheorem` | pkg/userdb/downtime.go:67-102 | with the same windows every day, acceptance means exactly that all arcs of the week are disjoint |
| `DowntimeWeek.DailyBlockedTheorem` | pkg/userdb/downtime.go:106-145 | then exactly seven times the windows' total length of the week is blocked |
| `SlidingWindow.FilterActive` | pkg/ratelimit/ratelimit.go:45-51 | keeps exactly the times after the cutoff, in order |
| `SlidingWindow.Limiter.RecordFailure` | pkg/ratelimit/ratelimit.go:29-33 | appends the time to the client's list |
| `SlidingWindow.Limiter.Allow` | pkg/ratelimit/ratelimit.go:36-55 | allows a client without a list, or with fewer than limit active failures; expired times are dropped |
| `SlidingWindow.Limiter.Cleanup` | pkg/ratelimit/ratelimit.go:62-89 | every list is cut to its active part, empty ones go |
| `SlidingWindow.GlobalCounter.Allow` | pkg/admin/globalcounter.go:23-38 | a ceiling of zero or less allows all; otherwise fewer than max active failures |
| `SlidingWindow.GlobalCounter.Record` | pkg/admin/globalcounter.go:41-48 | records nothing when switched off |
| `LoginProtocol.StepKeepsIpInv` | pkg/admin/api.go:51-87 | every critical section keeps failures in the window plus attempts in flight within the bound |
| `LoginProtocol.PerIpTheorem` | pkg/ratelimit/ratelimit.go:29-55 | with at most k attempts of a client in flight, no interval of the window's length ever holds more than limit - 1 + k of its failures, or k for a limit below one |
| `LoginProtocol.GlobalTheorem` | pkg/admin/globalcounter.go:23-48 | likewise max - 1 + k over all clients |
| `LimiterTight.BoundAttained` | pkg/ratelimit/ratelimit.go:29-55 | for every limit, those below one included, and every k of at least one some run attains the bound |
| `LimiterExact.AllowedTheorem` | pkg/ratelimit/ratelimit.go:36-55 | after every interleaving, cleanups included, a client is let in exactly if fewer than limit of all its failures ever recorded lie in the window up to now, or for a limit below one if none is on record |
| `LimiterExact.GlobalAllowedTheorem` | pkg/admin/globalcounter.go:23-38 | likewise the ceiling over all clients; zero or less lets everyone in |
| `LoginHandler.Login.HandleLogin` | pkg/admin/api.go:51-87 | an uninterrupted login takes exactly the protocol's steps on the limiters' data; 429, 401 and 200 each exactly when due |
| `UserTable.Parse` | pkg/userdb/userdb.go:910-925 | what is split joins back to the text, and names hold no colon |
| `UserTable.ParseTheorem` | pkg/userdb/userdb.go:910-925 | exactly a decoded text with a colon carries credentials, split at its first colon; which headers count as absent and which as malformed |
| `UserTable.FirstFree` | pkg/userdb/userdb.go:603-608 | the least port of the range not in use; none exactly if all are |
| `UserTable.PortListInverts` | pkg/userdb/userdb.go:741-758 | with distinct ports the list by port is the inverse of the assignment |
| `UserDb.UserDb.constructor` | pkg/userdb/userdb.go:89-164 | opening a table loads every cache from it |
| `UserDb.UserDb.LoadDnsCache` | pkg/userdb/userdb.go:240-258 | exactly the users with a DNS server |
| `UserDb.UserDb.LoadDowntimeCache` | pkg/userdb/userdb.go:297-320 | exactly the users with a schedule |
| `UserDb.UserDb.LoadOverrideCache` | pkg/userdb/userdb.go:323-348 | exactly the overrides still ahead |
| `UserDb.UserDb.LoadEnabledCache` | pkg/userdb/userdb.go:350-369 | every user's flag |
| `UserDb.UserDb.LoadDowntimeUntilCache` | pkg/userdb/userdb.go:456-481 | exactly the ad-hoc deadlines still ahead |
| `UserDb.UserDb.NextAvailablePort` | pkg/userdb/userdb.go:584-609 | the least free port of the range; fails exactly when every port is held |
| `UserDb.UserDb.ListPorts` | pkg/userdb/userdb.go:741-758 | lists every positive port in use with a user who holds it |
| `UserDb.UserDb.PortOwner` | pkg/userdb/userdb.go:774-784 | a holder of the port, or "" exactly if there is none |
| `UserDb.UserDb.Add` | pkg/userdb/userdb.go:553-581 | new row on the least free port, enabled; errors change nothing |
| `UserDb.UserDb.Delete` | pkg/userdb/userdb.go:645-676 | the row and every cache entry but the ad-hoc deadline go |
| `UserDb.UserDb.ChangePassword` | pkg/userdb/userdb.go:679-703 | new hash, and the cached password is forgotten |
| `UserDb.UserDb.Check` | pkg/userdb/userdb.go:788-847 | answer, cache and rehash as the step says |
| `UserDb.UserDb.SetEnabled` | pkg/userdb/userdb.go:612-631 | row and cache change together |
| `UserDb.UserDb.UpdateDns` | pkg/userdb/userdb.go:274-294 | row and cache change together, no server means no entry |
| `UserDb.UserDb.UpdateDowntime` | pkg/userdb/userdb.go:380-408 | row and cache change together, an empty schedule means no entry |
| `UserDb.UserDb.SetDowntimeOverride` | pkg/userdb/userdb.go:419-435 | the cache keeps the deadline, the row its whole seconds |
| `UserDb.UserDb.ClearDowntimeOverride` | pkg/userdb/userdb.go:438-453 | gone from row and cache |
| `UserDb.UserDb.SetDowntimeUntil` | pkg/userdb/userdb.go:492-508 | the cache keeps the deadline, the row its whole seconds |
| `UserDb.UserDb.ClearDowntimeUntil` | pkg/userdb/userdb.go:511-526 | gone from row and cache |
| `UserDb.UserDb.UpdatePort` | pkg/userdb/userdb.go:761-771 | the column changes, no cache does |
| `UserDb.UserDb.Enabled` | pkg/userdb/userdb.go:634-642 | an unknown user is not enabled |
| `UserDb.UserDb.InDowntimeNow` | pkg/userdb/userdb.go:531-547 | ad-hoc downtime wins, then an override; otherwise exactly if some window of the schedule covers the minute of the week, counted in whole minutes from Sunday 1970-01-04 00:00 |
| `UserTable.InstantTheorem` | pkg/userdb/downtime.go:106-145 | at every instant a schedule blocks exactly if the minutes since Sunday 1970-01-04 00:00, modulo 10080, lie in the arc of a window filed under the digit of its day |
| `UserHistory.PasswordTheorem` | pkg/userdb/userdb.go:679-847 | over every history from an opened table, with any clock, a check accepts a password exactly if it is the one of the latest successful Add or ChangePassword since any Delete, or else the one the table was opened with; "latest" is read off the operations and their replies |
| `UserHistory.RehashTheorem` | pkg/userdb/userdb.go:831-836 | after a check that the cache does not answer the hash is one of today's parameters exactly if it was before or hashing works |
| `UserHistory.RememberedTheorem` | pkg/userdb/userdb.go:800-846 | a verified password is remembered for exactly five minutes: until then checks of the user touch nothing, after that they verify and rehash |
| `UserHistory.SettingTheorem` | pkg/userdb/userdb.go:274-642 | over every history each setting in the table is what the latest successful change gave, or its initial value since the user was added |
| `UserHistory.EnabledIsColumn` | pkg/userdb/userdb.go:612-631 | the enabled flag is such a setting, initially on |
| `UserHistory.DnsIsColumn` | pkg/userdb/userdb.go:274-294 | so are DNS server and protocol, initially empty |
| `UserHistory.ScheduleIsColumn` | pkg/userdb/userdb.go:380-408 | so is the schedule, initially empty |
| `UserHistory.OverrideIsColumn` | pkg/userdb/userdb.go:419-453 | so is the override, initially none, in whole seconds |
| `UserHistory.UntilIsColumn` | pkg/userdb/userdb.go:492-526 | so is the ad-hoc deadline, initially none, in whole seconds |
| `UserHistory.PortTheorem` | pkg/userdb/userdb.go:553-771 | likewise the port: the one that Add answered or the latest one assigned |
| `UserHistory.RepliesTheorem` | pkg/userdb/userdb.go:553-703 | which operations succeed, and with what error the others fail |
| `AuthTransparency.CheckReply` | pkg/userdb/userdb.go:788-847 | while the cache vouches only for passwords that verify, a check answers as the table would |
| `AuthTransparency.CheckKeeps` | pkg/userdb/userdb.go:826-846 | caching and rehashing keep that true and change no password |
| `AuthTransparency.TransparencyTheorem` | pkg/userdb/userdb.go:788-847 | over every history, with any clock, all replies are those of a database that checks each password directly and never rehashes |
| `PasswordRace.HashTheorem` | pkg/userdb/userdb.go:831-836 | under any interleaving every stored hash stays one of the password last chosen exactly if no check rewrites a hash for a password replaced since it was read |
| `PasswordRace.CacheTheorem` | pkg/userdb/userdb.go:838-844 | likewise the cache, up to entries about to be cleared, exactly if no check caches a replaced password after the clearing |
| `PasswordRace.OldPasswordReturns` | pkg/userdb/userdb.go:826-844 | an interleaving in which the old password is stored and cached again after the change |
| `PasswordRace.QuietMeansSound` | pkg/userdb/userdb.go:800-813 | where both hold and no clearing is due, the cache vouches only for passwords that verify |
| `PasswordRace.CheckAlone` | pkg/userdb/userdb.go:788-847 | the four steps of a check, with nothing in between, do to hashes and cache what the database's Check does |
| `PasswordRace.ChangeAlone` | pkg/userdb/userdb.go:679-703 | likewise the two steps of a password change |
| `PasswordRace.RemoveAlone` | pkg/userdb/userdb.go:645-676 | likewise the two steps of a deletion |
| `PasswordRace.AddAlone` | pkg/userdb/userdb.go:553-581 | likewise adding a user |
| `CacheCoherence.StepCoherent` | pkg/userdb/userdb.go:239-547 | every operation keeps the caches in step with the table |
| `CacheCoherence.CoherenceTheorem` | pkg/userdb/userdb.go:262-377 | after every run DNS, schedule and enabled caches answer for every name as the table does |
| `CacheCoherence.DowntimeTheorem` | pkg/userdb/userdb.go:531-547 | caches and table disagree about downtime exactly inside the unstored fraction of a deciding deadline |
| `CacheCoherence.RestartTheorem` | pkg/userdb/userdb.go:89-164 | after closing and reopening, every answer is the table's |
| `CacheCoherence.RecreatedUserDowntime` | pkg/userdb/userdb.go:655-673 | a deleted and recreated user stays blocked exactly as long as the old ad-hoc deadline is ahead |
| `PortHandler.Handler.ListenerWanted` | pkg/proxy/userports.go:21-29 | with interception always; otherwise exactly for users whose cached flag is on and whom neither an ad-hoc deadline nor, without an override, a window covering the minute of the week blocks |
| `PortHandler.Handler.StartUserListeners` | pkg/proxy/userports.go:33-55 | from no listeners, every wanted port in range gets one |
| `PortHandler.Handler.ReconcileListeners` | pkg/proxy/userports.go:87-146 | what should not run is removed, then what should and does not is started |
| `PortHandler.Handler.PortsToRun` | pkg/proxy/userports.go:88-104 | exactly the listed ports in range whose user wants a listener |
| `PortHandler.Handler.StopUnwanted` | pkg/proxy/userports.go:108-122 | exactly the servers that should not run leave both maps |
| `PortHandler.Handler.StartMissing` | pkg/proxy/userports.go:135-143 | running servers are kept, the missing are started for their users |
| `PortHandler.Handler.StartListenerLocked` | pkg/proxy/userports.go:149-184 | a new server takes the port; one still there is orphaned |
| `PortHandler.Handler.StopUserListener` | pkg/proxy/userports.go:187-202 | the port leaves both maps, if it has a server |
| `PortHandler.Handler.StartListener` | pkg/proxy/userports.go:207-216 | a port already bound keeps its server |
| `PortHandler.Handler.StopListener` | pkg/proxy/userports.go:224-229 | nothing happens with interception on |
| `PortHandler.Handler.UpdateUserPort` | pkg/proxy/userports.go:233-265 | the old listener stops, the row changes, the new one starts unless the user is unknown or the port is zero |
| `PortHandler.Handler.RemoveFailed` | pkg/proxy/userports.go:171-183 | a failed bind removes its own server only |
| `PortHandler.Handler.ShutdownUserListeners` | pkg/proxy/userports.go:268-282 | both maps are emptied |
| `PortHandler.Handler.HandleCreateUser` | pkg/admin/api.go:189-222 | one step of the system, with what `CreateTheorem` says of it; 201 exactly if the user is new in the table |
| `PortHandler.Handler.HandleDeleteUser` | pkg/admin/api.go:224-250 | the listener stops before the row goes, with what `RemoveTheorem` says; 200 exactly for a known user |
| `PortHandler.Handler.HandleUpdatePort` | pkg/admin/api.go:285-331 | only a port in range that no one else holds, with what `MoveTheorem` says; 409 exactly if another user holds it |
| `PortHandler.Handler.HandleSetEnabled` | pkg/admin/api.go:338-378 | enabling leaves a server of the user on the port, disabling without interception leaves none, with interception all servers stay, other users' servers always do; 200 exactly for a known user |
| `PortHandler.Handler.HandleDowntimeOverride` | pkg/admin/api.go:549-598 | an override of n minutes lifts the schedule for exactly n minutes and starts the listener; none or fewer ends it |
| `PortHandler.Handler.HandleDowntimeNow` | pkg/admin/api.go:608-665 | ad-hoc downtime of n minutes blocks for exactly n minutes and stops the listener unless interception is on; lifting it starts an enabled user's |
| `PortActions.EnablingTheorem` | pkg/admin/api.go:338-378 | on agreeing maps and table, servers before and after enabling or disabling: the user's, everyone else's, and one that already ran |
| `PortActions.LiftTheorem` | pkg/admin/api.go:549-598 | likewise for an override, and at which later instants the user is in downtime |
| `PortActions.DowntimeNowTheorem` | pkg/admin/api.go:608-665 | likewise for ad-hoc downtime and its end |
| `PortActions.MoveTheorem` | pkg/admin/api.go:285-331 | the user listens on the new port and nowhere else, or nowhere for port zero; a refused move changes nothing |
| `PortActions.CreateTheorem` | pkg/admin/api.go:189-222 | a new user has the password given, no downtime, the least free port and a server there; a refused creation changes nothing |
| `PortActions.RemoveTheorem` | pkg/admin/api.go:224-250 | neither row nor server is left, all others keep theirs |
| `PortActions.BootTheorem` | pkg/proxy/userports.go:33-55 | after a restart exactly the wanted ports have a listener |
| `PortActions.BlockedTheorem` | pkg/userdb/userdb.go:531-547 | downtime said of the cached deadlines and the minute of the week alone |
| `PortActions.WantedTheorem` | pkg/proxy/userports.go:21-29 | which listeners are wanted, said of the caches alone |
| `BlockDecision.ListenerTheorem` | pkg/proxy/userports.go:21-29 | over every run of the database, outside the unstored fraction of a deadline, a listener is wanted exactly with interception or for enabled users whom the table does not block |
| `BlockDecision.ForwardTheorem` | pkg/proxy/forward.go:90-100 | likewise a plain request passes exactly if the table does not block the user |
| `BlockDecision.ConnectTheorem` | pkg/proxy/connect.go:154-215 | likewise every outcome of an authenticated CONNECT, said of the table |
| `PortListeners.StepOwned` | pkg/proxy/userports.go:87-265 | every action keeps database, portUsers and each server's captured owner in agreement |
| `PortListeners.OwnershipTheorem` | pkg/proxy/userports.go:149-184 | over every history of admin actions, ticks, reconciles, failed binds and restarts each running server belongs to the database's owner of its port, and none is orphaned |
| `PortListeners.AllocationTheorem` | pkg/admin/api.go:301-321 | through every history ports stay distinct and in range, and listing them inverts the assignment |
| `PortListeners.AddTakesLeast` | pkg/userdb/userdb.go:584-609 | a new user gets the least free port, and is refused for want of one exactly if all are held |
| `PortListeners.ReconcileTheorem` | pkg/proxy/userports.go:87-146 | an uninterrupted reconcile leaves exactly the wanted ports running, keeps their servers, and repeated changes nothing |
| `PortSections.SectionKeepsDomains` | pkg/proxy/userports.go:106-184 | every critical section keeps the two maps on the same ports |
| `PortSections.RowsTheorem` | pkg/userdb/userdb.go:553-771 | the sections that write the table write what the database's own operations write |
| `PortSections.InterleavingTheorem` | pkg/proxy/userports.go:106-265 | under any interleaving the maps list the same ports, and a server is orphaned exactly if a port update starts on a port in use |
| `PortSections.AgreementStep` | pkg/proxy/userports.go:106-265 | a section, database writes included, keeps owner, map and row in agreement exactly if it fits the state it finds |
| `PortSections.AgreementTheorem` | pkg/proxy/userports.go:106-265 | captured owners, portUsers and the table agree throughout an interleaving exactly if every section fits |
| `PortSections.InterleavedMoveOrphans` | pkg/proxy/userports.go:249-262 | a history of a port update with a reconcile between its database write and its start: each section fits, the reconciler's server is orphaned |
| `PortSections.StaleEnsure` | pkg/admin/api.go:364-369 | a history in which a handler starts the listener on a port that has gone to another user since |
| `AuthSession.KeyTheorem` | pkg/proxy/handler.go:259-264 | exactly when a lookup meets an entry recorded for a user, for any addresses and any owner |
| `AuthSession.MetEntry` | pkg/proxy/handler.go:275-284 | an entry met is the same client's exactly on a port whose owner's name holds no colon, and then the owner's |
| `AuthSession.OwnerWithColon` | pkg/proxy/connect.go:84-92 | a run in which bob's session at ::1:2 admits ::1, as bob, on the port of the user 2:bob |
| `AuthSession.EvidenceTheorem` | pkg/proxy/handler.go:256-305 | in every interleaved run, for any owners and addresses, an admission rests on a chain of admissions of the same user, each recorded less than five minutes before the next, from one by password; a link keeps the client exactly on a port whose owner's name holds no colon |
| `AuthSession.AttributionTheorem` | pkg/proxy/connect.go:78-92 | in every run a request admitted on a port is the owner's exactly if the owner's name holds no colon |
| `AuthSession.SessionTheorem` | pkg/proxy/handler.go:275-284 | in every run a session is found exactly if an admission of its user was recorded under the key less than five minutes before |
| `AuthSession.VerdictTheorem` | pkg/proxy/forward.go:51-79 | in every run a request with credentials, and every retry, is admitted exactly as a user whose password the table confirms and who may use the port; a first request without credentials exactly on such a recent admission |
| `AuthSession.RetryTheorem` | pkg/proxy/connect.go:106-131 | a retry after the challenge is admitted exactly if the table confirms its password, whatever the first check cached or rehashed |
| `AuthSession.OwnerlessLookup` | pkg/proxy/handler.go:259-262 | a lookup without an owner, which no listener makes, finds a session only for an address with a colon |
| `AuthSession.CheckPlausible` | pkg/userdb/userdb.go:788-847 | the database vouches for a user only on credentials that name that user |
| `ProxyHandler.Handler.RecordAuthSuccess` | pkg/proxy/handler.go:267-272 | the session is stored under address and user |
| `ProxyHandler.Handler.CheckAuthSession` | pkg/proxy/handler.go:275-284 | the user of an unexpired session, or "" |
| `ProxyHandler.Handler.CleanupAuthSessions` | pkg/proxy/handler.go:287-305 | cleanup ends no session that a lookup would still find |
| `AuthSession.TriedTheorem` | pkg/proxy/forward.go:51-88 | a request handled on a sound database continues a run of the protocol, and leaves the database sound |
| `ProxyHandler.Handler.HandleForward` | pkg/proxy/forward.go:29-100 | every outcome of a plain request, with what it does to limiter, database and sessions, as one step of a run of `AuthSession`; past the rate limit it goes on as a user exactly if that user is entitled to it: right password and port, or no credentials and a recent admission |
| `ProxyHandler.Handler.HandleConnect` | pkg/proxy/connect.go:35-148 | every outcome of a CONNECT with its challenge and retry, as one or two steps of such a run; when a failure counts; as whom it goes on exactly, at once or on the right password in the retry |
| `ProxyHandler.Handler.BlockReason` | pkg/proxy/connect.go:154-162 | disabled counts only with interception on, then downtime |
| `ProxyHandler.Handler.Conclude` | pkg/proxy/connect.go:138-215 | refusal, passthrough, block page or tunnel for an authenticated user |
| `ProxyHandler.DisabledUser` | pkg/proxy/forward.go:90-100 | a disabled user passes by CONNECT only to passthrough hosts, by plain HTTP whenever no downtime applies |
| `Passthrough.CompilePatterns` | pkg/mitm/bypass.go:37-54 | the compiled exact hosts and suffixes match exactly what the patterns mean label by label |
| `Passthrough.IsPassthrough` | pkg/mitm/bypass.go:58-72 | the search finds a match if there is one; no empty host passes |
| `Passthrough.Passes` | pkg/mitm/bypass.go:37-72 | a host passes exactly if it is a pattern or its labels end with a wildcard's base labels |
| `Passthrough.LabelTheorem` | pkg/mitm/bypass.go:63-70 | a dotted text suffix is exactly a suffix of whole labels |
| `ClientStatus.SameMinutes` | ios/Sources/EvanProxy/Features/Users/UserStatus.swift:27-29 | a time the server accepts, the app reads as the same minute |
| `ClientStatus.ScheduleTheorem` | ios/Sources/EvanProxy/Features/Users/UserStatus.swift:25-41 | app and server agree on every minute of every valid schedule |
| `ClientStatus.DisplayTheorem` | ios/Sources/EvanProxy/Features/Users/UserStatus.swift:43-64 | from a list fetched earlier the app shows downtime exactly for an enabled user whom the table has in downtime |
| `ClientStatus.StateTheorem` | ios/Sources/EvanProxy/Features/Users/UserStatus.swift:57-64 | which of the app's five states a row shows, said of the row |
| `ClientStatus.AppTheorem` | ios/Sources/EvanProxy/Features/Users/UserStatus.swift:57-64 | over every run of the server the app shows what the server enforces, outside the unstored fraction of a second |
| `TrafficLog.LogTheorem` | pkg/stats/collector.go:83-125 | each bucket holds exactly what came in time for its ten seconds, and every such time has a bucket |
| `TrafficLog.BucketTimeTheorem` | pkg/stats/collector.go:83-90 | buckets are ten seconds wide and start at whole tens |
| `TrafficLog.BucketTheorem` | pkg/stats/collector.go:83-125 | every bucket counts the requests and sums the bytes, each way, of what came in time for it |
| `TrafficLog.Conservation` | pkg/stats/collector.go:83-105 | every entry is in exactly one bucket or came late |
| `TrafficCollector.Collector.RecordTraffic` | pkg/stats/collector.go:83-105 | at any time, the ring shows the newest 360 buckets that ever occupied a slot; what is written over is accounted for |
| `TrafficCollector.Collector.AddLiveBytes` | pkg/stats/collector.go:109-125 | likewise for live bytes, which count no request |
| `TrafficCollector.Collector.Traffic` | pkg/stats/collector.go:155-179 | the newest n of the ring's buckets with a positive time, oldest first |
| `TrafficCollector.RingTheorem` | pkg/stats/collector.go:155-179 | for any events at positive times these are the last min(n, 360) buckets of the unbounded log, in strict order of time |
| `TrafficCollector.ConservationTheorem` | pkg/stats/collector.go:83-125 | entries observed at positive times are those shown, those written over and those late |
| `TrafficCollector.CompactHits` | pkg/stats/collector.go:222-231 | filters the array in place, keeping order |
| `TrafficCollector.TopHosts` | pkg/stats/collector.go:127-137 | counts exactly the recent hits of each host |
| `TrafficCollector.CompactionInvisible` | pkg/stats/collector.go:213-231 | compacting never changes a later count |
| `ByteFlow.StepConserves` | pkg/stats/counter.go:58-144 | every atomic step keeps every writer's bytes accounted for |
| `ByteFlow.ConservationTheorem` | pkg/stats/counter.go:110-144 | under any interleaving each writer's total is pending, held, queued, delivered and dropped, up to the writes between the two additions |
| `ByteFlow.WrittenTheorem` | pkg/stats/counter.go:110-117 | a writer's total is the bytes that its writes passed on, up to the writes between the two additions |
| `ByteFlow.DirectionTheorem` | pkg/stats/counter.go:129-144 | every packet in the channel goes the way of the writer it came from, and none is empty |
| `ByteFlow.DropTheorem` | pkg/stats/counter.go:140-143 | bytes are dropped exactly if a flush met a full channel |
| `ByteFlow.FinishedTheorem` | pkg/stats/counter.go:93-108 | after the last flush of a writer closed when copying ended, what was written is delivered, less what was dropped |
| `ByteCounter.CountingWriter.Write` | pkg/stats/counter.go:110-117 | an undisturbed write adds its bytes to pending and total |
| `ByteCounter.CountingWriter.Flush` | pkg/stats/counter.go:129-144 | what was pending is queued as one packet or dropped, nothing if nothing is pending |
| `ByteCounter.Channel.TrySend` | pkg/stats/counter.go:140-143 | the send never waits; a full channel stays as it is |
| `ByteCounter.TrafficCounter.DrainAll` | pkg/stats/counter.go:66-77 | after Stop everything queued is received in order, every byte once |
| `ByteCounter.BytesTheorem` | pkg/stats/counter.go:66-77 | every byte counts for exactly one direction, that of its packet |

## Left out

- X.509, TLS and key parsing: a leaf is a name, a generation and an expiry; whether signing or a new CA is acceptable is an input.
- `normalizeHost` and address parsing: normalization is a function parameter of `Passthrough`, and names are taken as normalized elsewhere.
- Failing mints in `InclusionTheorem`: caches of two sizes then see different requests, and inclusion is only promised for minting that succeeds.
- Rotation.RotationTheorem: does not say what a leaf's key or serial is, only its generation.
- Password hashing: argon2id and bcrypt are an injective function with a salt and a flag for current parameters; a failing hash is an input.
- SQL errors, JSON, HTTP parsing, unreadable stored schedules or timestamps: the table is a map from names to rows with parsed columns.
- AuthTransparency.TransparencyTheorem: is about operations that run one after the other, as are the histories in `CacheCoherence`; overlapping password checks and changes are the subject of `PasswordRace`.
- Sockets, graceful shutdown and demo mode: a server is a number and an owner, a failing bind is a step.
- Interrupted admin handlers: `OwnershipTheorem` lets actions follow each other; single critical sections in any order are the subject of `PortSections`.
- Several readings of the clock inside one call: each call reads it once, a CONNECT twice.
- Time zones and daylight saving: weekday and minute come from the epoch by division.
- SlidingWindow.FilterActive: builds a new list where the source overwrites the front of the old one, so reuse of its memory is not modelled.
- 64-bit wrap-around of counters, byte sums and times: numbers are unbounded.
- Negative port ranges from the configuration: the range is taken as natural numbers.
- TrafficCollector.RingTheorem: supposes positive bucket times, because a slot time of zero means an unused slot; the methods' contracts hold at any time.
- Byte sums in traffic buckets as bytes transferred: live counts and closing entries both add bytes, so no such claim is made.
- `topN`, log subscribers, DNS-block hits: sorting and copies of what is modelled.
- The order in which Go ranges over a map: any order, chosen by `Pick` or a set.
- The list of users searched by name in the admin handlers: a lookup in the table.
- Go's sort: `SortByStart` is an in-place exchange sort; the overlap theorem holds for every sorted arrangement, whatever happens to ties.
- Go's container/list: a ring with a sentinel, with the operations the cache uses.
- Enrollment codes, admin sessions, device tokens, metrics, logs, DNS resolvers, PAC files, the block page and all views: interface and deployment, with no invariant of this kind.
