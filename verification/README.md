# Serviced: verified models of its state machines, codecs and caches

Serviced is a service orchestrator. Most of it drives docker, elastic and zookeeper; between
those calls it keeps caches, scans and prints names, frames messages, allocates addresses,
tags images and supervises processes. This project models that logic in Dafny and proves what
it guarantees. Verify it with `dafny verify dfyconfig.toml`.

Stores, the assignment table, the registry index and zookeeper are maps or sets. Failing calls,
random choices and map iteration order are left open: they are parameters, `:|` choices or
events, and the theorems hold for all of them.

| module | source | main results |
|---|---|---|
| `ServicePaths` | facade/servicepath_cache.go | Over every run the cache equals the walk of the parent chain **iff** no write moves a service that is cached at that moment (`RunAgreesIff`); the path test is exactly descent (`PathTestIsDescent`); an eviction drops only descendants **iff** no cached sibling's id begins with the evicted one (`EvictsOnlyDescendantsIff`) |
| `ImageIds`, `ImageNames` | commons/imageid.go | The exact grammar that the scanner accepts, and what it makes of it (`ParseGrammarIff`); `Validate` **iff** a structural predicate (`ValidateCharacterised`); renaming accepts a text **iff** it is an optional user, a repository and an optional tag (`RenameIff`) |
| `AuthFrames` | auth/header.go, auth/rpc.go | A conversation of frames, accepted or rejected, stays aligned and gives back every payload (`ConversationAligned`); over any attempts, payloads come back in order **iff** no failed one precedes a frame (`ConversationIff`); of any stream something is made **iff** it opens with a header in the written layout (`ReadHeaderIff`) |
| `Addresses` | facade/service.go, facade/addressassignment.go | Inserts after a selection all succeed **iff** the choice clears the missing ports and the endpoints still to be assigned share neither name nor port (`SettleSucceedsIff`); with its own port map a visit fails **iff** endpoints of the service collide (`VisitSucceedsIff`); an address is found **iff** the current one can be had or some address is free (`SelectionFindsIff`); repeating changes nothing **iff** the missing ports are free (`ReassignIsIdempotentIff`) |
| `AddressWalks` | facade/service.go, domain/service/walk.go | The port map each service of a walk is visited with (`MapsSeen`); the service asked for sees its own **iff** no descendant held one of its ports (`AskedSeesOwnMapIff`) |
| `Archives`, `Restores` | dfs/backup.go, dfs/restore.go | Restore gives every loader its entries **iff** all names were clean (`BackupRestoreRoundTripIff`), and cleaned ones as long as none climbs out (`ArchiveRestores`); every loader is closed and collected once on every exit, and a snapshot is registered, once, **iff** its loader was closed properly, loaded and accepted (`RestoreV1`) |
| `SnapshotTags` | dfs/*.go, dfs/registry | After any run, rollback to a kept snapshot makes `latest` of every image the version it had **iff** images of one repository were in one version (`RollbackRestoresIff`); after a failed deletion it succeeds **iff** none of its images was removed (`RollbackAfterFailedRemovalIff`); when downloads and commits succeed, exactly (`DownloadSucceedsIff`, `DownloadCollidesIff`, `CommitSucceedsIff`) |
| `EndpointRegistry` | facade/serviceregistry_cache.go, facade/zkapi.go | The cache is zookeeper grouped by owner over a run **iff** no service takes a key from another (`RunMirrorsIff`) |
| `InternalServices` | isvcs/container.go | No halt without a receiver (`RunConsistent`); running exactly while watched **iff** no stop of a running container fails (`RunningIsWatchedIff`); restart **iff** fewer than three short lives in a row (`RestartAttemptedIff`) |
| `Controllers` | container/controller.go | At most one process; a shutdown ends the loop (`ShutdownEndsLoop`); the health channel is closed twice **iff** a shutdown reached somebody (`HealthChannelCloses`) |
| `RollingRestarts` | facade/service.go | Restarts go to a prefix, the revert to exactly the rest (`RollingRestart`) |
| `VirtualInterfaces` | container/vif.go | Proper and distinct addresses **iff** below 65023 interfaces (`ProperAddressIff`) |
| `Paths`, `Decimals`, `Sequences`, `Results` | Go's `path`, `strings` and `strconv` packages | `path.Join`, `path.Clean`, splitting and decimal numbers, as far as the modules above rest on them |

Where the code does something other than what its comments, tests or names suggest, the model
follows the code:

- The facade evicts from the path cache before it writes the store. A lookup in between leaves a
  stale entry (`LookupBetweenEvictionAndWriteIsStale`); `RunAgreesIff` says exactly when that happens,
  and runs that evict and write in one go are safe (`AtomicRunAgrees`).
- Eviction compares raw path prefixes, so it also drops services that merely share the first
  characters of an id (`EvictionDropsUnrelated`), exactly those near a sibling whose id begins with the
  evicted one (`EvictedIff`, `EvictsOnlyDescendantsIff`). That is harmless (`EvictCoherent`).
- `AssignIPs` builds its port map from the service it was asked about, and `SetIPs` from a port it was
  given (facade/service.go:943-973). The walk visits descendants first, and every visit strikes the ports
  it finds assigned off the shared map (facade/service.go:2267, 2284). So a descendant is visited with a
  foreign map: the selection can succeed, the old entry is removed and the insert fails
  (`ForeignPortMapLosesAssignment`). And the service asked for can find its map shrunk, and lose its
  entry in the same way (`ShrunkenMapLosesAssignment`). `MapsSeen` gives the map each service sees,
  `AskedSeesOwnMapIff` says when the last one sees its own, and `AnyPortMapIff` is the exact condition
  for a visit with any port map.
- Nothing keeps configurable endpoints of a service from sharing a name or a port: the validation of a
  service does not compare them, and `AssignIPs` discards the error by which `GetPorts` reports a shared
  port, and with it the whole port map (facade/service.go:2348). Such a service passes the selection and
  then fails half-way (`SharedNameFailsVisit`); on an address where it has no entries yet it always fails
  (`SharingFailsNewAddress`). `VisitSucceedsIff` is exact, and `CoveredIff` says when one entry ends up
  serving two endpoints of a name.
- A snapshot takes whatever tags the services' images carry (facade/dfs.go:768-773), and all tags of a
  repository go to one place under the label. Of two tags in different versions the later one wins, and a
  rollback makes that one the latest (`TwoTagsNotRestored`); `RollbackRestoresIff` is exact.
- The comment on the authentication header limits token and payload to 32k; the code checks 16 and
  32 bits. `WriteTo` leaves the four length bytes out of the count it returns. `WriteHeader` has
  already sent its magic number and flag when it reports that no token is at hand; the reader takes the
  next frame for the rest of that one and stops inside it (`GaveUpThenAttempt`).
- Entry names are cleaned when a prefix is put in front of them: a directory loses its closing slash
  (`DirectoryLosesSlash`), the root itself is dropped, and a name that climbs out of a snapshot can end
  up with another loader (`ClimbingEntryGoesElsewhere`).
- A deletion removes images first; if it then fails, the snapshot is kept and cannot be rolled back to,
  unless its images were elsewhere (`RollbackAfterFailedRemovalIff`).
- Registering a port that is redirected already reports success and leaves it redirected where it was
  (`RegisterVirtualAddress`).
- Image entries of an archive are looked up under their first path component but filed under
  `IMAGES.dkr`. An entry such as `IMAGES.dkr2/x` therefore overwrites a filed loader, which is then
  never closed (`SecondImagesDirectoryClobbers`); `RestoreV1` says exactly when (`ClobbersAt`).
- `RenameImageID` puts the registry in front of the old name as it stands, so a name with a host of its
  own is rejected, unless that host reads like a user (`RenameKeepsOnlyRepoIff`; `RenameIff` for any text).
- `nextIP` accepts one interface too many: the address of number 65024 is not a proper one.
- The controller closes its health channel a second time on the way out whenever a shutdown was
  signalled to somebody (`HealthChannelCloses`, `OrderlyShutdownClosesTwice`).
- A stop or restart of an internal service whose stop fails has halted the collectors already, so the
  container goes on running unwatched (`FailedStopLeavesUnwatched`); `RunningIsWatchedIff` is exact.

## Model

| member | source | states |
|---|---|---|
| ServicePaths.EvictCoherent | facade/servicepath_cache.go:88-103 | Eviction by raw path prefix keeps every remaining entry equal to the chain walk and the cache closed under parents; the service itself is gone unless its parent is unchanged |
| ServicePaths.EvictsNothingIff | facade/servicepath_cache.go:88-103 | An eviction drops nothing if and only if the service is not cached or its parent is unchanged |
| ServicePaths.WriteCoherentIff | facade/service.go:357 | The store write of a reparenting keeps the store a forest, and the cache coherent if and only if the service is not cached or does not move |
| ServicePaths.FilledCoherent | facade/servicepath_cache.go:118-132 | Storing the entries of a whole parent chain keeps the cache coherent |
| ServicePaths.AddCoherent | facade/service.go:87-159 | Adding a service with a fresh id keeps forest and coherence |
| ServicePaths.DeleteCoherent | facade/service.go:1005-1044 | Deleting a leaf keeps forest and coherence although its entry stays cached |
| ServicePaths.StepAgreesIff | facade/servicepath_cache.go:48-175 | One step (lookup, add, evict, write, delete, reset) keeps the cache equal to the chain walk if and only if it is not a write that moves a cached service |
| ServicePaths.RunAgreesIff | facade/servicepath_cache.go:48-175 | Along every run, all states agree with the chain walk if and only if no write moves a service cached at that moment |
| ServicePaths.AtomicReparentSafe | facade/service.go:406-421 | A write that directly follows its own eviction is never one of the harmful ones |
| ServicePaths.AtomicRunAgrees | facade/service.go:357-421 | A run in which every write directly follows its eviction agrees with the chain walk in all states |
| ServicePaths.PathTestIsDescent | facade/service.go:2850-2868 | A path starts with another one plus a slash if and only if its service is a proper descendant, and then the tenants are equal |
| ServicePaths.LookupBetweenEvictionAndWriteIsStale | facade/service.go:357-421 | A run of evict, lookup, write that ends with a cache that disagrees with the store |
| ServicePaths.EvictionDropsUnrelated | facade/servicepath_cache.go:88-103 | A coherent cache from which eviction drops a service that is no descendant |
| ServicePaths.EvictedIff | facade/servicepath_cache.go:88-103 | A live entry is dropped if and only if its service is, or lies below, one with the same parent whose id begins with the evicted id |
| ServicePaths.EvictsOnlyDescendantsIff | facade/servicepath_cache.go:88-103 | Exactly the service and its descendants are dropped if and only if no cached sibling's id begins with the evicted id |
| ServicePaths.ServiceCache.BuildServicePath | facade/servicepath_cache.go:134-175 | Returns the entry of the chain walk and collects correct entries for every uncached service of the chain; fails only if a store read on the chain fails |
| ServicePaths.ServiceCache.UpdateCache | facade/servicepath_cache.go:118-132 | On success the cache is exactly the old one filled with the chain; on failure it is unchanged |
| ServicePaths.ServiceCache.Get | facade/servicepath_cache.go:48-71 | A lookup of a live service returns the chain walk's entry, leaves its whole chain cached, and is a lookup step of the run relation |
| ServicePaths.ServiceCache.GetTenantID | facade/servicepath_cache.go:48-58 | The tenant of a live service is the root of its chain; the cache stays coherent |
| ServicePaths.ServiceCache.GetServicePath | facade/servicepath_cache.go:61-71 | The tenant and the path of a live service are those of its chain |
| ServicePaths.ServiceCache.RemoveIfParentChanged | facade/servicepath_cache.go:88-103 | The loop over the map computes the eviction, in any order, and reports whether anything was evicted |
| ServicePaths.ServiceCache.ResetCache | facade/servicepath_cache.go:105-109 | The cache is empty afterwards |
| ImageIds.FormReads | commons/imageid.go:107-275 | Every text with a form (host, port, user, repository and tag in their classes, under the rules that settle what an ambiguous name is) is parsed as that form says |
| ImageIds.ParseGrammarIff | commons/imageid.go:107-275 | A text is accepted if and only if it has such a form, and then the parse returns exactly its parts |
| ImageIds.FormsAgree | commons/imageid.go:107-275 | Two forms of one text mean the same identifier |
| ImageNames.RoundTrip | commons/imageid.go:107-321 | Printing and parsing a canonical identifier gives it back |
| ImageNames.RoundTripOnlyCanonical | commons/imageid.go:107-321 | An identifier that survives print-then-parse is canonical |
| ImageNames.ValidateCharacterised | commons/imageid.go:350-357 | Print-then-parse is the identity on an identifier if and only if the structural predicate holds of it |
| ImageNames.ParseSound | commons/imageid.go:107-275 | Every field of a parsed identifier lies in its character class and the port is not negative |
| ImageIds.ParseImageID | commons/imageid.go:107-275 | The eight-mode scanning loop computes the scanner whose grammar is given, errors included |
| ImageNames.Validate | commons/imageid.go:350-357 | Returns true exactly on canonical identifiers |
| ImageNames.RegistryGrammarIff | commons/imageid.go:81-95 | Behind any registry a text parses if and only if it is an optional user, a repository and an optional tag, empty or not, and the repository is recognised as such |
| ImageNames.HostedIsNotLocal | commons/imageid.go:81-95 | A printed name with a host of its own is no such text |
| ImageNames.RenameIff | commons/imageid.go:81-95 | Renaming any text succeeds if and only if it is not empty and is an optional user, a repository and an optional tag; the result is the given registry, tenant and tag, empty or not, with that repository |
| ImageNames.RenameKeepsOnlyRepoIff | commons/imageid.go:81-95 | A printed name is renamed if and only if it has no host of its own or one that reads like a user, keeping only the repository |
| AuthFrames.LengthPrefixIff | auth/rpc.go:60-87 | A length-prefixed block is read back, leaving the rest unread, if and only if its length fits in 32 bits |
| AuthFrames.HeaderRoundTrip | auth/header.go:135-336 | Reading a written header consumes exactly it; the verdict is that on the written token, payload and signed bytes |
| AuthFrames.FrameRoundTrip | auth/rpc.go:91-155 | The same for an RPC header with or without authentication |
| AuthFrames.VerdictCarriesPayload | auth/header.go:284-354 | Whether accepted or rejected, a frame's verdict carries its payload |
| AuthFrames.ConversationAligned | auth/header.go:284-354 | Reading any sequence of written frames gives each its verdict and payload in order and leaves exactly what follows |
| AuthFrames.GaveUpThenAttempt | auth/rpc.go:91-155 | What a failed attempt leaves, followed by any other attempt, is read as an invalid header, and three bytes of the next attempt are consumed |
| AuthFrames.ConversationIff | auth/rpc.go:91-155 | Over any attempts, reading as many headers as frames went out gives back all payloads in order if and only if no failed attempt precedes a frame |
| AuthFrames.AcceptedOnlyWhenSigned | auth/header.go:261-336 | Any accepted stream is a length, a signature and signed bytes in the writer's layout, and the verifier accepted exactly those bytes |
| AuthFrames.V1Carried | auth/header.go:261-354 | So is any that is rejected with a payload |
| AuthFrames.AuthHeaderErrors | auth/header.go:230-258 | Another magic number is reported after three bytes, another version after four, and nothing is made of such a stream |
| AuthFrames.RpcHeaderErrors | auth/rpc.go:125-140 | Another RPC magic number is reported after three bytes, and nothing is made of such a stream |
| AuthFrames.ReadHeaderIff | auth/rpc.go:125-155 | Over every stream: a request or a rejection is made of it if and only if it opens with an RPC header in the written layout, and then that header is judged and consumed exactly |
| AuthFrames.Reader.Read | auth/header.go:261-300 | A full read and what the tee has copied: copied and unread bytes together stay the same |
| AuthFrames.Reader.ReadPrefixed | auth/rpc.go:74-87 | Reads a length and as many bytes, or reports the short stream |
| AuthFrames.Reader.EatAndGetPayloadError | auth/header.go:341-354 | Skips to the payload, consumes it and wraps the reason with it |
| AuthFrames.Reader.AuthHeaderV1 | auth/header.go:261-336 | The stepwise reader with its counter and tee computes the functional reader |
| AuthFrames.Reader.StampOn | auth/header.go:282-297 | From the timestamp on, where the tee begins; an expired or short header is skipped to its payload |
| AuthFrames.Reader.TokenOn | auth/header.go:298-336 | From the token on, with the verifier given exactly what the tee copied |
| AuthFrames.Reader.AuthHeader | auth/header.go:230-258 | Magic number and version are checked before the version 1 reader |
| AuthFrames.Reader.RpcHeader | auth/rpc.go:125-155 | Magic number and flag decide between the authenticated and the plain reader |
| AuthFrames.Writer.WritePrefixed | auth/rpc.go:60-71 | Appends the 32-bit length and the bytes |
| AuthFrames.Writer.AuthHeader | auth/header.go:135-217 | Fails exactly on an oversized token or payload or a failed signature, writing nothing; otherwise appends the header and returns its length less four |
| AuthFrames.Writer.RpcHeader | auth/rpc.go:91-121 | Fails exactly when authentication is asked for and there is no token, or the header cannot be built; then magic number and flag have gone out; otherwise appends one frame |
| Addresses.AssignKeepsUnique | facade/addressassignment.go:183-222 | A checked insert keeps service endpoints and pool addresses unique |
| Addresses.AssignFromSpec | facade/service.go:2307-2325 | The insert loop succeeds if and only if each insert could be made on its own and the endpoints to be assigned share neither name nor port, and then makes all of them |
| Addresses.AssignFromKeepsUnique | facade/service.go:2307-2325 | Even a loop that stops half-way keeps the table unique and only adds entries of its service |
| Addresses.SettleSucceedsIff | facade/service.go:2297-2325 | After a selection no insert fails if and only if the address is free at the ports still to be assigned and the endpoints still to be assigned share neither name nor port |
| Addresses.SettleSettles | facade/service.go:2297-2325 | A visit whose inserts succeed leaves all entries of the service on that address, none of its configurable endpoints without one, and other services untouched |
| Addresses.CoveredIff | facade/service.go:2297-2325 | A settled service has an entry at the port of every configurable endpoint if and only if no name is used for two ports |
| Addresses.SelectionClears | facade/service.go:2254-2295 | Every address the selection may return for the service's own ports, manual, current or automatic, belongs to the pool, and clears the missing ports if and only if none of them is already held by the service there |
| Addresses.SelectionInPool | facade/service.go:2254-2295 | With any port map, the address returned belongs to the pool |
| Addresses.AnyPortMapIff | facade/service.go:2246-2339 | With any port map, the rest of the visit succeeds if and only if the missing ports are free and the missing endpoints share neither name nor port |
| Addresses.VisitSucceedsIff | facade/service.go:2246-2339 | With the service's own port map, the rest of the visit fails if and only if endpoints of the service itself collide; otherwise it settles the service |
| Addresses.ApartWhenNewIff | facade/service.go:2297-2325 | On an address where the service has no entries, its endpoints collide exactly if they are not distinct in name and port |
| Addresses.SharedNameFailsVisit | facade/service.go:2246-2339 | A valid service with one name at two ports: the selection succeeds, the first insert is made, the second fails |
| Addresses.SharingFailsNewAddress | facade/service.go:2341-2353 | A service whose endpoints share a name or a port fails every visit to an address where it has no entries, whatever the port map |
| Addresses.GetPorts | facade/service.go:2180-2193 | Returns the configurable ports, and an error exactly if two endpoints share one |
| Addresses.PortMap | facade/service.go:2348 | The port map of `AssignIPs`: empty if two endpoints share a port |
| Addresses.VisitSettles | facade/service.go:2246-2339 | For distinct endpoints, once the selection returned an address the visit cannot fail, and every configurable endpoint has its entry there |
| Addresses.ReassignIsIdempotentIff | facade/service.go:2246-2339 | Repeating an automatic assignment whose address is still in the pool leaves the table as it is if and only if the ports without an entry are free there |
| Addresses.ReassignIsIdempotent | facade/service.go:2246-2339 | So it does whenever no name is used for two ports |
| Addresses.ForeignPortMapLosesAssignment | facade/service.go:2341-2353 | A port map of another service lets the selection succeed and the insert fail after the removal |
| Addresses.BlockedVisitLoses | facade/service.go:2297-2325 | Sent to an address where its port is taken, a service loses the entry it had and gets none |
| Addresses.BlockedLosesAssignment | facade/service.go:2246-2339 | With an empty port map the selection does send it there |
| Addresses.ManualSound | facade/service.go:2475-2522 | A manual address is the requested one, belongs to the pool and is free at all the requested ports |
| Addresses.PoolAddressSound | facade/service.go:2490-2522 | A manual address is the requested one and belongs to the pool, virtual or on one of its hosts |
| Addresses.PoolAddressIff | facade/service.go:2490-2522 | It is found if and only if it is virtual in the pool, or the first host that has it is in the pool |
| Addresses.SelectionFindsIff | facade/service.go:2254-2295 | A manual request finds its address if and only if it is there and free at the ports not held there; an automatic one finds an address if and only if the current one can be kept or some address of the pool is unused at all ports |
| Addresses.AddressBook.Assign | facade/addressassignment.go:183-222 | Succeeds exactly when the entity is valid and neither endpoint nor pool address is taken; the table grows by that entry only |
| Addresses.AddressBook.Remove | facade/addressassignment.go:157-180 | Removes exactly that entry and keeps the table unique |
| Addresses.AddressBook.GetServiceAssignments | facade/addressassignment.go:131-135 | Lists exactly the entries of the service |
| Addresses.AddressBook.GetAutoAssignment | facade/service.go:2415-2473 | Returns some address of the pool that is unused at every port, or an error exactly when there is none |
| Addresses.AddressBook.CurrentAddress | facade/service.go:2256-2268 | The scan finds the common address of the current entries and the ports not covered |
| Addresses.AddressBook.Select | facade/service.go:2254-2295 | Returns only what the selection relation of the theorems allows, the manual, the current or a free address, and what is left of the port map |
| Addresses.AddressBook.Visit | facade/service.go:2246-2339 | With any port map: when an address is selected is said exactly; a failed selection changes nothing, and otherwise the result is that of settling on the address selected; the map that is left is the one the selection leaves; other services are never touched; uniqueness always holds. With its own port map the service is settled exactly if its endpoints do not collide |
| Addresses.AddressBook.RemoveStale | facade/service.go:2297-2305 | Removes the entries on other addresses and returns the endpoints that stay |
| Addresses.AddressBook.AssignMissing | facade/service.go:2307-2325 | The insert loop computes the recursive form, stopping at the first failure |
| Addresses.AddressBook.RestoreIPs | facade/service.go:2201-2243 | Endpoint by endpoint: the saved address if it can be had, otherwise a free one, otherwise none, and a stop where an assignment is refused; only adds entries, of this service and in its pool; cannot fail for a service with distinct names that has no entries yet |
| Addresses.AddressBook.RestoreEndpoint | facade/service.go:2208-2240 | One endpoint's turn |
| Addresses.SavedAddressRestored | facade/service.go:2208-2240 | An endpoint whose saved address can be had when its turn comes gets it |
| Addresses.AddressBook.RestoreOne | facade/service.go:2208-2228 | The saved address if it is available, otherwise any free one |
| AddressWalks.OwnUntilVisited | domain/service/walk.go:29-50 | Until it is visited, a service has the entries it had when the walk began |
| AddressWalks.MapsSeen | facade/service.go:2246-2339 | Each service is visited with the first port map less the ports that those before it held at the start: on the requested address, or on any for an automatic request with entries on one address each |
| AddressWalks.AskedSeesOwnMapIff | facade/service.go:2341-2353 | The service asked for is visited last, and with its own ports if and only if no descendant held one of them |
| AddressWalks.ShrunkenMapLosesAssignment | facade/service.go:2341-2353 | A child that holds the port on the requested address makes its parent lose its entry |
| AddressWalks.Walk | facade/service.go:2623-2641 | Visits the services in order, each with the table and port map the one before it left, and stops at the first whose selection finds nothing or whose assignment fails |
| AddressWalks.AssignIPs | facade/service.go:2341-2353 | Walks descendants first with the port map of the service asked for, empty if two of its endpoints share a port |
| Archives.TarWriter.RewriteTar | dfs/backup.go:203-228 | Appends every entry, in order, under its prefixed name |
| Archives.TarWriter.WriteSnapshots | dfs/backup.go:91-154 | Appends the snapshots one after the other, each under its own prefix |
| Archives.TarWriter.Backup | dfs/backup.go:38-169 | Writes metadata, snapshots in order, then images |
| Archives.RouteSnapshot | dfs/restore.go:153-184 | A name that does not climb out, written below a snapshot's prefix, is routed to that snapshot under its clean form, and the root is dropped |
| Archives.RouteImage | dfs/restore.go:201-219 | The same below the images prefix |
| Archives.ClimbingEntryGoesElsewhere | dfs/restore.go:139-233 | An entry of a snapshot that climbs out and is handed to the image loader |
| Archives.RoutedNamesClean | dfs/restore.go:151-230 | Whatever was written below a prefix, a routed name comes out clean |
| Archives.ArchiveRestores | dfs/restore.go:139-233 | As long as no name climbs out, every loader is delivered its own entries in order, under clean names and without the root |
| Archives.DirectoryLosesSlash | dfs/backup.go:203-228 | A directory entry that ends in a slash arrives without it |
| Archives.CleanArchiveRestores | dfs/restore.go:139-233 | With clean names every loader is delivered its original entries in order |
| Archives.BackupRestoreRoundTripIff | dfs/restore.go:139-233 | For distinct snapshots the delivery is exact if and only if all names were clean and below the root |
| Restores.ProperImagesNeverClobber | dfs/restore.go:201-219 | If all image entries lie below the images prefix, no filed stream is overwritten |
| Restores.SecondDirectoryClobbers | dfs/restore.go:201-219 | An entry below another directory whose name begins like the images' overwrites the filed images loader |
| Restores.SecondImagesDirectoryClobbers | dfs/restore.go:201-219 | The archive IMAGES.dkr/a, IMAGES.dkr2/x does |
| Restores.DistributeStep | dfs/restore.go:150-233 | One entry keeps the account of keys, lost streams and what each stream received, stream by stream |
| Restores.ItemsForIsDelivered | dfs/restore.go:139-233 | Feeding streams entry by entry gives each what the archive holds for it |
| Restores.ReachIsFirstFailure | dfs/restore.go:139-233 | The number of entries handled is determined by the first that cannot be read or written |
| Restores.BackupWellFiled | dfs/backup.go:91-169 | A backup in which no name climbs out files all its image entries properly |
| Restores.RestoreRun.Distribute | dfs/restore.go:139-233 | The loop over the archive leaves running loaders with the right contents, or stops at the first failed read or write |
| Restores.RegisteredIff | dfs/restore.go:250-276 | A tenant and label are registered if and only if their snapshot's loader was closed properly, loaded and was accepted |
| Restores.RegisteredOnce | dfs/restore.go:250-276 | And no more than once |
| Restores.ClosedAsLogged | dfs/restore.go:125-137 | Whether finished loaders were closed properly or with an error |
| Restores.RestoreRun.LoadSnapshot | dfs/restore.go:250-276 | Closes and collects one snapshot loader and registers its own tenant and label if and only if it succeeded |
| Restores.RestoreRun.LoadSnapshots | dfs/restore.go:250-277 | Takes the streams in any order; reports success exactly if all were loaded and registered |
| Restores.RestoreRun.LoadAll | dfs/restore.go:235-277 | Collects the images before any snapshot is registered |
| Restores.RestoreRun.CleanUp | dfs/restore.go:125-137 | Closes and collects whatever is still filed |
| Restores.RestoreRun.RestoreV1 | dfs/restore.go:114-277 | On every exit each loader created is closed and collected exactly once, unless it was clobbered, which is said exactly; a loader whose own entries were all written received exactly those among the entries handled, whatever became of other pipes, and how many were handled is said exactly; images are collected before any registration, and none happens if they failed; for every plain tenant and label, registration happens, once, if and only if the snapshot's loader was closed properly, loaded and accepted, and all loaders are closed properly unless an entry failed, the images failed or a key names no snapshot; success if and only if every entry was read and written and every stream loaded and registered |
| Restores.BackupThenRestore | dfs/restore.go:114-277 | Backup and restore together: if no entry fails and no name climbs out, no loader is lost, and each whose own pipe held gets its entries back, cleaned and in order |
| SnapshotTags.ResolveName | dfs/registry/index.go:61-89 | A printed index name leads back to its entry |
| SnapshotTags.NameInjective | domain/registry/image.go:31-47 | No two entries share a printed name, hence a store key |
| SnapshotTags.ResolveImagePath | dfs/registry/pull.go:42-56 | The registry path stored with a snapshot leads back to the same entry |
| SnapshotTags.RelabelFrame | dfs/snapshot.go:51-77 | Taking a snapshot, successful or not, changes at most the tags of its own label |
| SnapshotTags.RelabelOneIff | dfs/snapshot.go:51-77 | A round succeeds if and only if the image is in the index and is local |
| SnapshotTags.RelabelOneCopies | dfs/snapshot.go:51-77 | A round copies the version it finds to the image's place under the label |
| SnapshotTags.RelabelTakes | dfs/snapshot.go:51-77 | A successful snapshot found every image to be local, stores for each a path that leads to its place under the label, and the index holds all of them |
| SnapshotTags.RelabelUniform | dfs/snapshot.go:51-77 | If all images of a repository have one version at the start, that is what the label holds of it, also when images carry the label |
| SnapshotTags.RetagRestores | dfs/rollback.go:38-49 | Retagging held images cannot fail, makes each held version the latest and touches nothing but latest |
| SnapshotTags.DownloadFresh | dfs/download.go:33-122 | What a download does with an image that is not deployed, path by path, in terms of the place it is meant for |
| SnapshotTags.DownloadUnparsed | dfs/download.go:33-122 | A name that cannot be parsed changes nothing |
| SnapshotTags.DownloadKeepsEntries | dfs/download.go:33-86 | Without upgrade, no entry that is there changes |
| SnapshotTags.DownloadCollidesIff | dfs/download.go:72-84 | A collision is reported if and only if there is no upgrade, the image is not deployed, and the tenant has a latest of that repository under another id than was pulled |
| SnapshotTags.DownloadSucceedsIff | dfs/download.go:33-122 | When a download succeeds, exactly; then the name it returns leads to an entry with the id of what was pulled, or of the image deployed already |
| SnapshotTags.DownloadTouchesLatest | dfs/download.go:33-122 | A download changes at most latest tags, on every path |
| SnapshotTags.CommitSucceedsIff | dfs/commit.go:44-89 | A commit succeeds if and only if the container's image is the latest and identical and docker made an image; then that is the latest and nothing else changes; a failed one changes nothing |
| SnapshotTags.CommitTouchesLatest | dfs/commit.go:44-89 | A commit changes at most latest tags |
| SnapshotTags.RetagNeedsHeld | dfs/rollback.go:38-49 | A retagging loop that gets through has found every image |
| SnapshotTags.StepValid | dfs/delete.go:43-56 | Downloads, commits, snapshots under new labels, deletions, failing deletions and rollbacks keep the labels and paths of kept snapshots in order, and change only the tags they are about |
| SnapshotTags.RunKeeps | dfs/snapshot.go:51-77 | Over every run a snapshot that nobody tries to delete keeps its record, and its label holds what it held |
| SnapshotTags.RollbackSucceedsIff | dfs/rollback.go:38-49 | A rollback gets through if and only if the snapshot still finds all its images |
| SnapshotTags.RollbackAfterFailedRemovalIff | dfs/delete.go:21-56 | After a deletion that failed, and any run without another, a rollback gets through if and only if none of the snapshot's images was among those removed |
| SnapshotTags.RollbackNow | dfs/rollback.go:38-49 | Rolling back to a snapshot that finds its images makes the versions it holds the latest |
| SnapshotTags.RollbackRestoresIff | dfs/rollback.go:38-49 | After any run that does not delete it, rollback succeeds, and makes latest of each image the version it had when the snapshot was taken if and only if images of one repository were in one version then |
| SnapshotTags.LatestUniform | dfs/snapshot.go:51-77 | Images that are all latest ones meet that condition |
| SnapshotTags.TwoVersionsNotRestored | dfs/rollback.go:38-49 | Two tags of one repository in different versions are taken and not both restored, in any valid state |
| SnapshotTags.TwoTagsNotRestored | dfs/rollback.go:38-49 | Such an index |
| SnapshotTags.DistributedFilesystem.Snapshot | dfs/snapshot.go:51-77 | Is the snapshot step of the run: records the images only on success, and may leave tags behind when it fails |
| SnapshotTags.DistributedFilesystem.RelabelLoop | dfs/snapshot.go:51-77 | The loop over images computes its recursive form, stopping at the first error |
| SnapshotTags.DistributedFilesystem.Rollback | dfs/rollback.go:38-49 | The retagging loop computes the step of the run, and succeeds exactly if the snapshot finds all its images |
| SnapshotTags.DistributedFilesystem.RetagLoop | dfs/rollback.go:38-49 | The loop over stored paths computes its recursive form, stopping at the first error |
| SnapshotTags.DistributedFilesystem.Delete | dfs/delete.go:21-56 | Takes away exactly the tenant's entries under the label and then the snapshot, or fails with some of the entries gone and the snapshot kept; when it fails is said exactly |
| EndpointRegistry.PublishesExactlyEnabled | facade/serviceregistry_cache.go:80-114 | A key is published if and only if some endpoint enables it, with such an endpoint's values and the service as owner |
| EndpointRegistry.LastDefinitionWins | facade/serviceregistry_cache.go:80-114 | Of several enabled definitions of a key the last one, in the order of endpoints, ports and virtual hosts, is published |
| EndpointRegistry.RequestsBuilt | facade/serviceregistry_cache.go:71-131 | Both kinds of request delete what is cached and not published, and publish only under the service's own name |
| EndpointRegistry.SyncMirrorsIff | zzk/registry/registry.go:277-390 | From a mirroring cache the transaction succeeds, the service then owns exactly what it published, and the cache mirrors zookeeper if and only if no key was taken from another service |
| EndpointRegistry.StepMirrorsIff | facade/zkapi.go:901-939 | The same for a sync, a removal or a failure as a step |
| EndpointRegistry.RunMirrorsIff | facade/zkapi.go:901-939 | Over every run all states mirror zookeeper if and only if no service ever enables a key owned by another |
| EndpointRegistry.ServiceRegistryCache.GetRegistryForService | facade/serviceregistry_cache.go:141-152 | Makes an empty entry if there is none, which changes no service's published keys |
| EndpointRegistry.ServiceRegistryCache.BuildCache | facade/serviceregistry_cache.go:58-68 | The cache built from zookeeper mirrors it |
| EndpointRegistry.ServiceRegistryCache.BuildSyncRequest | facade/serviceregistry_cache.go:71-131 | The nested loops compute the request, deletions included |
| EndpointRegistry.ServiceRegistryCache.AddOne | facade/serviceregistry_cache.go:80-114 | The loops over one endpoint's ports and virtual hosts |
| EndpointRegistry.Coordinator.SyncServiceRegistry | facade/zkapi.go:901-939 | Zookeeper and cache change together or not at all; afterwards the service owns exactly its enabled endpoints, and the cache mirrors zookeeper unless a key was taken |
| EndpointRegistry.Coordinator.RemoveServiceEndpoints | facade/zkapi.go:144-191 | Afterwards the service owns nothing and the cache mirrors zookeeper; a failure changes nothing in zookeeper |
| InternalServices.StepConsistent | isvcs/container.go:559-706 | Every request and exit keeps: collecting implies running, one collector and one checker alive exactly while collecting, no halt without a receiver; every request is answered once |
| InternalServices.RunsAfterRequestIff | isvcs/container.go:575-668 | When the container runs after a start (recovery included), a stop or a restart |
| InternalServices.RunConsistent | isvcs/container.go:559-706 | The same in every run, and as many answers as requests |
| InternalServices.StepWatchedIff | isvcs/container.go:575-670 | A step keeps a watched container watched if and only if it is not a failing stop of a running one, by a stop or a restart request |
| InternalServices.RunningIsWatchedIff | isvcs/container.go:559-706 | Over every run the container runs exactly while it is watched if and only if no stop of a running container fails |
| InternalServices.FailedStopLeavesUnwatched | isvcs/container.go:575-593 | A run that ends with a container running without collectors |
| InternalServices.RestartCountIsTrailing | isvcs/container.go:712-724 | The restart counter is the number of trailing short lives in the trace |
| InternalServices.RestartAttemptedIff | isvcs/container.go:671-724 | After an exit a restart is attempted if and only if fewer than three consecutive exits ending with it came within 60 seconds |
| InternalServices.IService.RunLoop | isvcs/container.go:559-706 | The loop computes the run and ends consistent |
| Controllers.StepConsistent | container/controller.go:678-750 | Every event keeps the counts and flags in step; while winding down the next event ends the loop |
| Controllers.RunConsistent | container/controller.go:678-750 | The same in every state of every run |
| Controllers.EndsOnlyWhenAsked | container/controller.go:701-750 | Without a shutdown the loop ends exactly when a process exits that is not to be restarted, and otherwise always waits for prerequisites, a start or a process |
| Controllers.AtMostOneProcess | container/controller.go:678-750 | At most one child process is live, and none while a start is pending |
| Controllers.ShutdownEndsLoop | container/controller.go:678-750 | After a shutdown request nothing is started and at most one more event is handled, which ends the loop |
| Controllers.HealthChannelCloses | container/controller.go:669-699 | In an ended run the deferred close is the second one if and only if some shutdown request found a process or a PID file |
| Controllers.OrderlyShutdownClosesTwice | container/controller.go:669-699 | An orderly run of start, shutdown and exit that closes the channel twice |
| Controllers.RunLoop | container/controller.go:701-750 | Handles exactly the arriving events that are enabled when they come; that is a run and ends consistent |
| RollingRestarts.ReachedIsFirstStop | facade/service.go:1858-1950 | The number of instances restarted is determined by the first cancellation or failure |
| RollingRestarts.Restarter.Revert | facade/service.go:1845-1853 | Puts exactly the instances from the given one on back to running |
| RollingRestarts.Restarter.RestartEach | facade/service.go:1858-1965 | Restarts a prefix once each in order; the outcome tells why it stopped |
| RollingRestarts.Restarter.RollingRestart | facade/service.go:1828-1970 | Once all are marked, on every exit restarts went to the instances below k in order and the revert to exactly the others; completion exactly if nothing stopped it |
| VirtualInterfaces.ProperAddressIff | container/vif.go:64-86 | Both computed octets lie in 0..254 if and only if fewer than 65023 interfaces exist; the code's own bound lets one more through |
| VirtualInterfaces.NextIPDigits | container/vif.go:64-86 | Within the bound the octets are the digits of the count plus two, to the base 255 |
| VirtualInterfaces.NextIPInjective | container/vif.go:64-86 | Different counts below the bound give different addresses |
| VirtualInterfaces.TextInjective | container/vif.go:82-86 | Proper addresses of one subnet that are written alike are equal |
| VirtualInterfaces.VIFRegistry.DistinctAddresses | container/vif.go:105-125 | With at most 65023 interfaces every address is proper, in the subnet, and written unlike any other |
| VirtualInterfaces.VIFRegistry.FindOrCreate | container/vif.go:108-125 | Succeeds exactly for a known host, or when creating works and the bound is not passed; a known host keeps its interface, a new one gets the next address and no ports; an error changes nothing |
| VirtualInterfaces.VIFRegistry.MapPort | container/vif.go:126-143 | Redirects a port unless it is redirected already; fails exactly on an unknown protocol or a failed redirection |
| VirtualInterfaces.VIFRegistry.RegisterVirtualAddress | container/vif.go:92-144 | When it succeeds is said exactly; then the port is redirected, where it was before or else as requested; no other port and no address changes |

## Left out

- Docker, NFS, ssh, iptables, elastic, HTTP and the tar byte format: I/O without logic of its own.
- RSA, JWT, key files and the clock: parameters of the framing model (`Authority`, `sign`); an identity is its name, and signatures have 256 bytes.
- Image identifiers with letters beyond ASCII: the scanner stores the low byte of such a letter. `Atoi` is the 64-bit one.
- `Merge`, `Copy` and `Equals` of an image identifier: easy members.
- The cached name path: a rename does not evict it, so no coherence holds for it.
- Deleted services: their entries stay cached, and an id is assumed not to be added again while it is cached. Ids are plain path components, and a new parent is never a descendant; the code checks neither.
- Address assignment ids, surrounding white space in host and pool ids, and failures of the assignment store.
- Services that are added, removed or changed while `AssignIPs` walks them, and what an automatic request leaves of the port map when a service's entries are on several addresses, beyond that it depends on the order they are listed in.
- Errors of the writer underneath the authentication header: the stream being written to does not fail.
- What makes a backup fail before an entry is written (missing snapshots, images, free space), the version 0 restore, and how a snapshot's images are registered after loading.
- `Override` and the image pushes of a restore: they may write any tag. Snapshots are taken under labels not in use by a kept snapshot.
- Rolling the volume itself back, its export and its metadata files.
- The paths, versions and parent nodes of zookeeper entries, and the lazy rebuild of the registry cache, whose guard never holds with the map made by the constructor.
- Custom stats functions of internal services: a stop does not halt them and a restart does not start them again.
- The kill counter of health checks, health caching and reporting.
- A rolling restart whose marking loop fails midway leaves instances marked, because the revert is deferred only afterwards; the model states that nothing is restarted or reverted then. Reverts are assumed to be accepted.
- Subnets whose prefix is not 16 bits long.
- Sibling name uniqueness in service migration, audit logs, metrics, user accounts, logstash configuration, pool and host administration.
