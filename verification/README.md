# Stellar: the orderings, state machines and codecs behind the framework

Stellar is a Go application framework. Most of it wires foreign SDKs together; this project models the parts that
hold real logic and proves what they keep over all inputs and all runs:

- `RollingFile`: the rolling log writer over a disk whose every primitive may fail at any time.
- `Lifecycle`: starting and stopping an application (hooks, modules, starters, transports), any component free to fail.
- `Interceptors`, `Router`, `Sorting`: staged, stably sorted interceptor chains, route groups, and the split of the
  chain around the binder of a typed route. `Governance`: the rule store, with explicit memory for its maps.
- `KeyedLists`, `CacheModel`, `Discovery`, `DiscoveryCache`: the discovery cache, its in-place updates and every
  interleaving of its locked sections.
- `FeedModel`, `DiscoveryFeed`, `FeedRaces`, `FeedSimulation`: what a cache fed by registry events holds, compared with
  resolving anew, and what happens when refreshes race with events.
- `Picker`: round robin and weighted round robin over a 64-bit ticket counter.
- `Instances`, `Labels`, `LabelText`, `Consul`, `ConsulNames`, `Regroup`, `Nacos`, `NacosNames`, `EtcdKeys`: how
  instances, labels and keys are written to the registries and read back.
- `WatchQueue`: the bounded, closable event queue with concurrent publishers and closers.
- `Text`, `Options`, `Selecting`: the string helpers, a value that may be absent, and filtering loops.

How the model stands for the code:

- Code that changes fields is a class whose methods are proved against functions of the old state; Go's locked
  sections and channel operations are atomic steps, and the interleavings are all sequences of these steps.
- Every operation that may fail (disk, component, base resolver) fails nondeterministically. A clock is a parameter.
- Walking a Go map is a loop that takes any key next; the contracts hold for every order.
- Trimming and lower-casing are over ASCII. Theories that only need laws of trimming take the text rules as a
  parameter (`Instances.Rules`), so that no proof unfolds them; `Instances.RULES` and the modules `LabelText`,
  `ConsulNames` and `NacosNames` give the laws and the results for the real rules.
- A file of the rolling log is kept as the list of its writes, oldest first; a file found before the first session counts
  as one write.
- Operations are proved against functions; lemmas named after such a function with `Means`, `Are` or `Iff` say in plain
  terms what it returns.
- Events travel in one queue between the registry and the cache: a watcher's goroutines and channels are the queue.

Some properties one would expect are false of the code. Each is proved to hold exactly under a condition:
an upsert removes stale copies only in a deduplicated cache (`Discovery.UpsertReplacesAllIffDistinct`); events keep the
cache in agreement with the registry only while each write changes what its instance contributes by no more than the one
endpoint its event carries (`DiscoveryFeed.EventsAgreeIff`, `DiscoveryFeed.OnlyOneEndpointIsForwarded`); a watch misses
what is written between its snapshot and its subscription (`DiscoveryFeed.SubscribingAgreesIff`); a refresh that an event
or a newer refresh has passed takes back what that brought (`FeedRaces.CommitIsCoherentIff`,
`FeedRaces.OvertakenRefreshLosesAnEvent`, `FeedRaces.OlderRefreshCommitsLast`); weights that overflow `int` starve the
last endpoint (`Picker.AllArePickedIffInRange`), and the wrap of the ticket counter breaks a cycle
(`Picker.EveryCycleIsExactIff`); a framework definition at the business stage and any definition of an unknown
kind are accepted and never listed (`Interceptors.ListedExactlyOnce`); a typed route reads two registries that may differ
(`Router.SplitOfTwoRegistriesIff`); a store is isolated from what it returns only while no rule nests a map
(`Governance.IsolatedIff`); the log loses its suffix when the number of backups is lowered and raised again
(`RollingFile.StaleFilesComeBackIff`); labels, metadata, service names and keys survive
the registries only without the separators and reserved names (`LabelText.ConfiguredSelectorsIff`,
`LabelText.ConsulTagsIff`, `ConsulNames.ConsulRoundTripIff`, `Nacos.MetadataRoundTripIff`,
`NacosNames.ServiceNameRoundTripIff`, `EtcdKeys.SelectedByItsServiceOnlyIff`, `EtcdKeys.KeyIsUniqueIff`).

## Model

| member | source | states |
|---|---|---|
| RollingFile.RunSessions | internal/rollingfile/writer.go:24-121 | over any number of sessions, each with its own limits and the number of backups raised only where no file can lie above it, for every sequence of writes and closes and any primitive failing anywhere: backups from the oldest and then the current file hold a suffix of what was found and of exactly what the calls report as written, in order, nothing twice, each write whole in one file |
| RollingFile.OtherLimitsAreSafe | internal/rollingfile/writer.go:24-47 | lowering the number of backups keeps the suffix, and so does raising it while no file lies above it |
| RollingFile.StaleFilesComeBackIff | internal/rollingfile/writer.go:98-121 | lowering it and raising it again after a rotation brings a stale file back: what is retained is a suffix only if two writes happen to be equal |
| RollingFile.Run | internal/rollingfile/writer.go:24-121 | one session over what earlier ones left: the log of writes grows by exactly the reported part of each write that reached the file, and the files hold the last of it |
| RollingFile.SuccessfulWritesAreWhole | internal/rollingfile/writer.go:49-67 | every successful write is in what was written, whole and in one piece |
| RollingFile.Drive | internal/rollingfile/writer.go:49-121 | the outcomes of the calls fit their operations, and determine what was written; every call succeeds unless a primitive fails; while the current file and all that is written fit the limit, nothing retained is dropped and no backup is touched |
| RollingFile.Writer.New | internal/rollingfile/writer.go:24-47 | defaults for limits that are not positive; a writer holds the opened current file, and what earlier sessions left is kept |
| RollingFile.Writer.Write | internal/rollingfile/writer.go:49-67 | succeeds exactly when no primitive fails; a write that fits the limit appends one piece and leaves every backup as it was; past the limit it begins a new file, with every other one place older and the oldest gone; a failure leaves an interrupted shift at worst |
| RollingFile.Writer.Prepare | internal/rollingfile/writer.go:49-61 | reopens a closed file; leaves the files alone when the incoming bytes fit and rotates exactly when the size plus these bytes exceed the limit |
| RollingFile.Writer.Rotate | internal/rollingfile/writer.go:98-121 | a successful rotation is an exact shift with an empty current file; a failed one stops at some index of that shift |
| RollingFile.Writer.Open | internal/rollingfile/writer.go:80-96 | the handle is held exactly on success, with the length of what is there as size |
| RollingFile.Writer.Close | internal/rollingfile/writer.go:69-78 | the handle is given up even when closing fails; closing again succeeds |
| RollingFile.ShiftBackups | internal/rollingfile/writer.go:104-117 | removing the oldest and renaming downward is, at every point where it may stop, the shift of a possibly holed set of backups, and overwrites no file |
| RollingFile.ShiftDropsOnlyOldest | internal/rollingfile/writer.go:104-117 | a shift stopped anywhere loses the oldest backup only and keeps the order of the rest |
| RollingFile.ShiftIsSafe | internal/rollingfile/writer.go:98-121 | a shift stopped anywhere keeps the suffix property and the size limit of every file |
| RollingFile.AppendIsSafe | internal/rollingfile/writer.go:49-67 | a write that fits, or the first of a file, keeps every file within the limit or at a single write |
| RollingFile.RetainedBytesAreLastBytes | internal/rollingfile/writer.go:98-121 | keeping the last writes whole keeps the last bytes, file by file |
| RollingFile.BackupPathsAreDistinct | internal/rollingfile/writer.go:123-127 | two indexes never share a path, and no backup has the path of the current file |
| RollingFile.BackupPathMeans | internal/rollingfile/writer.go:123-127 | a backup has its number, in decimal, between the base of the path and the extension |
| Lifecycle.Run | boot/app.go:154-278 | for every sequence of calls and outcomes: a component was started successfully as often as it was stopped, or more often while something is started; with nothing started nothing is up; the instance is registered exactly while the registry transport is up, and deregistered as often as registered in the end |
| Lifecycle.RunConfigured | boot/configured.go:23-71 | in every run of a configured application without transports added later, the instance is registered only while every other transport is up, none of them is stopped meanwhile, and there is at most one deregistration per registration |
| Lifecycle.App.Start | boot/app.go:182-254 | either all hooks, modules that are not nil, starters that became active and transports come up in this order, or a first part of them did, one component failed or a starter's initialization did, and all that came up is stopped in reverse; nothing happens when it is started, disabled or its configuration is invalid |
| Lifecycle.App.Climb | boot/app.go:214-250 | the trace of a start is the successful starts in plan order, up to the first failure if there is one |
| Lifecycle.App.Stop | boot/app.go:267-278 | stops what the trace says is up in the exact reverse order, whatever fails, reports exactly the failures and leaves nothing up; a second stop does nothing |
| Lifecycle.App.StopStarted | boot/app.go:352-376 | the stops are the reverse of everything up, across all four layers |
| Lifecycle.App.StopUpper | boot/app.go:352-372 | transports, then starters, then modules, each in reverse, none skipped |
| Lifecycle.App.ResetStarted | boot/app.go:378-383 | empties all four lists, which makes the leftovers of a failed start harmless |
| Lifecycle.App.AddTransport | boot/http_adapter.go:49-59 | adds a transport that is not there yet, at the end |
| Lifecycle.App.InitStarters | boot/app.go:199-213 | starters that are not nil are considered in order until an initialization fails; the active ones are exactly those whose condition held and whose initialization succeeded, in order; initialization may add hooks |
| Lifecycle.App.StartModules | boot/app.go:219-230 | the modules that are not nil come up in order up to the first that fails, which is named; a module may register hooks while it starts |
| Lifecycle.App.StartStarters | boot/app.go:232-239 | the same of the active starters |
| Lifecycle.App.StartTransports | boot/app.go:240-250 | the same of the transports, each begun only when those before it are up |
| Lifecycle.Manager.Start | lifecycle/lifecycle.go:40-55 | hooks are started in order up to the first failure, and exactly those are recorded as started |
| Lifecycle.Manager.Stop | lifecycle/lifecycle.go:57-73 | every started hook is stopped in reverse, failures are collected and none is skipped |
| Lifecycle.Manager.Append | lifecycle/lifecycle.go:25-29 | hooks are kept in registration order |
| Lifecycle.World.Begin | boot/registry_transport.go:23-32 | a start that succeeds goes on top of what is up; the instance counts as registered exactly when the registry transport's start succeeded |
| Lifecycle.World.End | boot/registry_transport.go:34-45 | the topmost component is gone whatever its stop returned; the registered flag is cleared and the instance deregistered once |
| Lifecycle.StopAll | boot/app.go:352-372 | the reverse loop stops every unit and collects exactly the failures |
| Lifecycle.StartsAreStops | boot/app.go:182-278 | in a well-bracketed trace a component's successful starts are as many as its stops and what is up of it |
| Lifecycle.TransportsAreUpOnce | boot/http_adapter.go:49-59 | no transport is ever up twice |
| Lifecycle.RegisteredOnlyWhileServing | boot/registry_transport.go:23-45 | with the registry last in the plan, registration follows all other transport starts and deregistration precedes all other transport stops, at every moment |
| Lifecycle.Configure | boot/configured.go:23-71 | the transports are those of the options, HTTP, gRPC and the registry, in this order and each once, the registry's last |
| Lifecycle.AddedOnce | boot/http_adapter.go:49-59 | a transport is in the list exactly when it was added, and then once |
| Lifecycle.AddedAll | boot/http_adapter.go:49-59 | transports that are all different are all listed, in the order they were added |
| Lifecycle.ReplayBegan | boot/app.go:214-250 | a start that succeeds adds to the top of what is up, one that fails changes nothing |
| Lifecycle.ReplayEnded | boot/app.go:352-376 | only what is at the top of what is up is stopped, and it alone is gone |
| Lifecycle.FailuresMean | boot/app.go:352-376 | a stop that fails is an error, nothing else is |
| Lifecycle.PresentMeans | boot/app.go:219-230 | the modules to start are those that are not nil, in order |
| Lifecycle.GivenMeans | boot/app.go:199-213 | the starters to consider are those that are not nil, in order |
| Lifecycle.ActiveMeans | boot/app.go:199-213 | a starter is active exactly when its condition held and its initialization succeeded |
| Lifecycle.ListsMean | boot/app.go:214-250 | hooks, starts and considered starters are listed one for one |
| Sorting.StableSortIsStable | interceptor/interceptor.go:284-321 | the sort is an ordered permutation that keeps the order of equal keys |
| Sorting.StableSortIsTheOnlyOne | interceptor/interceptor.go:284-321 | stage, order, name and stability determine the sorted list |
| Sorting.SortCommutesWithFilter | governance/rule.go:86-99 | filtering before or after a stable sort is the same |
| Sorting.StableSortMeans | interceptor/interceptor.go:284-321 | smaller stages come first, within a stage smaller orders, within an order smaller names, and equal ones keep their order |
| Sorting.NameBelowMeans | interceptor/interceptor.go:299-304 | a name is smaller than another exactly when, at the first difference, it ends or has the smaller character |
| Interceptors.Registry.Register | interceptor/interceptor.go:216-237 | normalizes and keeps exactly the valid definitions, each in the slot of its kind and stage, in registration order |
| Interceptors.Registry.Definitions | interceptor/interceptor.go:284-321 | lists, stage by stage, the stable sorts of what was registered |
| Interceptors.Registry.ChainWithStages | interceptor/interceptor.go:259-278 | the backward loop is the fold of the listed definitions, the first outermost |
| Interceptors.FoldConcat | interceptor/interceptor.go:259-278 | folding a concatenation is composing the folded pieces |
| Interceptors.ListingIsOneStableSort | interceptor/interceptor.go:284-321 | for any list of distinct stages, what is listed is one stable sort of the whole registration sequence by stage, order and name |
| Interceptors.ListedExactlyOnce | interceptor/interceptor.go:395-419 | every registered definition of a known kind is listed exactly as often as registered, except framework ones at the business stage; unknown kinds list nothing |
| Interceptors.FrameworkAtBusinessIsNotListed | interceptor/interceptor.go:294-306 | a framework definition at the business stage is valid, is registered and is not listed |
| Interceptors.UnknownKindIsNotListed | interceptor/interceptor.go:410-419 | the same of a business definition of an unknown kind |
| Interceptors.StagesNeverCross | interceptor/interceptor.go:284-321 | no order value moves a definition across a stage |
| Interceptors.KindStagesDistinct | interceptor/interceptor.go:37-71 | no stage occurs twice in the stages of a kind |
| Interceptors.StagesAre | interceptor/interceptor.go:37-71 | the stages of each kind, of the part before decoding and of decoding, in order |
| Interceptors.AcceptedMeans | interceptor/interceptor.go:382-408 | which definition is accepted and what becomes of it: named after its interceptor if it has no name, a business one at the business stage, a framework one only at a stage of its kind |
| Interceptors.ListingOrder | interceptor/interceptor.go:284-321 | a listing goes by stage, then order, then name |
| Interceptors.ListedCount | interceptor/interceptor.go:284-321 | a definition is listed as often as it was registered if it is of the kind, the kind is known and it is not a framework one at the business stage; else not at all |
| Interceptors.FoldMeans | interceptor/interceptor.go:259-278 | no definition is the handler itself, and one is its interceptor around the handler |
| Router.JoinPath | transport/http/router.go:511-526 | a joined path is not empty and begins with a slash |
| Router.JoinPathMeans | transport/http/router.go:511-526 | one slash between the parts, one in front, and none doubled at the joint |
| Router.JoinPathAssociative | transport/http/router.go:511-526 | joining is associative on all strings |
| Router.NestedGroupsAreFlat | transport/http/router.go:194-204 | any nesting of groups has the prefix of one flat group |
| Router.HandleNested | transport/http/router.go:174-204 | a route of two nested groups is the route of one flat group, with outer, inner and route middlewares in this order |
| Router.Router.Handle | transport/http/router.go:174-192 | the route is added to the root with the joined path and the group's middlewares before its own |
| Router.Router.Group | transport/http/router.go:194-204 | a group writes to the same root, with joined prefix and appended middlewares |
| Router.Router.Use | transport/http/router.go:151-156 | root middlewares are kept in order |
| Router.Chain | middleware/middleware.go:24-39 | the backward loop puts the first middleware outermost and skips nil ones |
| Router.AroundConcat | middleware/middleware.go:24-39 | chaining a concatenation is composing the chains |
| Router.AroundRecords | middleware/middleware.go:24-39 | middlewares are entered in order and left in reverse |
| Router.AroundMeans | middleware/middleware.go:24-39 | no middleware is the handler itself, a nil one is skipped, another one is around it |
| Router.FoldRecords | interceptor/interceptor.go:259-278 | interceptors are entered in order and left in reverse |
| Router.Execute | transport/http/router.go:274-348 | the rebinding of the handler computes the full chain of a plain route from the registry of the snapshot, and the split chain of a typed one whose inner part comes from the registry the router has when the endpoint runs |
| Router.SplitListsTheFullChain | transport/http/router.go:234-322 | pre-decode, decode and business pieces concatenate to the full list: the same interceptors, each once, in the same order |
| Router.SplitOfTwoRegistriesIff | transport/http/router.go:256-322 | read from two registries, the pieces list the full chain of the outer one if and only if both agree on the decode stage and the business interceptors |
| Router.TwoRegistriesMayDiffer | transport/http/router.go:256-322 | a business interceptor that only the inner registry has makes the pieces differ from the full chain |
| Router.SplitAtBusiness | interceptor/interceptor.go:243-278 | the same for every split of stages that ends in the business stage |
| Router.TypedRouteRunsTheFullChain | transport/http/router.go:234-322 | with nothing in between, the three folded pieces are the fold of the full chain |
| Router.TypedRouteOrder | transport/http/router.go:234-348 | the observable order of a typed route: early interceptors, root and group middlewares, binder, late interceptors, own middlewares, handler, and each of them back out in reverse |
| Router.TypedRouteIsSeen | transport/http/router.go:234-348 | the same of what `Execute` returns |
| Router.PlainRouteOrder | transport/http/router.go:274-348 | the observable order of a plain route, of what `Execute` returns: all interceptors of the snapshot's registry, root and group middlewares, the handler, and each of them back out in reverse |
| Router.RejectedRouteIsSeen | transport/http/router.go:234-272 | when the binder rejects the request, early interceptors and root and group middlewares are entered and left again, and neither late interceptors nor own middlewares nor the handler run |
| Governance.Store.Replace | governance/rule.go:76-84 | installs the stable sort of a deep copy with trimmed IDs, smaller priorities first and within a priority smaller IDs; a zero time becomes now |
| Governance.Store.GetSnapshot | governance/rule.go:64-74 | returns a sorted deep copy in newly allocated maps |
| Governance.Store.Rules | governance/rule.go:86-99 | returns the copies of the accepted rules of the kind asked for, of any kind for a blank one, still sorted by priority and ID |
| Governance.CloneRules | governance/rule.go:112-138 | copies read like the originals and share no map with anything allocated before |
| Governance.CloneRule | governance/rule.go:112-127 | the ID is trimmed, all else is as it was, and the two maps are new ones with the same entries |
| Governance.CopiedMeans | governance/rule.go:112-138 | what a deep copy is, rule by rule |
| Governance.SortedByPriority | governance/rule.go:101-110 | sorted means smaller priorities first and within a priority smaller IDs |
| Governance.ReplaceWithOwnSnapshot | governance/rule.go:64-110 | replacing with a returned snapshot changes nothing that can be read |
| Governance.EditsNeverReachTheStore | governance/rule.go:112-138 | later edits to the metadata and spec entries of returned rules never reach the store, at any depth of what it reads |
| Governance.IsolatedIff | governance/rule.go:112-138 | of a snapshot the store returns: nothing that is written through it, at any depth, is read through the store, if and only if no metadata or spec map of the stored rules holds a nested map |
| Governance.AllFlatMeans | governance/rule.go:129-136 | flat means that every entry of every map of the rules is a plain value |
| Governance.NestedEditsReachTheStore | governance/rule.go:129-136 | where a stored rule holds a nested map, which is not copied, some write through the returned rules is read through the store |
| Governance.RulesSelectionCommutesWithSort | governance/rule.go:86-110 | filtering then sorting equals sorting then filtering |
| Discovery.NormalizeIdempotent | discovery/types.go:81-94 | normalizing an endpoint twice is normalizing it once |
| Discovery.NormalizeMeans | discovery/types.go:81-94 | what the normal form of an endpoint is: trimmed texts, the protocol in lower case or "http", a positive weight or 100, all else as it was |
| Discovery.SameIdentityIff | discovery/cache.go:268-276 | two endpoints are the same one exactly when instance, name, protocol, host and port of their normal forms agree |
| Discovery.SchemeIsLawful | discovery/cache.go:268-284 | the cache's normalization and identity meet what the cache theory asks |
| Discovery.UpsertReplacesAllIffDistinct | discovery/cache.go:238-284 | every upsert leaves no other endpoint of its identity if and only if the list has no duplicates, which a full replacement does not ensure |
| Discovery.ReplacedTwiceThenUpserted | discovery/cache.go:238-284 | a replacement with an endpoint twice, then an upsert of it: a stale copy stays |
| DiscoveryCache.RemoveInPlace | discovery/cache.go:253-266 | the in-place compaction is exactly the filter, over any array |
| DiscoveryCache.PutInPlace | discovery/cache.go:238-249 | replaces the first element of the key and nothing else |
| DiscoveryCache.AppendTo | discovery/cache.go:249-251 | appending may write into spare capacity or move to a new array |
| DiscoveryCache.CachedResolver.UpsertEndpoint | discovery/cache.go:238-251 | the new state is the upsert of the old one, in place or in a new array |
| DiscoveryCache.CachedResolver.DeleteEndpoint | discovery/cache.go:253-266 | the new state is the delete of the old one, in an array of its own |
| DiscoveryCache.CachedResolver.ReplaceAll | discovery/cache.go:179-194 | a refresh or snapshot replaces everything with normalized copies |
| DiscoveryCache.CachedResolver.Perform | discovery/cache.go:208-236 | each locked section is one step of the cache's state machine |
| DiscoveryCache.CachedResolver.Snapshot | discovery/cache.go:196-206 | returns a fresh copy exactly when there is something and, unless stale data is allowed, it is not dated or not older than the limit |
| DiscoveryCache.CachedResolver.Interfere | discovery/cache.go:179-284 | whatever others commit, lists already handed out never change |
| DiscoveryCache.CachedResolver.Resolve | discovery/cache.go:73-91 | data no older than the limit is served as it is and nothing changes, whatever the base resolver would answer; otherwise the answer is committed and the last look is served; never empty without an error, never a failure while there is something |
| DiscoveryCache.ServesFreshData | discovery/cache.go:57-91 | data older than the limit is served only when the call's own refresh failed, and a failed refresh changes no endpoint |
| CacheModel.RunKeepsReachable | discovery/cache.go:179-284 | in every interleaving all endpoints are normalized and a cache that is not empty has an update time |
| CacheModel.RunRefines | discovery/cache.go:217-284 | while replacements have distinct identities, the list is a map keyed by identity under every interleaving, and stays free of duplicates |
| CacheModel.LastReplacementCounts | discovery/cache.go:179-236 | the list is the fold of the updates since the last full replacement |
| CacheModel.FailureKeepsEndpoints | discovery/cache.go:208-215 | a failure changes neither the endpoints nor their date, then or later |
| CacheModel.ApplyMeans | discovery/cache.go:179-266 | what each locked section does: replace all with normal forms, note an error, write the first element of the identity or append, or drop all of the identity |
| KeyedLists.PutRefines | discovery/cache.go:238-251 | replace-or-append on a list of distinct keys is a map update |
| KeyedLists.RemoveRefines | discovery/cache.go:253-266 | filtering out a key is a map removal |
| FeedModel.RunAgreesIff | discovery/registry_resolver.go:96-115 | after every change of a run the cache agrees, up to order, with recomputing if and only if every change is faithful |
| FeedModel.UpsertAgreesIff | discovery/registry_resolver.go:104-109 | one upsert event keeps the agreement exactly when what the instance contributed, less what the first new endpoint replaces, is what it contributes besides that endpoint |
| FeedModel.DeleteAgreesIff | discovery/registry_resolver.go:104-109 | one delete event keeps it exactly when all the instance contributed has the identity of the endpoint carried |
| FeedModel.SingleUpsertIsFaithfulIff | discovery/registry_resolver.go:104-109 | with at most one endpoint before and after, faithful means that the endpoint that was there is there under its identity |
| FeedModel.RecomputeSameIff | discovery/registry_resolver.go:117-143 | two registries resolve to the same endpoints, up to order, if and only if every instance contributes the same |
| FeedModel.RecomputeOne | discovery/registry_resolver.go:117-143 | recomputing from one instance is what it contributes |
| DiscoveryFeed.EndpointsFromInstances | discovery/registry_resolver.go:117-143 | the nested loops list the conversions of the wanted endpoints of every instance, in order |
| DiscoveryFeed.Convert | discovery/registry_resolver.go:96-115 | an event without type is a snapshot, and of a single instance only the first endpoint that serves the target is forwarded |
| DiscoveryFeed.EndpointsForTarget | discovery/registry_resolver.go:117-143 | an endpoint is returned if and only if some instance has one with the target's protocol up to case and, unless the target or it has none, the target's name up to case; it is the normal form of that endpoint's host, port, path and weight with that instance's ID, zone, labels and metadata |
| DiscoveryFeed.ResolveTarget | discovery/registry_resolver.go:32-45 | the same of resolving, over the instances that match the target's query |
| DiscoveryFeed.QueryMeans | discovery/registry_resolver.go:32-40 | the query of a target: its namespace or "default", service, zone and labels |
| DiscoveryFeed.UpdateOfMeans | discovery/cache.go:217-236 | what the cache makes of an event: an upsert or a delete of its endpoint, nothing without one, and a replacement for any other type |
| DiscoveryFeed.ResolvingIsRecomputing | discovery/registry_resolver.go:32-45 | filtering by the query and converting is recomputing from the registry |
| DiscoveryFeed.SnapshotIsRecomputing | discovery/cache.go:217-236 | a snapshot event leaves exactly what resolving anew yields |
| DiscoveryFeed.WriteIsTold | registry/etcd.go:137-165 | the event of a registry write does to the cache what the feed model says |
| DiscoveryFeed.EventsAgreeIff | discovery/registry_resolver.go:96-142 | fed from a snapshot with the event of every later write, the cache agrees with resolving anew after every write if and only if every write is faithful |
| DiscoveryFeed.SteadyEventsAgree | discovery/registry_resolver.go:96-142 | so it does after every write when instances show at most one endpoint, upserts keep its identity and its match, and deletes carry the version the registry had |
| DiscoveryFeed.SubscribingAgreesIff | registry/etcd.go:130-138 | after subscribing, with any writes between the snapshot and the watch, the cache agrees with the registry if and only if every instance contributes what it did |
| DiscoveryFeed.GapWriteIsMissed | registry/etcd.go:130-138 | an instance with a wanted endpoint that is written in the gap is missing from the cache |
| DiscoveryFeed.OnlyOneEndpointIsForwarded | discovery/registry_resolver.go:104-109 | a new instance is faithful exactly with at most one wanted endpoint, and deleting one of several never is |
| DiscoveryFeed.TargetViewIsSound | discovery/types.go:71-94 | the conversion for any target meets what these results ask |
| FeedRaces.RunIsCoherent | discovery/cache.go:135-194 | from any cache on, in every interleaving of told and silent changes, snapshots read and published, deliveries, and any number of refreshes that read, commit or fail: a cache that is trusted (by an agreeing start, a clean commit or a current snapshot) plus the queued events is the registry |
| FeedRaces.CommitIsCoherentIff | discovery/cache.go:179-194 | committing a read leaves the cache coherent if and only if the queue ends in what the registry has and every key at which the read is behind still has a queued event |
| FeedRaces.CleanRefreshHealsIff | discovery/cache.go:179-194 | in every reachable state, committing a clean refresh (no event newer than its read was delivered, no silent change followed it) restores coherence if and only if the queue ends in what the registry has, which it does when it is empty or all changes since were told |
| FeedRaces.UndisturbedRefreshHeals | discovery/cache.go:179-194 | a refresh of any cache that only told changes overlap is trusted: what it read, with their events delivered, is the registry |
| FeedRaces.OutdatedEventUndoesARefresh | discovery/cache.go:179-266 | a queued event that a silent change has outdated is delivered after the clean refresh that read the change, and undoes it |
| FeedRaces.SnapshotHealsIff | registry/consul.go:149-184 | a published snapshot restores coherence, whatever the state, if and only if it is what the registry still has |
| FeedRaces.OvertakenRefreshLosesAnEvent | discovery/cache.go:179-194 | an event delivered between read and commit is undone, with nothing left to repair it |
| FeedRaces.OlderRefreshCommitsLast | discovery/cache.go:73-91 | of two refreshes under way the older may commit last and take back what the newer one brought |
| FeedRaces.FaithfulChangeIsItsEffect | discovery/registry_resolver.go:96-142 | a faithful change writes or removes one entry of the recomputed map |
| FeedRaces.EventIsItsEffect | discovery/cache.go:217-266 | an event writes or removes the same entry of the cached map |
| FeedSimulation.RunSimulates | discovery/cache.go:135-266 | every run of a list registry, feed and list cache, with told and silent changes, snapshots, deliveries and refreshes, is a run of the map machine on the maps the lists stand for |
| FeedSimulation.ListRunAgrees | discovery/cache.go:135-266 | so in every such run, once the events are delivered, a trusted list cache holds exactly what resolving anew yields, up to order |
| Picker.WeightedRoundRobinPicker.Pick | discovery/picker.go:49-76 | takes one ticket modulo 2^64 and picks the endpoint whose share covers it; with a total that is not positive picks the first and takes none |
| Picker.RoundRobinPicker.Pick | discovery/picker.go:28-34 | takes one ticket and picks by it modulo the length |
| Picker.WrappedTotal | discovery/picker.go:53-60 | the loop computes the 64-bit sum of the effective weights |
| Picker.Find | discovery/picker.go:64-75 | the walk finds the owner of the cursor, never wraps, and never reaches the final return |
| Picker.PickedIff | discovery/picker.go:49-76 | with the total in range, a ticket picks an endpoint exactly when it falls on its share of the cycle |
| Picker.WindowShares | discovery/picker.go:49-76 | of any q full cycles and r more consecutive tickets in which the counter does not wrap, an endpoint gets between q·w + max(0, r - (T - w)) and q·w + min(w, r) |
| Picker.CycleIsExact | discovery/picker.go:49-76 | a full cycle in which the counter does not wrap gives every endpoint exactly its weight |
| Picker.PickCycle | discovery/picker.go:49-76 | as many consecutive picks as the weights add up to, in which the counter does not wrap, return each endpoint exactly as often as its own weight says, and as often as a weight of 100 would when it is not positive |
| Picker.EveryCycleIsExactIff | discovery/picker.go:49-76 | every cycle, those over the wrap included, does so if and only if there is one endpoint or the weights add up to a divisor of 2^64 |
| Picker.WrapFavoursTheFirst | discovery/picker.go:49-76 | of three weights of one, the cycle over the wrap picks the first twice and the last not at all |
| Picker.PlainIsExact | discovery/picker.go:28-34 | q·n plain picks in which the counter does not wrap give each of n endpoints exactly q |
| Picker.EveryTurnIsExactIff | discovery/picker.go:28-34 | every n picks, those over the wrap included, give each exactly one if and only if n is 1 or divides 2^64 |
| Picker.AllArePickedIffInRange | discovery/picker.go:53-72 | every endpoint is picked by some ticket if and only if the weights add up in range |
| Picker.OverflowStarves | discovery/picker.go:53-63 | of weights 2^63 - 1 and 1 every ticket picks the first |
| Picker.InterleavingPicksTheSame | discovery/picker.go:24-76 | in every interleaving of callers, for both pickers, the picks made and pending are those of as many consecutive tickets of the wrapping counter |
| Picker.TimesCountsPicks | discovery/picker.go:24-76 | so once all callers are done, an endpoint was picked as often as its share of the window says, by weight or by turn |
| Instances.Normalize | registry/util.go:16-28 | the in-place loop over the copied endpoints normalizes the instance |
| Instances.NormalizeIdempotent | registry/util.go:16-47 | normalizing endpoints, instances and queries is idempotent |
| Instances.NormalMeans | registry/util.go:16-47 | what the normal forms are: trimmed texts, the default namespace and protocol for blank ones, a positive weight or 100, all else as it was |
| Instances.RulesAreLawful | registry/util.go:141-146 | the adapters' trimming and defaults meet the laws that the theories ask |
| Instances.RulesAre | registry/util.go:16-47 | the adapters trim white space, and blank namespaces and protocols are "default" and "http" |
| Instances.LabelSelectorsMatch | registry/util.go:89-109 | true exactly when every selector's demand is met |
| Instances.DemandMeans | registry/util.go:89-109 | what a selector demands: nothing when it or its key is blank, a label, or a label with the value after the first "=" |
| Instances.MeetsMeans | registry/util.go:98-105 | a demand is met by labels with its key, and its value if it has one |
| Instances.FilterInstances | registry/util.go:111-125 | keeps exactly the instances that match zone and selectors, normalized, in order |
| Instances.FilteredMeans | registry/util.go:111-125 | an instance is kept exactly when the query names no zone or its zone and its labels meet every selector |
| Instances.FilterIdempotent | registry/util.go:111-125 | filtering again changes nothing |
| Labels.PrintLabels | discovery/config.go:215-225 | prints each label once, in the order the map happens to be walked |
| Labels.PrintMeans | discovery/config.go:215-225 | nothing for a blank key, the trimmed key for a blank value, else the trimmed key, "=" and the value as it is |
| Labels.SelectorsMeanLabels | discovery/config.go:215-225 | printed selectors match exactly the instances with every key and every value that is not blank |
| Labels.SelectorsMeanLabelsIff | registry/util.go:89-109 | they do so for all instances if and only if no key has a "="; for labels that want two values of one key, if and only if the selectors do so too |
| LabelText.ConfiguredSelectorsIff | discovery/config.go:215-225 | the same for the framework's own trimming |
| LabelText.ConfiguredSelectorsMatch | discovery/config.go:215-225 | without "=" in a key, the selectors match exactly the instances that have every key that is not blank, trimmed, with the trimmed value where that is not blank |
| Labels.LabelsFromConsulTags | registry/consul.go:274-289 | the loop reads tags left to right, the last one of a key wins |
| Labels.LabelsOfMeans | registry/consul.go:274-289 | what one more tag says: nothing when blank, the value after the first "=", or "true" |
| Labels.ReadBackWhole | registry/consul.go:259-289 | labels of clean keys come back in whatever order the tags are, blank values as "true" |
| Labels.TagsRoundTripIff | registry/consul.go:259-289 | labels come back unchanged if and only if every key is clean and every value is kept |
| LabelText.ConsulTagsIff | registry/consul.go:259-289 | for the framework's own trimming: labels come back unchanged if and only if every key is trimmed, not blank and without "=", and every value is not blank and ends in no white space |
| LabelText.KeptIff | registry/consul.go:264-268 | a value is kept exactly when it is not blank and ends in no white space |
| Consul.Registered | registry/consul.go:71-92 | what is registered: the first endpoint, the labels as tags in any order, the metadata under the reserved keys |
| Consul.ServiceMeans | registry/consul.go:71-92 | what is registered, field by field, and what the metadata holds |
| Consul.ForeignServiceMeans | registry/consul.go:291-319 | a service without the reserved keys reads as one of the namespace asked for, the default protocol, no zone, no path and its whole metadata |
| Consul.ReadsBack | registry/consul.go:291-319 | what any registered instance reads back as |
| Consul.RoundTripIff | registry/consul.go:250-319 | it reads back as it was, but for the TTL, if and only if it has one endpoint named after its protocol, clean labels and no reserved metadata key |
| ConsulNames.ConsulRoundTripIff | registry/consul.go:250-319 | the same for the adapter's own keys and trimming |
| ConsulNames.NamesAre | registry/consul.go:250-257 | the reserved keys |
| Nacos.NacosMetadata | registry/nacos.go:209-223 | own fields lie over the metadata and labels over both, whatever order the labels are walked in |
| Nacos.MetadataMeans | registry/nacos.go:209-223 | a label is found under its prefixed name, an own field under its key, the weight as a positive number or 100, and all else is the instance's metadata |
| Nacos.SplitMetadata | registry/nacos.go:237-258 | the loop that deletes while it walks separates labels and rest exactly |
| Nacos.MetadataRoundTripIff | registry/nacos.go:209-258 | labels and metadata come back if and only if the metadata uses no reserved key and no label's prefix |
| Nacos.OwnFieldsReadBack | registry/nacos.go:209-258 | namespace, zone, ID, endpoint name, protocol and path come back from any record |
| Nacos.RecordIdMeans | registry/nacos.go:229-235 | a record belongs to the ID in its metadata, else the server's, else the address and port |
| Nacos.ForeignRecordMeans | registry/nacos.go:225-274 | a record without the reserved keys reads as one of the namespace asked for, the default protocol, no zone, no labels and its whole metadata |
| Nacos.Discover | registry/nacos.go:72-95 | the records of registered instances, in any order, give back exactly these instances without TTL, each with its endpoints in the order its records arrived and none lost |
| NacosNames.DiscoverRegistered | registry/nacos.go:225-280 | the same with the adapter's own keys, trimming and service names |
| NacosNames.NamesAreApart | registry/nacos.go:209-223 | the reserved keys differ from each other and from every label's key |
| NacosNames.NamesAre | registry/nacos.go:209-223 | the reserved keys and the prefix of labels |
| NacosNames.ServiceNameRoundTripIff | registry/nacos.go:282-288 | a service comes back from its qualified name if and only if no "@@" starts after the separator's first "@" |
| NacosNames.PlainNamesAreKept | registry/nacos.go:282-288 | a name without "@@" or ending in it stays as it is |
| Regroup.GroupRecords | registry/nacos.go:225-275 | the map loop holds, for every ID seen, the first record's fields with all endpoints so far; records of a blank ID are not grouped |
| Regroup.GroupMeans | registry/nacos.go:225-275 | an ID's first record gives the fields and one endpoint, each later one adds its endpoint; of a blank ID the last record alone counts |
| Regroup.InstancesOf | registry/nacos.go:275-279 | lists every group once, in any order |
| Regroup.RegroupingRestores | registry/nacos.go:225-280 | for any permutation of the flattened records every instance is put together again |
| Regroup.NothingElseComesOut | registry/nacos.go:225-280 | and no other instance comes out |
| EtcdKeys.RegistryPrefixMeans | registry/util.go:244-251 | the configured prefix, trimmed, with one slash in front and none behind, and "/stellar/registry" when nothing is left |
| EtcdKeys.KeyMeans | registry/util.go:244-260 | a key is prefix, namespace, service and ID with slashes between, and a service's prefix ends in a slash |
| EtcdKeys.SelectedByItsServiceOnlyIff | registry/util.go:244-260 | an instance's key has the prefix of exactly its own namespace and service, whatever is asked for, if and only if no name has a slash |
| EtcdKeys.SlashesMislead | registry/util.go:244-260 | a slash puts the instance under another service's prefix |
| EtcdKeys.KeyIsUniqueIff | registry/util.go:244-251 | a key belongs to one namespace, service and ID only, if and only if none of them has a slash |
| EtcdKeys.LastSegmentIsTheIdIff | registry/etcd.go:203-213 | the last segment of a key is the ID if and only if the ID has no slash |
| EtcdKeys.QuerySelectsItsService | registry/etcd.go:108-123 | with the configured prefix and normalized names, the prefix query selects exactly the service's instances and a deleted key tells the ID |
| WatchQueue.RunKeepsInv | registry/watcher.go:15-59 | in every interleaving the accepted events are the received then the buffered ones, in order, at most 128 buffered; cancel and close happen at most once each |
| WatchQueue.NextMeans | registry/watcher.go:15-59 | a receive takes the first buffered event, a send appends one to an open buffer of fewer than 128, and nothing else changes what is buffered or received; what ends the context and closes the channel |
| WatchQueue.NothingIsAcceptedAfterClosing | registry/watcher.go:36-59 | after closing nothing is accepted, and an emptied buffer means all accepted events were received |
| WatchQueue.EveryPublishReturnsOnce | registry/watcher.go:47-59 | every publish returns at most once, panics included, and none is lost |
| WatchQueue.PublishMayStillSucceedAfterClose | registry/watcher.go:47-59 | a publish may still succeed after Close, until the channel is closed |
| WatchQueue.ChannelWatcher.Publish | registry/watcher.go:47-59 | true exactly for a send, which appends the event; false on a closed channel or an ended context; blocked only while 128 events are buffered and neither case is ready |
| WatchQueue.ChannelWatcher.Close | registry/watcher.go:27-34 | cancels the first time only |
| WatchQueue.ChannelWatcher.CloseEvents | registry/watcher.go:36-45 | cancels, then closes, each the first time only |
| Text.ItoaInjective | internal/rollingfile/writer.go:123-127 | different numbers print differently |
| Text.ItoaMeans | internal/rollingfile/writer.go:123-127 | a number prints as its decimal digits without leading zeros |
| Text.TrimMeans | registry/util.go:141-146 | trimming takes white space off both ends, and all of it |
| Text.ToLowerMeans | discovery/types.go:71-79 | "A" to "Z" become "a" to "z", every other character stays |
| Text.EqualFoldMeans | discovery/registry_resolver.go:122-127 | equal up to case means character by character the same letter in either case |
| Text.HasPrefixMeans | registry/nacos.go:238-242 | a prefix is what something follows |

## Left out

- `Execute`'s accounting around the handler (observability, error conversion) and the guards against nil handlers and endpoints: they wrap the result without choosing it.
- `Recovery` and panics inside interceptors, middlewares and components: a handler is a total function here.
- The guard of `joinPath` against an empty result: the slash it joins with rules that out.
- HTTP, gRPC, Redis, SQL and registry SDK calls, leases, heartbeats, JSON encoding: foreign I/O.
- Real time and the scheduling of the refresh and watch loops: a clock parameter and arbitrary interleavings stand for them; liveness is not stated.
- `RandomPicker`, request IDs, health checks, configuration loading and merging: easy members or a library's work.
- Unicode white space and case folding: ASCII only.
- Nil and empty maps are one value, except in `Governance`, where a rule's map may be absent.
- Values in a governance rule's spec are texts or references to maps; slices and pointers to structs are not told apart from maps.
- `CachedResolver.Resolve` takes a target and ignores it, as the source does; the parameter is dropped.
- RollingFile.Writer.New: the first open may fail after the directory was made; directories are not part of the disk here.
- RollingFile.Writer.Write: sizes are unbounded integers; a file of more than 2^63 bytes is not modelled.
- Regroup.InstancesOf: the source's map loop order is any order, so the list is known up to order only.
- Nacos.Discover: a record's weight passes through a floating-point number in the source, exact up to 2^53; here it is an integer. Port and weight of a registered endpoint are taken as validated.
- Picker.WindowShares: windows in which the counter wraps are not bounded one by one; `Picker.EveryCycleIsExactIff` says when they are exact.
- Lifecycle.App.Stop: components that register hooks while they stop are not modelled.
- Lifecycle.World.Begin: contexts, timeouts and logging are not modelled; a hook without a function counts as a success, as in the source.
- FeedSimulation.ListRunAgrees: told changes are faithful to their events and all lists have distinct identities; `DiscoveryFeed.EventsAgreeIff` and `Discovery.UpsertReplacesAllIffDistinct` say what happens otherwise.
- WatchQueue.EveryPublishReturnsOnce: does not say that a publish returns in the end, because scheduling is not modelled.
