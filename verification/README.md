# Configuration engine: model and proofs

A Dafny model of the configuration engine of the repository, and of three small kernels beside it.
`dafny verify dfyconfig.toml` verifies the whole project.

- **Paths** (`Path`, `PathObject`, `PathCodec`, `PathParsers`, `PathTexts`, `Topics`). A configuration path is a scope and
  a route. It is printed as a fully qualified text, parsed by two text parsers, and has a binary form.
- **Route trie** (`RouteKey`, `TrieShape`, `RouteTrie`, `RouteMap`, `RouteHistory`, `Pipeline`). A mutable tree of
  slash segments holds defaults, write permissions and observers. It is a class over linked nodes, proved to be
  a finite map from keys to field metadata; `RouteMap` is that map.
- **Service** (`ServiceSpec`, `Service`, `ServiceProps`, `ServiceLaws`, `ScopedDefaults`, `AnyDefaults`). Set and Get
  over two storage levels with observers before and after, and the scoped reader that falls back from store to
  website to default.
- **Publish and subscribe** (`PubSub`, `PubSubProtocol`, `PubSubRuns`, `PubSubClosing`). The registry as a class; senders, closers,
  subscribers and the publisher as interleaved steps over unbuffered channels.
- **Elements** (`KeyedMerge`, `Elements`, `ElementIDs`, `ElementSearch`, `ElementObjects`, `SectionObjects`). The
  three-level merge of sections, groups and fields, on values and on the mutable objects.
- **Kernels** (`NumberFormat`, `NumberPrint`, `NumberUse`, `TagIndex`, `IfNull`, `IfNullText`). The decimal printer, the
  packed dictionary index and the nested IFNULL generator.

`Scope` and `Decimal` model the scope packing and base-10 printing the others rely on.

## How to read it

A Go string is a sequence of bytes, one `char` each. A byte slice that may be nil is `Option<string>`,
because nil and empty differ. Go's error values are told apart by kind only. Where Go code would panic on
a slice bound, the model returns `SliceBounds`. The Unicode tables behind route validation are the
parameter `Runes`; its `Sane` says what is used of them. Observers are total functions that may fail.
Storage failures are the parameter `Faults`. Receivers that fail are given by a predicate on ids.

## Findings

Where a property fails, one lemma shows it at an input and another gives the exact condition.

- `Set` never touches Level1, although the comment of `Flush` (config/service.go:249-250) speaks of an
  automatic flush. `StaleRead`: Set a, Get, Set b, Get delivers a. `SetIsVisibleIff`: Get delivers the new
  value exactly if no value that looks different through the observers is cached.
- A stored value does not always beat a default: a default on a leaf entry is handed out already at the
  store scope. `DefaultHidesStored` is such a state, `StoredComesFirstIff` the condition for any
  metadata without observers, `StoredBeatsDefaultIff` for separate routes with scoped defaults.
- `Parse` and `UnmarshalText` do not accept the same ids. `UnmarshalText` also takes an empty id, signs,
  text behind a negative id, and ids that wrap around modulo 2^64. `ParsersAgreeIff` gives the condition
  for every id, `DigitsPartIff` for ids of digits, `PartingTexts` four texts.
- Two concurrent `Close` calls, and a send that is caught between its test and its send, can panic.
  `Shutdown` proves safety without these two races, `DisorderPanics` that each of them leads to a panic,
  `TwoClosersRace` and `SenderRace` are runs from the start. `CloseCompletesIff`: a Close can still
  complete with no panic and no sender left behind exactly if it is not about to close the message channel
  with senders pending. `CanGetStuck` is a run that gets there; `LeftBehindPanics`: from there Close can
  return nil only with a panic behind it or ahead.
- Merging does not remove a field id that is repeated inside one given group, and it stores a field
  without id twice: `RepeatedFieldStays`, `UnnamedFieldDoubles`. `MergedUniqueIff` gives the condition for
  unique ids at every level, for all inputs.
- A format for negative numbers loses the sign of a number whose integer part is 0: `MinusHalf`,
  `SignLostIff`. With precision 0 the plain `-` is not replaced by the format's own minus sign:
  `PlainMinusStays`, `PlainMinusIff`. The smallest int64 shows a minus sign even in a format for negative
  numbers that has none, and no other number does: `LayoutOfSmallest`, `SmallestShowsMinusIff`.
- The comment of `FmtNumber` (i18n/number.go:60-64) says a short precision is adjusted; the code returns
  an error: `ShortPrecisionIsRejected`, `RejectedIff`.
- `Subscribe` lists topics without a scope as valid (config/service_pubsub.go:93-95). No such topic matches any
  message: `ServedTopicsAreScoped`; `ServedTopics` says which do.

## Model

| member | source | states |
|---|---|---|
| Decimal.ValueOfPrint | config/path.go:322-344 | reading a printed id restores it |
| Decimal.PrintNotation | config/path.go:322-344 | decimal notation: one digit for a number below ten, one more digit goes behind |
| Decimal.PrintLength | i18n/number.go:546-553 | a number prints in at most k digits exactly if it is below 10^k |
| Decimal.ValueOfPadded | i18n/number.go:310-313 | zero padding keeps the value |
| Scope.Unpack | store/scope/typeid.go:140-156 | the type and id that make up the packed value, or Absent and -1 exactly if the id field is too large |
| Scope.PackRoundTrip | store/scope/typeid.go:233-241 | packing a type and an id loses nothing exactly for the stated ids |
| Scope.UnpackRoundTrip | store/scope/typeid.go:140-156 | a valid packed scope is restored by packing its parts |
| Scope.FromStringOfStr | store/scope/type.go:172-180 | a scope's text is known and read back as website, store or default |
| RouteKey.SegmentRoute | config/route_trie.go:107-116 | the text from a position up to the next slash, and where that slash is |
| RouteKey.BuildTrieKey | config/route_trie.go:138-167 | every key built is canonical |
| RouteKey.SegmentStep | config/route_trie.go:107-116 | the calls of segmentRoute deliver the segments one after the other |
| RouteKey.SegmentsLossless | config/route_trie.go:107-116 | the segments concatenated are the key |
| RouteKey.SegmentsWellFormed | config/route_trie.go:107-116 | each segment of a canonical key has its only slash in front |
| RouteKey.SegmentsInjective | config/route_trie.go:107-116 | keys with the same segments are equal |
| RouteKey.SegmentsOfConcat | config/route_trie.go:107-116 | cutting a text that was put together from segments gives these segments |
| RouteKey.SegmentsOfJoin | config/route_trie.go:138-167 | joining keys joins their segments |
| RouteKey.ScopedKeySegments | config/route_trie.go:138-167 | a website or store scope adds exactly two segments to the route's key |
| RouteKey.BrokenScopeSegments | config/route_trie.go:138-167 | a website or store scope with an id out of range adds one empty segment |
| RouteKey.ScopeSegmentsInjective | store/scope/typeid.go:98-105 | different scopes give different segments |
| Path.NthSlashShape | config/path.go:553-588 | the first n levels of a text hold n-1 slashes and end before the n-th |
| PathObject.PathRef.Separators | config/path.go:618-625 | counts the slashes of the route |
| PathObject.PathRef.CheckValid | config/path.go:414-459 | the loop and branches of IsValid give the verdict of the specification |
| PathObject.PathRef.AppendFQ | config/path.go:322-344 | appends the fully qualified text, or nothing and the validation error |
| PathObject.PathRef.ResetFields | config/path.go:477-483 | clears everything but the environment suffix |
| PathObject.PathRef.Parse | config/path.go:355-389 | path and error after parsing, for every text |
| PathObject.PathRef.UnmarshalText | config/path.go:497-521 | path and error after unmarshalling a text |
| PathObject.PathRef.UnmarshalBytes | config/path.go:538-546 | path and error after unmarshalling bytes |
| PathObject.PathRef.Level | config/path.go:553-588 | the first levels of the fully qualified text |
| PathObject.TextLevel | config/path.go:566-588 | the scanning loop finds the same cut |
| PathCodec.StripIsExact | config/path.go:275-297 | stripping the suffix restores the text exactly if what is cut was printed |
| PathCodec.ParseStrippedExactly | config/path.go:355-389 | from a shortened text the path comes back exactly if the text is header and route |
| PathCodec.ParseUndoesFQ | config/path.go:312-389 | Parse undoes FQ exactly if the receiver's environment cuts what the path printed; other scopes become default/0 |
| PathCodec.ParseUndoesFQSameEnvironment | config/path.go:275-389 | Parse undoes FQ without suffix, and with the same enabled suffix on both sides |
| PathCodec.FQInjective | config/path.go:312-344 | two unsuffixed paths print alike exactly if route and printed scope agree |
| PathCodec.LittleEndianRoundTrip | config/path.go:524-535 | little-endian bytes restore the number |
| PathCodec.BinaryRoundTrip | config/path.go:524-546 | UnmarshalBinary undoes MarshalBinary, scope id included, exactly if the environment cuts what was printed |
| PathParsers.AccumulatorClosed | util/byteconv/int.go:49-61 | the digit loop yields the number modulo 2^64, or a range error exactly if a number read on the way is above the limit |
| PathParsers.ParseIntBytesIs | util/byteconv/int.go:33-71 | byteconv.ParseInt without its loop, for every text |
| PathParsers.ReadInRange | util/byteconv/int.go:33-71 | both integer parsers give the number for digits that fit an int64 |
| PathParsers.ParseTakes | config/path.go:355-389 | Parse takes a fully qualified text exactly if its id is in range and its route valid |
| PathParsers.UnmarshalTakes | config/path.go:497-521 | UnmarshalText takes it exactly if byteconv.ParseInt reads the id and the route is valid |
| PathParsers.ParsersAgreeIff | config/path.go:355-521 | same verdict exactly if the id is in range, or not readable at all, or the route is invalid; on success the same path; for every id and suffix |
| PathParsers.ParsersAgree | config/path.go:355-521 | same verdict and path for int64 ids in ASCII digits |
| PathParsers.DigitsPartIff | util/byteconv/int.go:33-71 | on digits they part exactly for a valid route and the empty id, or an id beyond int64 that wraps around |
| PathParsers.WrappedNumber | util/byteconv/int.go:49-61 | 2^64+1 is read as 1 |
| PathParsers.PartingTexts | config/path.go:355-521 | four texts that Parse rejects and UnmarshalText takes |
| PathTexts.ValidIff | config/path.go:414-459 | a path is valid exactly if its route has two slashes, eight runes, legal runes only, something but slashes and no scope name in front, and its scope is one of the five with an id in range; the error of the others |
| PathTexts.RouteIff | config/path.go:414-459 | the valid routes at the default scope, by their characters |
| PathTexts.ValidatedIff | config/path.go:414-459 | a route marked as validated is checked for its levels and length only |
| PathTexts.ParseBareRoute | config/path.go:355-389 | a text whose second part is not digits is a route at the default scope, taken exactly if that route is valid |
| PathTexts.ParseQualified | config/path.go:355-389 | otherwise: NotValid for an id out of range, NotSupported for an unknown scope, else path and verdict by the rest |
| PathTexts.ParseShort | config/path.go:355-389 | NotValid with fewer than two slashes |
| PathTexts.UnmarshalRefuses | config/path.go:497-521 | which texts UnmarshalText refuses, with which error, and what is left in the path |
| PathTexts.FQText | config/path.go:312-344 | the exact fully qualified text of a store, website or default path |
| PathTexts.BinaryText | config/path.go:524-535 | the exact bytes of a path: packed scope, lowest byte first, route, environment |
| PathTexts.BinaryRead | config/path.go:538-546 | TooShort below thirteen bytes, else path and verdict by the bytes |
| PathTexts.LevelMeans | config/path.go:553-588 | the text of each level, for every depth |
| PathTexts.TooLargeIsRefused | util/byteconv/int.go:49-61 | byteconv.ParseInt refuses every id whose digits but the last are above the limit |
| RouteMap.RunIsLocal | config/route_trie.go:222-330 | what a run leaves under a key depends on the operations on that key alone |
| RouteMap.RunOrderIrrelevant | config/route_trie.go:222-330 | runs that agree on every single key build the same map |
| RouteMap.ProcessUncovered | config/route_trie.go:188-220 | beyond what is registered the pipeline changes nothing, so its early exit skips nothing |
| RouteHistory.ObserversAfter | config/route_trie.go:241-330 | after any run, each of the four observer lists under a key is what the operations on that key brought for it, in order, since one last dropped it: appended, never replaced |
| RouteHistory.EntryAfter | config/route_trie.go:241-330 | after any run there is an entry exactly if something was registered since the last Delete; its metadata are those put last |
| RouteHistory.ResultsMean | config/route_trie.go:238-330 | the boolean each operation of a run returns |
| RouteHistory.TargetMeans | config/route_trie.go:138-167 | the key an operation addresses, by its route and scope |
| TrieShape.AddLeafKeeps | config/route_trie.go:222-236 | adding an empty leaf keeps the tree well formed and its entries |
| TrieShape.CutLeafKeeps | config/route_trie.go:317-328 | cutting an empty leaf keeps all entries and moves the hole to its parent |
| TrieShape.SetMetaKeeps | config/route_trie.go:241-271 | writing an entry closes the hole and changes only that entry |
| TrieShape.ClearMetaKeeps | config/route_trie.go:299-316 | clearing removes only that entry and leaves at most one hole |
| TrieShape.DropEventsKeeps | config/route_trie.go:276-294 | dropping observers keeps the tree pruned and touches one entry |
| TrieShape.EntryBelow | config/route_trie.go:299-330 | in a pruned tree every node leads down to an entry |
| TrieShape.NodeIffCovered | config/route_trie.go:276-330 | a node exists for a key exactly if the key is a prefix of a registered one |
| TrieShape.LeafIffNoneBelow | config/route_trie.go:208-212 | a node has no children exactly if no registered key lies below |
| RouteTrie.Trie.constructor | config/route_trie.go:132-134 | the new trie is the empty map |
| RouteTrie.Trie.Get | config/route_trie.go:171-184 | map lookup with the zero metadata as default |
| RouteTrie.Trie.GetNode | config/route_trie.go:222-236 | finds or creates the node of a key without changing the map |
| RouteTrie.Trie.PutEvent | config/route_trie.go:241-252 | appends an observer at one key; returns whether the key was new |
| RouteTrie.Trie.PutMeta | config/route_trie.go:258-271 | replaces one entry, appending its observers; returns whether the key was new |
| RouteTrie.Trie.DeleteEvent | config/route_trie.go:276-294 | drops one key's observers; true exactly if the key is a prefix of a registered one |
| RouteTrie.Trie.Record | config/route_trie.go:299-312 | collects the nodes on the way to a key |
| RouteTrie.Trie.Prune | config/route_trie.go:317-328 | the backward loop keeps every entry and leaves the tree pruned |
| RouteTrie.Trie.Delete | config/route_trie.go:299-330 | removes one key; true exactly if it is a prefix of a registered one |
| RouteTrie.Trie.VisitNode | config/route_trie.go:200-212 | permission check, observers and default of one prefix |
| RouteTrie.Trie.Process | config/route_trie.go:188-220 | the pipeline is the left fold over all prefixes of the key, shortest first |
| RouteTrie.Trie.Walk | config/route_trie.go:336-359 | calls the walker at most once per key and stops at an error; without error exactly all entries are visited |
| RouteTrie.Dispatch | config/route_trie.go:87-98 | each observer gets the previous one's data |
| RouteTrie.Replay | config/route_trie.go:222-330 | every run of operations on a new trie leaves the map, and returns the results, of the specification |
| Pipeline.DispatchSum | config/route_trie.go:87-98 | dispatching two lists is dispatching their concatenation |
| Pipeline.DispatchIsChain | config/route_trie.go:87-98 | dispatch is a chain of data, each made from the one before by the next observer; the first failing observer gives the error |
| Pipeline.ChainByName | config/route_trie.go:204-206 | each event runs the observer lists of its own name, shortest prefix first |
| Pipeline.PipelineIsDispatch | config/route_trie.go:188-220 | without defaults the pipeline fails if a prefix forbids the write, else runs all prefixes' observers as one list |
| Pipeline.FirstForbidding | config/route_trie.go:200-206 | at the first forbidding prefix the error is NotAllowed, unless an observer above it fails first |
| Service.ConfigService.RegisterObserver | config/service.go:283-293 | adds the observer at the route; OutOfRange for an unknown event, nothing for a nil observer |
| Service.ConfigService.DeregisterObserver | config/service.go:297-307 | drops the observers at the route; OutOfRange for an unknown event |
| Service.ConfigService.Set | config/service.go:321-357 | state and error of Set, error paths included |
| Service.ConfigService.Get | config/service.go:380-445 | state and value of Get, error paths included |
| Service.ConfigService.ScopedGet | config/service.go:576-604 | the first found-or-error result along the allowed scopes |
| ServiceProps.SetAllOrNothing | config/service.go:321-357 | Set changes nothing on any failure and returns its error, else exactly one Level2 entry, and sends one message if pub/sub is open |
| ServiceProps.GetIsHeld | config/service.go:380-445 | Get passes the held value through the after-get observers, tells where it was found and leaves it, as held, in Level1 |
| ServiceProps.FirstHitIsMostSpecific | config/service.go:576-604 | without defaults and failures the most specific scope holding a value wins |
| ServiceProps.ScopeOrder | config/service.go:532-604 | the scopes asked for each restriction |
| ServiceProps.Level1OnlyGrows | config/service.go:406-444 | over any run a Level1 entry never changes |
| ServiceProps.Level1ComesFromLevel2 | config/service.go:406-444 | every new Level1 entry is a value Level2 held earlier for that path |
| ServiceProps.HeldIsStable | config/service.go:349-444 | without a Set on a path the held value stays |
| ServiceProps.GetDependsOnHeld | config/service.go:380-445 | the data depend on the configuration and the held value alone |
| ServiceProps.GetIsRepeatable | config/service.go:406-444 | two Gets without a Set on the path in between give the same data |
| ServiceProps.SetIsVisibleIff | config/service.go:321-445 | after a Set, Get delivers the new value exactly if Level1 has not cached one that looks different through the after-get observers |
| ServiceProps.SeenUnobserved | config/route_trie.go:87-98 | without observers a value looks like itself |
| ServiceProps.SetIsHeldIff | config/service.go:349-357 | the storage levels hold the new value exactly if no other one is cached |
| ServiceProps.StaleRead | config/service.go:321-445 | Set a, Get, Set b, Get on a new service delivers a |
| ServiceLaws.SetPermission | config/route_trie.go:200-202 | Set is refused with NotAllowed exactly if the entry of some prefix names permitted scopes and the path's scope is not among them; otherwise the value is stored |
| ServiceLaws.PathSegments | config/path.go:635-645 | the trie is asked under route, environment and scope, in this order |
| ServiceLaws.KeyMeans | config/path.go:628-632 | every storage key is the scope and the route, with the service's environment behind it if the path wants one |
| ServiceLaws.SetStores | config/service.go:321-357 | the exact Level2 after a Set, keys written out |
| ServiceLaws.GetReads | config/service.go:380-445 | Get delivers what is held under that key |
| ServiceLaws.EnvironmentsApart | config/path.go:628-632 | a value set for one environment is delivered there and changes nothing for plain paths or other environments |
| ServiceLaws.SetObserved | config/service.go:283-357 | what an observer registered by event number at a route or above sees and decides in a Set |
| ServiceLaws.GetObserved | config/service.go:283-445 | the same for a Get |
| ServiceLaws.ObserverBeforeDefault | config/route_trie.go:204-212 | a default steps in only if the after-get observer leaves the result empty |
| ServiceLaws.GetFails | config/service.go:406-444 | which storage failure Get reports, what it still delivers, and that the state stays |
| ServiceLaws.StorageErrorWins | config/service.go:398-412 | with any metadata, the storage's error is reported even if an after-get observer fails too |
| ServiceLaws.FallbackStops | config/service.go:576-604 | the scoped reader stops at the first scope with a value or a storage failure |
| ScopedDefaults.ProcessFindsDefault | config/route_trie.go:188-220 | which default the pipeline hands out for one scope of a route |
| ScopedDefaults.GetFindsDefault | config/service.go:380-445 | reading one scope gives the stored value, else the default handed out there |
| ScopedDefaults.FirstHitResolves | config/service.go:576-604 | with empty storage the first default along the scopes is delivered |
| ScopedDefaults.StoredBeatsDefaultIff | config/service.go:576-604 | a stored value is delivered exactly if no earlier scope hands out a default |
| ScopedDefaults.DefaultHidesStored | config/route_trie.go:208-212 | a state whose stored value loses to a default |
| ScopedDefaults.DefaultsResolve | config/service.go:576-604 | unrestricted: the store's default, else the website's, else the route's own |
| AnyDefaults.OfferedIsShortest | config/route_trie.go:188-220 | the default handed out is that of the shortest prefix that has one and nothing registered below it, or has one and the scope is default or unset; none exactly if there is no such prefix |
| AnyDefaults.ProcessOffers | config/route_trie.go:188-220 | the pipeline hands out that default, for any metadata without observers |
| AnyDefaults.GetOffers | config/service.go:380-445 | reading one path gives the stored value, else that default |
| AnyDefaults.FirstHitIsSource | config/service.go:576-604 | the scoped reader delivers what the first scope with a stored value or a default has, the stored value if it has both |
| AnyDefaults.StoredComesFirstIff | config/service.go:576-604 | the first stored value along the scopes is delivered exactly if no scope asked before it is handed a default |
| Topics.FQIsQualified | config/path.go:312-344 | every published text has at least four slashes |
| Topics.TopicsDiffer | config/service_pubsub.go:156-160 | the five topics of a message differ |
| Topics.ServedTopics | config/service_pubsub.go:156-160 | a topic is served exactly if it is the whole path or ends before one of its first four slashes |
| Topics.ServedTopicsAreScoped | config/service_pubsub.go:87-95 | a served topic is a scope name or starts with one and a slash |
| PubSub.SendMsgs | config/service_pubsub.go:188-198 | each subscriber gets the message once; the failing ones are collected |
| PubSub.Registry.Subscribe | config/service_pubsub.go:96-110 | a new id for this receiver under one topic; an empty topic is rejected |
| PubSub.Registry.Unsubscribe | config/service_pubsub.go:114-128 | removes just that id and a topic that becomes empty |
| PubSub.Registry.ReadMapAndSend | config/service_pubsub.go:174-186 | one round reaches exactly the subscribers of one topic |
| PubSub.Registry.Deliver | config/service_pubsub.go:155-160 | the five rounds reach every served subscriber exactly once |
| PubSub.Registry.Evict | config/service_pubsub.go:162-169 | removes exactly the listed ids |
| PubSub.Registry.Publish | config/service_pubsub.go:147-170 | the message reaches every served subscriber once; exactly those that got it and failed are gone |
| PubSubProtocol.StepKeepsDelivery | config/service_pubsub.go:96-172 | every step keeps the delivery invariant |
| PubSubProtocol.DeliveryOverRuns | config/service_pubsub.go:96-172 | the invariant holds over every run |
| PubSubProtocol.AtMostOnce | config/service_pubsub.go:140-198 | over every run: at most one delivery per message and subscription, only to served topics; ids are unique for ever |
| PubSubRuns.Delivered | config/service_pubsub.go:140-198 | over every run: a message that was taken has, once handled, reached exactly once every subscription to one of its five topics that existed then and was not given up since |
| PubSubRuns.DeliveredByClose | config/service_pubsub.go:71-198 | when Close returns nil in an orderly run, every message taken before has reached them |
| PubSubRuns.SubscriberHears | config/service_pubsub.go:96-198 | whoever subscribes to a topic gets every message serving it from then on, until they give it up or fail |
| PubSubRuns.UnsubscribedHearsNothing | config/service_pubsub.go:114-128 | after Unsubscribe nothing new is delivered to that id |
| PubSubRuns.CanHear | config/service_pubsub.go:96-198 | for every message and each of its topics, a run in which a subscriber gets it |
| PubSubRuns.OnlyServed | config/service_pubsub.go:174-186 | a subscription only ever gets messages its topic serves |
| PubSubRuns.GoneForEver | config/service_pubsub.go:96-128 | who has left gets nothing any more, and the id never comes back |
| PubSubRuns.FailedIsRemoved | config/service_pubsub.go:162-169 | a receiver that failed is gone once its message is handled |
| PubSubRuns.OthersStay | config/service_pubsub.go:162-169 | a subscription ends only because it was given up or its receiver failed |
| PubSubProtocol.OrderlyStepIsSafe | config/service_pubsub.go:71-172 | a step outside the two races keeps the shutdown invariant |
| PubSubProtocol.OrderlyRunsAreSafe | config/service_pubsub.go:71-172 | so does every run of such steps |
| PubSubProtocol.Shutdown | config/service_pubsub.go:71-172 | nothing panics; one Close returns nil, after the publisher left, done with all accepted messages; later ones report AlreadyClosed |
| PubSubProtocol.FinishMessage | config/service_pubsub.go:147-170 | a running publisher can always finish its message and return to select |
| PubSubProtocol.TwoClosersPanic | config/service_pubsub.go:71-85 | two Close calls past the test can end in a panic |
| PubSubProtocol.DisorderPanics | config/service_pubsub.go:71-137 | leaving an orderly run by either race has a continuation that panics |
| PubSubProtocol.TwoClosersRace | config/service_pubsub.go:71-85 | a concrete run from the start that panics |
| PubSubProtocol.SenderRace | config/service_pubsub.go:71-137 | a concrete run in which a pending send panics |
| PubSubClosing.StaysStuck | config/service_pubsub.go:71-172 | a Close about to close the message channel with senders pending stays there over every orderly run |
| PubSubClosing.StaysDoomed | config/service_pubsub.go:71-172 | over any steps, orderly or not: once the publisher has left for good, pending senders stay pending, and that Close gets on only by closing their channel |
| PubSubClosing.Drained | config/service_pubsub.go:131-172 | while the publisher runs, all pending senders can hand over their messages |
| PubSubClosing.CloseCompletesIff | config/service_pubsub.go:71-172 | from every state of an orderly run, Close can return nil with no panic and no sender left behind, by any steps, exactly if it is not stuck so; by orderly steps exactly then, too |
| PubSubClosing.LeftBehindPanics | config/service_pubsub.go:71-137 | however a stuck Close comes to return nil, something has panicked or a pending send would panic next |
| PubSubClosing.CanGetStuck | config/service_pubsub.go:71-137 | an orderly run that gets there |
| KeyedMerge.IndexFrom | config/elements.go:199-206 | the search loop finds the first element with the id |
| KeyedMerge.MergeAt | config/elements.go:157-193 | after a merge an id holds what was there, having absorbed exactly the merged elements of that id, in order |
| KeyedMerge.PlacesStay | config/elements.go:167-193 | what is stored keeps its place in a merge |
| KeyedMerge.MergedOrder | config/elements.go:167-193 | new ids are stored behind the old ones, in the order in which they first come |
| KeyedMerge.MergeUnique | config/elements.go:415-446 | a merge of elements whose ids can be found neither introduces nor repairs repeated ids |
| KeyedMerge.UnnamedPileUp | config/elements.go:403-446 | where an empty id cannot be found, every merged element without id is stored once more |
| KeyedMerge.MergeUniqueIff | config/elements.go:157-193 | for all elements: ids are unique afterwards exactly if they were before and, where an empty id cannot be found, at most one element without id is stored or merged |
| Elements.SelfMerge | config/elements.go:422-441 | merging a new group into itself folds fields of equal id |
| Elements.FoldedGroups | config/elements.go:415-446 | a field of merged groups is the fold of all fields given with its id |
| Elements.FoldedSections | config/elements.go:157-193 | a group of merged sections is the fold of all groups given with its id |
| Elements.MergedField | config/elements.go:157-193 | a merged field is the old one updated by exactly the fields given with its path, in order |
| Elements.LastNonEmptyWins | config/elements.go:598-625 | every attribute of a merged field is its last non-empty input value; flags: the last; storage route: the first |
| Elements.LastNonEmptyGroupWins | config/elements.go:422-446 | the same for groups; links: the first |
| Elements.LastNonEmptySectionWins | config/elements.go:167-193 | the same for sections |
| Elements.MergedPaths | config/elements.go:157-193 | the paths after a merge are exactly those before and those merged |
| Elements.MergedUnique | config/elements.go:157-193 | merging named sections with unique field ids per group leaves ids unique at every level |
| Elements.UniqueExactlyIf | config/elements.go:415-446 | merging sections whose groups and fields all have ids: section and group ids are unique, field ids exactly if the first group given for each path has unique ones |
| Elements.RepeatedFieldStays | config/elements.go:422-441 | a concrete input whose repeated field id survives |
| ElementIDs.FoldedUnnamed | config/elements.go:422-446 | storing a group doubles its fields without id, merging one adds them |
| ElementIDs.FoldedUniqueIff | config/elements.go:422-446 | groups given for one path leave unique field ids exactly if the first has unique ids and no field without one, and the others together at most one such field |
| ElementIDs.SectionUniqueIff | config/elements.go:167-193 | the same for the groups and fields of one section: in addition at most one group without id |
| ElementIDs.MergedUniqueIff | config/elements.go:157-193 | for all sections given: merged ids are unique at every level exactly if every path fits so |
| ElementIDs.UnnamedFieldDoubles | config/elements.go:539-575 | a concrete input whose one field without id is stored twice |
| ElementSearch.SplitRoute | config/path.go:708-741 | the two loops return the first two parts and the rest, nil with one separator or one in front |
| ElementSearch.FindsMergedField | config/elements.go:230-247 | FindField finds a path in merged sections exactly if some input has it, and returns the fold of those inputs |
| ElementSearch.FindMisses | config/elements.go:230-247 | what is missing when FindField returns -1, -2 or -3 |
| ElementSearch.FindShort | config/elements.go:230-247 | -10 for routes of fewer than three parts or with a slash in front |
| ElementSearch.Validate | config/elements.go:310-340 | reports the first path that is repeated or does not parse |
| ElementSearch.CheckMeans | config/elements.go:310-340 | no error exactly if all paths differ and parse |
| ElementSearch.CheckFirst | config/elements.go:310-340 | the error is that of the first bad path: Duplicated if seen before, else why it does not parse |
| ElementSearch.MergedValidates | config/elements.go:116-123 | merged sections never validate as duplicated, and validate exactly if every input path parses |
| ElementSearch.MergedValidatesIff | config/elements.go:116-123 | merged sections validate exactly if every given section/group/field is a valid route, or, where the group id is digits, a valid fully qualified path |
| ElementObjects.Field.Update | config/elements.go:598-625 | overwrites the non-empty attributes in place, also with itself |
| ElementObjects.FindField | config/elements.go:539-546 | index of the first field with the id, or -3 |
| ElementObjects.MergeField | config/elements.go:564-575 | updates the field found in place or appends; no other object changes |
| ElementObjects.MergeFields | config/elements.go:556-561 | the loop computes the merge, also of a list into itself |
| ElementObjects.Group.Update | config/elements.go:430-441 | overwrites attributes and merges fields in place, also with itself |
| ElementObjects.FindGroup | config/elements.go:403-410 | index of the first group with the id, or -2 |
| ElementObjects.MergeGroup | config/elements.go:422-446 | updates the group found in place or appends |
| ElementObjects.MergeGroups | config/elements.go:415-420 | the loop computes the merge on objects that share nothing |
| SectionObjects.Section.Update | config/elements.go:177-190 | overwrites attributes and merges groups in place |
| SectionObjects.FindSection | config/elements.go:199-206 | index of the first section with the id, or -1 |
| SectionObjects.MergeSection | config/elements.go:167-193 | updates the section found in place or appends a copy |
| SectionObjects.MergeSections | config/elements.go:157-162 | the loop computes the merge; given sections are never stored themselves |
| NumberFormat.Parse | i18n/number.go:489-544 | one pass yields prefix, suffix, places behind the first point and the symbols in use |
| NumberFormat.ScanStep | i18n/number.go:499-527 | one character of the pass advances the specification by one character |
| NumberUse.ParsedPattern | i18n/number.go:489-544 | a pattern of text, sign, places and text is parsed to just these, character by character |
| NumberPrint.SplitFormat | i18n/number.go:124-136 | the loop cuts the format at its first semicolon |
| NumberPrint.Number.SetFormat | i18n/number.go:120-164 | the two formats after SetNumberFormat |
| NumberUse.PatternUsed | i18n/number.go:198-216 | numbers that are not negative use the first pattern, negative ones the second, if there is one |
| NumberPrint.GroupDigits | i18n/number.go:279-282 | the insertion loop computes the grouping |
| NumberPrint.GroupedMeans | i18n/number.go:269-289 | separators stand before right-aligned threes, never in front; deleting them restores the digits |
| NumberPrint.WriteInt | i18n/number.go:269-289 | the integer part with its minus sign |
| NumberPrint.WriteFrac | i18n/number.go:307-313 | the padded fraction; too much padding panics |
| NumberPrint.Write | i18n/number.go:245-337 | the output from the choice of the format on |
| NumberPrint.Number.GetFormat | i18n/number.go:198-216 | which format is used never changes, whenever it is parsed |
| NumberPrint.Number.FmtNumber | i18n/number.go:222-337 | the output or the error for every input |
| NumberPrint.FractionExact | i18n/number.go:445-455 | exactly `precision` digits worth frac * 10^(precision-prec) |
| NumberPrint.ParsedIsClean | i18n/number.go:489-544 | a parsed prefix or suffix never holds a minus sign |
| NumberPrint.Layout | i18n/number.go:315-337 | plus, prefix, minus, integer part, point, fraction, suffix: the replaced minus is the number's own |
| NumberPrint.LayoutOfSmallest | i18n/number.go:264-337 | the smallest int64 cannot be negated and prints with a minus sign in every format |
| NumberPrint.SmallestShowsMinusIff | i18n/number.go:264-289 | a format for negative numbers without minus sign shows one exactly for the smallest int64 |
| NumberPrint.LayoutOfInteger | i18n/number.go:291-304 | at precision 0, for any fraction and rounding: the rounded integer with the plain minus |
| NumberPrint.PrintedExactly | i18n/number.go:269-327 | digits in threes and fraction together are worth the number to the last place |
| NumberPrint.SignLostIff | i18n/number.go:264-289 | a negative format prints a negative number like its absolute value exactly if the integer part is 0 or the format has no minus sign |
| NumberPrint.MinusHalf | i18n/number.go:286-289 | -0.5 prints like 0.5 |
| NumberUse.Bracketed | i18n/number.go:222-337 | in `#,##0.00;(#,##0.00)` every number prints as grouped digits, point and two places, exactly the negative ones in brackets |
| NumberPrint.PlainMinusIff | i18n/number.go:291-327 | a negative number in a format with its own minus sign shows the plain one exactly if the precision is 0 |
| NumberPrint.PlainMinusStays | i18n/number.go:291-304 | -5 prints with the plain minus at precision 0, with the format's own at precision 1 |
| NumberPrint.RejectedIff | i18n/number.go:222-243 | the arguments are refused exactly if the sign cannot be told, the precision is negative or the fraction has more digits than it |
| NumberPrint.ShortPrecisionIsRejected | i18n/number.go:60-64 | 1.324 given with precision 2 is an error, not adjusted |
| TagIndex.Search | i18n/currency_dict.go:104-107 | bisection finds the first tag that is not less |
| TagIndex.LessMeans | i18n/currency_dict.go:104-107 | the order is byte-wise |
| TagIndex.Index | i18n/currency_dict.go:98-117 | i exactly if the tag is the i-th of all, -1 exactly if it is absent |
| TagIndex.TagsAreDistinct | i18n/currency_dict.go:85-96 | no tag is listed twice |
| TagIndex.TagsInOrder | i18n/currency_dict.go:85-96 | all tags are those of two, three and four bytes, in this order, cut off in turn |
| TagIndex.Len | i18n/currency_dict.go:120-125 | counts all tags |
| TagIndex.Keys | i18n/currency_dict.go:128-134 | hands out all tags in order |
| TagIndex.NamesCutData | i18n/currency_dict.go:79-84 | the names cut up the data without gap or overlap |
| IfNull.IfNull | eav/sql.go:26-64 | the two loops write the tokens and the alias |
| IfNull.ParseUndoes | eav/sql.go:26-64 | the tokens parse as one nested expression and leave what follows |
| IfNull.EvalNested | eav/sql.go:26-64 | it evaluates to the first non-NULL column, else the default |
| IfNull.TokensBalanced | eav/sql.go:26-64 | brackets balance and never close too early |
| IfNull.IfNullMeans | eav/sql.go:26-64 | all three for every list of scope names, the default list included |
| IfNullText.LexUndoes | eav/sql.go:26-64 | the printed text of readable tokens lexes back to them |
| IfNullText.PrintsSql | eav/sql.go:26-64 | the text for any list of scope names, written out |
| IfNullText.DefaultSql | eav/sql.go:22-64 | the text without scope names: store, group, website, default, and '' for no default |
| IfNullText.TextMeans | eav/sql.go:26-64 | the string itself lexes, parses and evaluates so, for names without backticks and a plain default |

## Left out

- Logging, metrics, OS signals, hot reload, the loaders and the environment lookup of the service.
- `WithApplySections` (config/options.go): it reuses one FieldMeta while PutMeta writes observers back into it.
- Path.Part, the Hash functions, Bind and Equal helpers: easy members.
- RouteTrie.Trie.PutMeta: writes the accumulated observers back into its argument; stated as the result `arg`.
- Locks: a section under the registry lock is one step; `closed` is read and written without a lock in the source, which is what the two races are.
- Receivers that call back into the registry while a message is delivered.
- Messages that fail validation: Level then yields no topic, so `PubSubProtocol` starts from qualified texts.
- Storage back ends that change what they store: config/storage/map.go keeps an empty value for a nil one.
- ElementSearch.FindField, ElementSearch.Validate: read values, not the objects.
- SectionObjects.MergeSections: slices are values, so spare capacity shared between Go slices is not modelled; the objects given must share nothing, because an update of a shared object also changes what is still to be merged.
- SectionObjects.MergeSection: a section that shares groups or fields with the list.
- SectionObjects.Section.Update: two sections that share groups or fields.
- ElementObjects.MergeField: a list that holds one named field object twice.
- ElementObjects.MergeFields: two different lists that share field objects.
- ElementObjects.Group.Update: two different groups that share field objects.
- ElementObjects.MergeGroup: a group that shares objects with the list.
- ElementObjects.MergeGroups: lists that share group or field objects.
- RouteKey.BuildTrieKey: states the leading slash; the scope behind the route is stated by RouteKey.ScopedKeySegments.
- Sections.SortAll, UpdateField, AppendFields, TotalFields: easy members.
- NumberPrint.Number.FmtNumber: rounding (prec above precision) goes through floating point and is the parameter `round`; `intLen` is the exact digit count instead of a logarithm; scaling by more than 10^18 is not defined in the source.
- NumberPrint.Number.SetFormat: the symbols are a parameter, and the option that restores the previous format is not built.
- NumberFormat.Parse: prefix and suffix have no size limit, and the formats for positive and negative numbers do not share their buffers.
- FmtFloat64, and how number symbols are merged with the default ones.
- byteconv with `UseStdLib`, which is off by default.
- IfNullText.TextMeans: names that hold a backtick, and defaults that hold a closing bracket or start like another token, which the generator does not quote.
- TagIndex.Index: requires sorted tags of whole width, as the generated tables have.
- The rest of the repository: stores, EAV tables, directories, generators, network clients.
