# Node-pool verification

A Dafny model of the part of the sing-box provider patch that keeps pools of proxy nodes alive: the outbound
registry, the providers that refresh it from subscriptions, the groups that filter and select among the nodes, the
tracked connections they interrupt, and the conditional downloads and cached texts that feed all of this.

Each component comes twice. A value-level description (a `State` datatype and functions that give the state after a
step) carries the theorems, most of them over every run of steps. Beside it stands a class with the program's own
fields and loops, whose methods are proved to produce exactly the described states. The modules named `...Laws` say of
the described steps, one by one, what they mean for a caller. `dafny verify dfyconfig.toml` checks everything.

| module | component |
|---|---|
| `Nodes` | options, built outbounds, small sequence helpers |
| `StartOrder`, `OutboundManager`, `RegistryLaws`, `ManagerObject` | the registry: start order, creation, removal, dependents, default |
| `ProviderRefresh`, `ProviderWorld`, `ProviderObjects` | a provider's refresh, and many providers in one registry |
| `Interrupt` | the tracked connections of a group |
| `GroupPool`, `Selector`, `SelectorLaws`, `SelectorObject` | the node cache of a group, and the selector |
| `EndToEnd`, `UrlTestSystem` | registry, providers and a selector or a URL-test group running together |
| `UrlTest`, `UrlTestPool`, `UrlTestLaws`, `UrlTestObject`, `UrlTestLoop` | delay-based selection, its pool, and the ticker with its loop |
| `Base64`, `RawSubscription` | the tolerant subscription reader |
| `RemoteRuleSet`, `RemoteProvider`, `RemoteLaws` | ETag-conditional refresh and the saved text |

How the outside is represented. An outbound is a value with an identity number; comparing identities stands for
comparing pointers. Whether a constructor, a start or a close succeeds is an arbitrary function of that identity
(`Env`). Regular expressions, link and configuration parsers and serialisers are function parameters. Responses,
probe results, dial results, clock readings and failed cache writes are parameters of the steps. The cache file is
the entry the component reads and writes. The theorems about restarts of a remote provider state what they take for
granted of parsers and serialisers in one predicate, `ProperCodec`.

Where the code does not keep what its documentation or its shape suggests, the code is modelled as it is, and a
lemma gives the exact condition or a concrete failing run:

- a removal refused because of dependents has already unregistered the outbound;
- a dependency listed twice can make a removal forget another dependent;
- a removal can be refused for the sake of a dependent that has since been replaced or unregistered;
- replacing the default outbound under a tag that is not the configured default leaves the replaced object as default,
  and so does closing the registry;
- repeated tags among outbounds that could all be started end the launch in a nil dereference;
- a replacement that failed is not retried: every later refresh keeps the object built from the older option, and if
  the provider is closed or drops the option instead, that object stays registered;
- a closed provider goes on answering the tags it has just unregistered;
- untagged options share one key among the old options;
- a callback spent while a static outbound is missing leaves the group's cache stale;
- selecting the outbound already in use is not remembered;
- the URL-test comparison wraps at 16 bits, and a delay of 0 reads as "none yet";
- a URL-test group whose node was rebuilt stays on the closed old object, since the new one is never better;
- a touch that comes after the check loop decided to stop does not keep the ticker;
- two closes of a URL-test group that each meet a ticker close a closed channel;
- a rule-set content that comes without an ETag is kept beside the ETag of another content;
- a remote provider records the ETag of a content before it knows that the content parses;
- a 304 without an info header forgets the subscription info shown, though the saved text keeps it;
- a text that is base64 as a whole is decoded as a whole, an info line in front included;
- a saved body without an info line that itself passes for one is skipped on restart; the empty rest does not parse,
  and the provider's start fails;
- a subscription of which the provider's patterns keep nothing is saved all the same, and the next start fails on it.

## Model

| member | source | states |
|---|---|---|
| `StartOrder.WalkDescends` | source/1.13/adapter/outbound/manager.go:93-135 | in a complete start order, positions strictly fall along any chain of dependencies |
| `StartOrder.OrderRulesOutCycles` | source/1.13/adapter/outbound/manager.go:93-135 | if every outbound could be started, the dependency relation is acyclic and every dependency names an outbound |
| `StartOrder.StuckHasCycle` | source/1.13/adapter/outbound/manager.go:130-138 | when no outbound can start and every dependency names one, there is a dependency cycle |
| `StartOrder.CompleteOrderUnsticks` | source/1.13/adapter/outbound/manager.go:93-135 | where some order starts every tag, no set short of all tags is stuck |
| `StartOrder.Lint` | source/1.13/adapter/outbound/manager.go:139-155 | the recursive search always terminates with a circular or a not-found report, whatever the index holds |
| `StartOrder.LintDiagnoses` | source/1.13/adapter/outbound/manager.go:136-155 | a circular report carries a real walk whose repeated tag closes a real cycle; a not-found report names a real dependency neither started nor indexed |
| `StartOrder.LintTellsWholeWay` | source/1.13/adapter/outbound/manager.go:139-155 | a circular report tells the whole way from where the search began |
| `StartOrder.LintDecides` | source/1.13/adapter/outbound/manager.go:139-155 | at each outbound a tag already on the way is circular, indexed or not; one neither on the way nor indexed is missing |
| `StartOrder.FollowsFirstUnstarted` | source/1.13/adapter/outbound/manager.go:141-143 | the search follows the first dependency that is not started |
| `StartOrder.StuckEndpointReportedMissing` | source/1.13/adapter/outbound/manager.go:147-152 | a concrete stuck endpoint that is reported as not found although it exists |
| `ManagerObject.Manager.StartRound` | source/1.13/adapter/outbound/manager.go:97-129 | one pass starts, in list order, only outbounds whose dependencies are started, stops at the first failure, and a pass that starts nothing proves the rest stuck |
| `ManagerObject.Manager.Diagnose` | source/1.13/adapter/outbound/manager.go:136-155 | the outcome of a stuck pass: a true diagnosis, that of the search from the first outbound not started, or the nil dereference when nothing is unstarted |
| `ManagerObject.Manager.StartOutbounds` | source/1.13/adapter/outbound/manager.go:93-158 | terminates on every input; starts each tag at most once and after its dependencies; with successful starts it succeeds exactly when tags are distinct and some order starts them all (that is, dependencies are closed and acyclic), and ends in the nil dereference exactly when tags repeat and some order starts them all; a diagnosis comes from a stuck proper subset |
| `ManagerObject.Manager.Start` | source/1.13/adapter/outbound/manager.go:51-91 | which of the stage's outcomes occurs and when, the registry after it, default and direct fallback included, and what a launch then reports |
| `ManagerObject.Manager.Launch` | source/1.13/adapter/outbound/manager.go:79-158 | the same for what the registry holds; in a registry ready to start every circular or not-found report is true, and with no endpoint stuck nothing has the tag reported missing |
| `ManagerObject.Manager.ChooseDefault` | source/1.13/adapter/outbound/manager.go:58-77 | which default a launch settles on, the direct fallback included, and the two ways it fails |
| `ManagerObject.Manager.Announce` | source/1.13/adapter/outbound/manager.go:80-89 | any other stage reaches the outbounds in list order up to the first failure |
| `ManagerObject.RunReadyToStart` | source/1.13/adapter/outbound/manager.go:51-302 | every run before a close leaves distinct tags and an index of exactly the listed outbounds, what the start-up diagnosis relies on |
| `ManagerObject.NotFoundNamesNothing` | source/1.13/adapter/outbound/manager.go:136-155 | after any run before a close, the tag a not-found report names belongs to no outbound, and to nothing at all exactly when no endpoint has it; with no endpoint among the stuck nothing has it |
| `ManagerObject.Manager.Find` | source/1.13/adapter/outbound/manager.go:190-198 | the index answers first, the endpoints second |
| `ManagerObject.Manager.Create` | source/1.13/adapter/outbound/manager.go:253-301 | the error or the new registry, for every order of failing constructor, start and close |
| `ManagerObject.Manager.Remove` | source/1.13/adapter/outbound/manager.go:206-251 | the error and the new registry, refused removals included |
| `ManagerObject.Manager.Close` | source/1.13/adapter/outbound/manager.go:160-182 | closing closes every listed outbound in order, empties the list and keeps the index |
| `OutboundManager.CreateKeepsIndex` | source/1.13/adapter/outbound/manager.go:271-299 | a creation keeps list and index duplicate-free and in agreement |
| `OutboundManager.RemoveKeepsIndex` | source/1.13/adapter/outbound/manager.go:209-232 | so does a removal, refused or not |
| `OutboundManager.RunKeepsIndex` | source/1.13/adapter/outbound/manager.go:51-302 | over every run the list is a duplicate-free part of the index, and until the first close the two hold exactly the same objects |
| `OutboundManager.DropDependentsClosedForm` | source/1.13/adapter/outbound/manager.go:237-246 | the clean-up loop in closed form: what each entry of the reverse table loses, repeated dependencies included |
| `OutboundManager.RemoveKeepsRegisteredExactly` | source/1.13/adapter/outbound/manager.go:233-246 | a removal keeps every live dependent registered exactly when it is refused or no repeated dependency has a single other, live dependent |
| `OutboundManager.RunKeepsRegistered` | source/1.13/adapter/outbound/manager.go:290-293 | with duplicate-free dependency lists, over every run each live outbound is listed under each of its dependencies |
| `OutboundManager.RemovedHasNoDependents` | source/1.13/adapter/outbound/manager.go:233-250 | after any such run, a removal that reports success leaves nothing that depends on the removed tag |
| `OutboundManager.RepeatedDependencyForgetsDependent` | source/1.13/adapter/outbound/manager.go:238-246 | a concrete run in which a repeated dependency lets an outbound still depended on be removed with success |
| `OutboundManager.RefusedRemovalStillUnregisters` | source/1.13/adapter/outbound/manager.go:213-236 | a refused removal has already taken the outbound out of index and list |
| `OutboundManager.CreateNamesLiveExactly` | source/1.13/adapter/outbound/manager.go:271-293 | a creation keeps the table free of former dependents exactly when it fails or gives up no dependency of what it replaces |
| `OutboundManager.RemoveNamesLiveExactly` | source/1.13/adapter/outbound/manager.go:206-246 | a removal does exactly when it is not refused or takes out something without dependencies |
| `OutboundManager.RefusalNamesDependentsExactly` | source/1.13/adapter/outbound/manager.go:233-236 | after any run of such steps a removal is refused exactly when something live depends on the tag, and names exactly that |
| `OutboundManager.FormerDependentBlocksRemoval` | source/1.13/adapter/outbound/manager.go:233-293 | otherwise a sole dependent replaced by one without the dependency still blocks a removal, which unregisters all the same |
| `RegistryLaws.AnswersExactly` | source/1.13/adapter/outbound/manager.go:190-198 | which object answers a tag: the indexed one, else the first endpoint that has it |
| `RegistryLaws.StageExactly` | source/1.13/adapter/outbound/manager.go:51-57 | when a start of a stage does something, and what besides the launch it leaves alone |
| `RegistryLaws.CreationEntersExactly` | source/1.13/adapter/outbound/manager.go:253-301 | the exact condition for a new object to enter; then it is last on the list and answers its tag, otherwise nothing moves |
| `RegistryLaws.CreationErrorExactly` | source/1.13/adapter/outbound/manager.go:253-279 | which failure a creation reports, for each |
| `RegistryLaws.RemovalExactly` | source/1.13/adapter/outbound/manager.go:206-251 | what a removal answers and when, and that it takes exactly that tag out of index and list |
| `RegistryLaws.CloseKeepsAnswers` | source/1.13/adapter/outbound/manager.go:160-182 | a close empties the list and moves no answer |
| `RegistryLaws.RunKeepsBuildOrder` | source/1.13/adapter/outbound/manager.go:271-288 | over every run the list is in the order in which its objects were built |
| `RegistryLaws.CreateDefaultExactly` | source/1.13/adapter/outbound/manager.go:294-299 | when a creation makes its object the default |
| `RegistryLaws.RemoveDefaultExactly` | source/1.13/adapter/outbound/manager.go:224-232 | a removal, refused or not, never leaves its object the default: the first listed one follows, or none exactly when the list is empty; another default stays |
| `RegistryLaws.LaunchDefaultExactly` | source/1.13/adapter/outbound/manager.go:58-77 | which default a launch settles on, and when there is none |
| `RegistryLaws.StepKeepsDefaultExactly` | source/1.13/adapter/outbound/manager.go:51-301 | the exact condition on each step for the default to be a listed outbound or an endpoint afterwards |
| `RegistryLaws.RunKeepsDefault` | source/1.13/adapter/outbound/manager.go:51-301 | over every run of such steps the default is a listed outbound or an endpoint |
| `ProviderRefresh.RemoveDroppedIndex` | source/1.13/provider/adapter.go:246-267 | exactly the listed outbounds whose tags the new options lack leave the index |
| `ProviderRefresh.ReconcileSlots` | source/1.13/provider/adapter.go:104-141 | with distinct full tags the iterations are independent: each slot and registry entry is read off the state before the loop, and each needed creation happens once |
| `ProviderRefresh.RefreshEffect` | source/1.13/provider/adapter.go:104-147 | the whole registry after a refresh: unchanged options keep the same object, changed and new ones are created once, dropped ones go, all others stay |
| `ProviderRefresh.RefreshRefinesRebuildExactly` | source/1.13/provider/adapter.go:104-147 | an incremental refresh equals a rebuild from the new options exactly when every creation succeeds and every kept object was built from its option |
| `ProviderRefresh.ReusedExactly` | source/1.13/provider/adapter.go:111-122 | an option is served by what is registered exactly when it equals the last old option of its tag, or is the zero option and no old one is untagged |
| `ProviderRefresh.RefreshMapMatches` | source/1.13/provider/adapter.go:139-147 | after a refresh, failures included, the provider's map answers exactly the tags it lists, with what it lists |
| `ProviderRefresh.DecimalReadsBack` | source/1.13/provider/adapter.go:115-120 | an untagged option is named by the decimal notation of its position |
| `ProviderRefresh.FullTagsDistinctExactly` | source/1.13/provider/adapter.go:115-120 | options share a registry tag only by equal tags or by a tag that is the position of an untagged other |
| `ProviderRefresh.FailedReplacementIsKept` | source/1.13/provider/adapter.go:121-138 | after a failed replacement, whatever failed and whatever was listed, the next refresh lists the object built from the option before last |
| `ProviderRefresh.UntaggedOptionsShareAKey` | source/1.13/provider/adapter.go:111-122 | with two untagged options, dropping the first makes the second be served by the first one's object |
| `ProviderWorld.NamespacesDisjoint` | source/1.13/provider/adapter.go:115-120 | slash-free providers never share a registry tag |
| `ProviderWorld.ProviderRefreshIsSafe` | source/1.13/provider/adapter.go:121-122 | under the run invariant every kept object was built from the option it is kept for |
| `ProviderWorld.RefreshKeepsOwner` | source/1.13/provider/adapter.go:104-147 | a refresh equals a rebuild, leaves below the prefix exactly the listed outbounds, and moves nothing outside it |
| `ProviderWorld.CloseEmptiesNamespace` | source/1.13/provider/adapter.go:174-189 | closing a provider leaves nothing below its prefix and moves nothing else |
| `ProviderWorld.RunKeepsWorld` | source/1.13/provider/adapter.go:104-189 | over every run of refreshes, provider closes and static changes, the registry holds below each prefix exactly that provider's outbounds, following its last options |
| `ProviderWorld.RunThenRefresh` | source/1.13/provider/local/local.go:115-130 | after any run, one more refresh equals a rebuild and leaves static and other providers' entries untouched |
| `ProviderWorld.RunThenClose` | source/1.13/provider/adapter.go:174-189 | after any run, closing a provider leaves none of its outbounds registered |
| `ProviderWorld.RunAnswersOwn` | source/1.13/provider/adapter.go:96-147 | over every run in which it is not closed a provider answers the registry's present object for every tag below its prefix, and nothing else |
| `ProviderWorld.ClosedProviderAnswersExactly` | source/1.13/provider/adapter.go:174-189 | a closed provider still answers what it listed; it agrees with the registry exactly when it listed nothing |
| `ProviderWorld.FailedReplacementIsNeverRetried` | source/1.13/provider/adapter.go:121-138 | from a fresh start: after one failed replacement, any number of refreshes with the new option go on serving the object built from the old one |
| `ProviderWorld.FailedReplacementLeaks` | source/1.13/provider/adapter.go:104-189 | from a fresh start: after a failed replacement neither closing the provider nor dropping the option unregisters the old object |
| `ProviderWorld.CloseEmptiesExactly` | source/1.13/provider/adapter.go:174-189 | in any state, a close leaves nothing below the prefix exactly when every tag registered there is one the provider lists |
| `ProviderObjects.Adapter.RemoveUseless` | source/1.13/provider/adapter.go:246-267 | removes exactly what the specification of dropped outbounds says |
| `ProviderObjects.Adapter.UpdateOutbounds` | source/1.13/provider/adapter.go:104-147 | the registry and the provider's list and map after a refresh |
| `ProviderObjects.Adapter.Find` | source/1.13/provider/adapter.go:96-102 | the provider's own lookup in its map |
| `ProviderObjects.Adapter.RegisterCallback` | source/1.13/provider/adapter.go:156-160 | a group is added behind those registered before |
| `ProviderObjects.Adapter.UpdateGroups` | source/1.13/provider/adapter.go:168-172 | every registered group is called once, in order, with the provider's tag, and finds its present list |
| `ProviderObjects.Adapter.Close` | source/1.13/provider/adapter.go:174-189 | every listed outbound is removed even when some removals report errors |
| `ProviderObjects.LocalProvider.ReloadFile` | source/1.13/provider/local/local.go:115-130 | an unreadable or unparsable file moves only the time stamp; otherwise a refresh against the last successful options |
| `ProviderObjects.LocalProvider.OnFileChanged` | source/1.13/provider/local/local.go:76-82 | a file change is a reload followed by the groups' callbacks, even after a failed reload |
| `Interrupt.DropCoveredLeavesSpared` | source/1.13/common/interrupt/group.go:44-51 | removing the collected elements one by one leaves exactly the spared connections, in order |
| `Interrupt.Group.NewConn` | source/1.13/common/interrupt/group.go:25-37 | a new connection is tracked once, at the end |
| `Interrupt.Group.CloseConn` | source/1.13/common/interrupt/conn.go:29-34 | a closed connection leaves the list if still in it, and the others stay |
| `Interrupt.Group.Interrupt` | source/1.13/common/interrupt/group.go:39-52 | closes and removes exactly the covered connections and keeps the rest in order |
| `GroupPool.GatherClosedForm` | source/1.13/protocol/group/selector.go:235-261 | the provider loop in closed form: each provider contributes its remembered list or a fresh filtering, and the cache then remembers what was contributed |
| `GroupPool.RunKeepsCoherent` | source/1.13/protocol/group/selector.go:217-270 | under any interleaving of changes and callbacks, the cache of every provider without a waiting change is its list filtered afresh |
| `GroupPool.CacheAgreesWithRecomputation` | source/1.13/protocol/group/urltest.go:229-271 | with no change waiting and the last filtering resolved, the nodes equal a full recomputation; both groups gather this way |
| `GroupPool.CallbackClearsDirt` | source/1.13/provider/adapter.go:168-172 | while filterings resolve, one callback after a provider's last change is enough |
| `GroupPool.CallbackRefreshesExactly` | source/1.13/protocol/group/selector.go:235-261 | the exact condition for a callback to leave the whole cache and the nodes right: no other provider is remembered by an outdated non-empty list |
| `GroupPool.FailedFilteringLosesUpdate` | source/1.13/protocol/group/selector.go:207-227 | an interleaving of any two providers that fails this condition: a failed filtering consumes a callback and the group stays stale |
| `SelectorLaws.FilterKeepsExactly` | source/1.13/protocol/group/selector.go:247-256 | the exact condition on a tag for its node to be kept |
| `SelectorLaws.FilterWorksNodewise` | source/1.13/protocol/group/selector.go:245-258 | filtering a list is filtering its nodes one by one, in order |
| `SelectorLaws.InterruptionSparesExactly` | source/1.13/common/interrupt/group.go:39-52 | exactly the external connections are spared, and those only without the option |
| `SelectorLaws.InterruptionKeepsOrder` | source/1.13/common/interrupt/group.go:39-52 | spared and covered connections keep their order |
| `SelectorLaws.ConnsInOrder` | source/1.13/common/interrupt/group.go:39-52 | closed connections come in the order of their elements |
| `SelectorLaws.LastNodeWins` | source/1.13/protocol/group/selector.go:235-261 | under a tag several nodes have the pool holds the last |
| `SelectorLaws.PoolAnswersStatics` | source/1.13/protocol/group/selector.go:217-270 | a static tag no node has is answered as the registry does; the fallback is the whole pool |
| `SelectorLaws.StartSucceedsExactly` | source/1.13/protocol/group/selector.go:85-121 | the exact condition for a start to succeed |
| `SelectorLaws.StartChoosesByRule` | source/1.13/protocol/group/selector.go:115-120 | a start selects by the rule: stored choice, else default, else first |
| `SelectorLaws.CallbackExactly` | source/1.13/protocol/group/selector.go:202-215 | a callback selects by the same rule, spares exactly the right connections on a change and all without one, and empties pool and selection on a failed filtering |
| `SelectorLaws.SelectExactly` | source/1.13/protocol/group/selector.go:138-157 | selecting a tag of the pool selects its outbound, and what happens to stored choice and connections |
| `SelectorLaws.SelectionStays` | source/1.13/protocol/group/selector.go:138-173 | it stays selected through dials and closed connections, and exactly the successful dials are tracked through it |
| `Selector.FilteredPoolSound` | source/1.13/protocol/group/selector.go:272-299 | of a filtered pool the rule picks a value of the pool, and nothing exactly when the pool is empty |
| `Selector.CallbackKeeps` | source/1.13/protocol/group/selector.go:202-215 | a callback keeps the selection sound and covered connections on the selected object |
| `Selector.RunKeepsSelector` | source/1.13/protocol/group/selector.go:138-215 | over every run after a successful start: keys equal tags, the selected outbound is in the pool, and covered connections go through it |
| `Selector.ReturningChoiceIsSelected` | source/1.13/protocol/group/selector.go:272-284 | a stored choice that left the pool is selected again as soon as an update brings it back |
| `Selector.SelectionRememberedExactly` | source/1.13/protocol/group/selector.go:138-157 | a selection is remembered exactly when it changes the selected outbound or names the remembered one |
| `Selector.ConfirmedChoiceIsOverruled` | source/1.13/protocol/group/selector.go:143-145 | confirming the outbound in use does not replace an older stored choice, which takes over when it returns |
| `SelectorObject.SelectorGroup.FilterOutbounds` | source/1.13/protocol/group/selector.go:217-270 | the filtered pool and the new cache, failures included |
| `SelectorObject.SelectorGroup.OutboundSelect` | source/1.13/protocol/group/selector.go:272-299 | stored choice, then default, then first |
| `SelectorObject.SelectorGroup.Start` | source/1.13/protocol/group/selector.go:85-121 | when a start succeeds, and the state it leaves |
| `SelectorObject.SelectorGroup.OnProviderUpdated` | source/1.13/protocol/group/selector.go:202-215 | refilter, choose, and interrupt exactly when the choice is another object |
| `SelectorObject.SelectorGroup.SelectOutbound` | source/1.13/protocol/group/selector.go:138-157 | the answer and the new state of a user's selection |
| `SelectorObject.SelectorGroup.Dial` | source/1.13/protocol/group/selector.go:159-173 | a dial tracks its connection through the selected object, and crashes with none selected |
| `EndToEnd.UnchangedOptionKeepsObject` | source/1.13/provider/adapter.go:121-141 | a refresh keeps the registered object of an unchanged option |
| `EndToEnd.UnaffectedAnswerStays` | source/1.13/provider/adapter.go:104-147 | a refresh leaves the registry's answer for a tag alone unless that tag is the provider's and its option changed |
| `EndToEnd.GatheredIsKept` | source/1.13/protocol/group/selector.go:235-261 | what the selector then gathers under that tag, fresh or from its cache, is the same object |
| `EndToEnd.PoolHoldsKept` | source/1.13/protocol/group/selector.go:217-270 | the new pool holds no other object with that tag, be it a node, a static outbound or the fallback |
| `EndToEnd.UnaffectedSelectionSurvives` | source/1.13/protocol/group/selector.go:202-215 | in any reachable system, whatever is selected (a node of the refreshed provider or of another, a static outbound, the fallback) and still registered: a refresh that leaves the rule picking the same tag with its option unchanged keeps the same object selected and interrupts nothing; waiting changes of others may not concern that tag |
| `EndToEnd.RunKeepsPool` | source/1.13/protocol/group/selector.go:138-299 | over every run, whatever options refreshes bring and however they turn out: sound selection, covered connections on the selected object, clean providers remembered afresh, nothing offered but static outbounds, the fallback and remembered nodes |
| `EndToEnd.RunKeepsSystem` | source/1.13/protocol/group/selector.go:202-270 | with distinct non-empty tags and successful creations every run keeps registry ownership besides, and what is remembered of a provider lies below its prefix |
| `EndToEnd.SystemShowsPresentNodes` | source/1.13/protocol/group/selector.go:217-270 | after any run whatever, with no change of an own provider waiting, the selector shows the static tags and then every own provider's present outbounds, filtered afresh, in order |
| `EndToEnd.SelectedIsPresent` | source/1.13/protocol/group/selector.go:202-299 | and what is selected, and used by covered connections, is a static outbound, the fallback, or listed by an own provider at present |
| `EndToEnd.SelectedNodeIsLive` | source/1.13/protocol/group/selector.go:202-299 | with proper refreshes a selected node is the registry's present object for its tag |
| `EndToEnd.CalledBackSelectorIsCurrent` | source/1.13/provider/adapter.go:168-172 | as long as every refresh is followed by its callback and finds the static outbounds there, the selector is always current |
| `UrlTest.ToleranceExactly` | source/1.13/protocol/group/urltest.go:390-402 | the exact condition on a set of delays for every pool drawn from it to be answered within the tolerance, in 16-bit arithmetic |
| `UrlTest.HysteresisExactly` | source/1.13/protocol/group/urltest.go:390-402 | the exact condition for an incumbent to be replaced only by something better by more than the tolerance |
| `UrlTest.ComparisonMeansMoreThanTolerance` | source/1.13/protocol/group/urltest.go:398-398 | when the comparison means "better by more than the tolerance": a current delay exists and the sum does not wrap below it |
| `UrlTest.WrapAndZeroBreakTolerance` | source/1.13/protocol/group/urltest.go:398-398 | concrete pools in which wrap-around, or a delay of 0, selects a far slower node |
| `UrlTest.PickFollowsDelays` | source/1.13/protocol/group/urltest.go:390-402 | the loop carries the least delay together with an outbound that has it |
| `UrlTest.SelectReportsHistoryExactly` | source/1.13/protocol/group/urltest.go:371-413 | `true` exactly when the incumbent or a supporting member has a history |
| `UrlTest.SelectIsWithinTolerance` | source/1.13/protocol/group/urltest.go:371-413 | the answer's delay is at most any candidate's delay plus the tolerance |
| `UrlTest.SelectIsHysteretic` | source/1.13/protocol/group/urltest.go:371-413 | an incumbent with a history gives way only to a candidate better by more than the tolerance |
| `UrlTest.UpdateIsIdempotent` | source/1.13/protocol/group/urltest.go:500-517 | with unchanged histories and pool a second update of one network changes nothing and has nothing to interrupt |
| `UrlTest.CheckIsIdempotent` | source/1.13/protocol/group/urltest.go:500-517 | the same for the whole update: both selections and the connections stay |
| `UrlTest.OrdinaryDelaysAreSafe` | source/1.13/protocol/group/urltest.go:371-413 | delays of at least 1 whose sums with the tolerance stay below 65536 satisfy the conditions above |
| `UrlTest.ReplacedExactly` | source/1.13/protocol/group/urltest.go:390-402 | the loop replaces its start exactly when some single delay would |
| `UrlTest.SelectionInPoolExactly` | source/1.13/protocol/group/urltest.go:500-513 | an update leaves a network's selection in the pool exactly when it was there or some candidate beats the incumbent by the code's comparison |
| `UrlTest.CheckSelectsInPoolExactly` | source/1.13/protocol/group/urltest.go:447-517 | the same for a whole check with its probes, both networks |
| `UrlTest.ReplacedNodeStaysSelected` | source/1.13/protocol/group/urltest.go:371-413 | a group whose one node was rebuilt keeps the old object selected over any sequence of checks with ordinary delays |
| `UrlTestLaws.UpdateExactly` | source/1.13/protocol/group/urltest.go:500-513 | a network's selection after an update: an earlier one is replaced exactly when beaten by the code's comparison and the answer is another, and the flag says so; an empty place is filled |
| `UrlTestLaws.BeatenIsReplaced` | source/1.13/protocol/group/urltest.go:500-513 | where the comparison means what it says, being beaten is all it takes, and the successor is better by more than the tolerance |
| `UrlTestLaws.UpdateIsWithinTolerance` | source/1.13/protocol/group/urltest.go:500-513 | without a bad triple the selection after an update is within the tolerance of every candidate |
| `UrlTestLaws.UnknownAnswerExactly` | source/1.13/protocol/group/urltest.go:403-411 | when the answer is not known to have a history, and which member it is |
| `UrlTestLaws.FirstSupportingIsFirst` | source/1.13/protocol/group/urltest.go:404-409 | that member is the first that supports the network |
| `UrlTestLaws.CheckExactly` | source/1.13/protocol/group/urltest.go:447-517 | a whole check: both selections, and the connections spared exactly when an earlier selection gave way |
| `UrlTestLaws.CheckSelectsWell` | source/1.13/protocol/group/urltest.go:447-517 | with ordinary delays both networks end within the tolerance, and move exactly when something better by more was there |
| `UrlTestLaws.ProbesExactly` | source/1.13/protocol/group/urltest.go:454-470 | which tags a check probes |
| `UrlTestLaws.ProbeStoresExactly` | source/1.13/protocol/group/urltest.go:475-487 | a measured delay is stored with its time, a failure deletes the history, the rest stays |
| `UrlTestLaws.MeasuredRestsExactly` | source/1.13/protocol/group/urltest.go:454-487 | what was measured rests for the interval, what failed is probed at the next check |
| `UrlTestLaws.StartExactly` | source/1.13/protocol/group/urltest.go:84-119 | when a start runs, fails or crashes, and what it begins with |
| `UrlTestLaws.CallbackChecks` | source/1.13/protocol/group/urltest.go:207-227 | a callback runs one check over the new pool |
| `UrlTestPool.PoolOutcomes` | source/1.13/protocol/group/urltest.go:229-270 | the three outcomes of a filtering exactly: a missing static outbound, the nil dereference, or static outbounds followed by nodes |
| `UrlTestPool.CallbackRefills` | source/1.13/protocol/group/urltest.go:207-271 | what a callback makes of cache, tags and outbounds, and when it crashes |
| `UrlTestSystem.RunKeepsSystem` | source/1.13/protocol/group/urltest.go:207-271 | over every run of refreshes, static changes, callbacks and checks, however they turn out, a clean provider is remembered afresh and the group shows what it remembers |
| `UrlTestSystem.GroupShowsPresentNodes` | source/1.13/protocol/group/urltest.go:229-271 | with no change waiting, tags and outbounds are the static ones followed by every provider's present list filtered afresh, or the fallback; or nothing after a missing static outbound |
| `UrlTestSystem.NotifyOutcomesExactly` | source/1.13/protocol/group/urltest.go:207-271 | after any such run, exactly when a callback empties the group, when it crashes, and what the group shows otherwise |
| `UrlTestObject.UrlTestGroup.Select` | source/1.13/protocol/group/urltest.go:371-413 | the loops compute the specified selection |
| `UrlTestObject.UrlTestGroup.PerformUpdateCheck` | source/1.13/protocol/group/urltest.go:500-517 | both networks' selections, and one interruption exactly when an earlier selection was replaced |
| `UrlTestObject.UrlTestGroup.CollectDue` | source/1.13/protocol/group/urltest.go:454-470 | exactly the due and resolvable history tags are probed |
| `UrlTestObject.UrlTestGroup.CheckOutbounds` | source/1.13/protocol/group/urltest.go:447-498 | histories, selections and connections after a check, the interruption included; a check during a check does nothing |
| `UrlTestObject.UrlTestOutbound.FilterOutbounds` | source/1.13/protocol/group/urltest.go:229-271 | the pool through the same cache, a missing static outbound, and the unchecked fallback |
| `UrlTestObject.UrlTestOutbound.Start` | source/1.13/protocol/group/urltest.go:84-119 | when a start succeeds, fails or crashes, and the state it leaves |
| `UrlTestObject.UrlTestOutbound.OnProviderUpdated` | source/1.13/protocol/group/urltest.go:207-227 | the new pool reaches the group, and a check brings histories, selections and connections up to date with it; a foreign provider is turned away |
| `UrlTestLoop.RunKeepsLoop` | source/1.13/protocol/group/urltest.go:344-437 | the invariant of ticker, pause callback and loops over every interleaving |
| `UrlTestLoop.TickerIffOneLoop` | source/1.13/protocol/group/urltest.go:344-357 | before a close the ticker exists exactly when one loop has not stopped, with its own pause callback, and nothing crashed |
| `UrlTestLoop.NeverASecondLoop` | source/1.13/protocol/group/urltest.go:415-437 | with closes anywhere there is never a second loop and no loop reads a missing ticker |
| `UrlTestLoop.CrashesExactly` | source/1.13/protocol/group/urltest.go:359-369 | over every run the group is closed exactly when a close met a ticker, and has crashed exactly when two did |
| `UrlTestLoop.OneCloseNeverCrashes` | source/1.13/protocol/group/urltest.go:344-437 | a run that closes at most once never crashes |
| `UrlTestLoop.SecondCloseCrashes` | source/1.13/protocol/group/urltest.go:344-369 | touches and time between two closes of a group with a ticker do not save the second |
| `UrlTestLoop.TouchDuringStopIsLost` | source/1.13/protocol/group/urltest.go:426-433 | a touch after the loop decided to stop does not keep the ticker |
| `UrlTestLoop.TouchHoldsExactly` | source/1.13/protocol/group/urltest.go:344-437 | a touch holds the ticker for the idle timeout, over every continuation without a close, exactly when the loop had not decided to stop |
| `UrlTestLoop.TouchExactly` | source/1.13/protocol/group/urltest.go:344-357 | what a touch does before the start, with a ticker and without |
| `UrlTestLoop.CloseExactly` | source/1.13/protocol/group/urltest.go:359-369 | what a close does with a ticker and without |
| `UrlTestLoop.FirstCheckExactly` | source/1.13/protocol/group/urltest.go:415-419 | a new loop checks at once exactly when the group was idle for more than the interval |
| `UrlTestLoop.WaitingExactly` | source/1.13/protocol/group/urltest.go:420-425 | a waiting loop takes a tick, or leaves once the group is closed |
| `UrlTestLoop.RoundExactly` | source/1.13/protocol/group/urltest.go:420-436 | one round retires the ticker exactly when the group was idle for more than the timeout, else it checks and waits again |
| `UrlTestLoop.StartIsActivity` | source/1.13/protocol/group/urltest.go:336-342 | the start makes the group touchable and counts as activity |
| `UrlTestLoop.TickerGroup.Touch` | source/1.13/protocol/group/urltest.go:344-357 | the locked section of a touch |
| `UrlTestLoop.TickerGroup.Close` | source/1.13/protocol/group/urltest.go:359-369 | the locked section of a close |
| `UrlTestLoop.TickerGroup.StopTicker` | source/1.13/protocol/group/urltest.go:427-433 | the locked section that retires the ticker |
| `Base64.SanitizeIsCleaning` | source/1.13/provider/parser/raw.go:39-43 | the four replacements and the skipping of line breaks, byte by byte |
| `Base64.DecodeInvertsEveryForm` | source/1.13/provider/parser/raw.go:39-49 | decoding inverts standard and URL-safe base64, padded or not, with spaces for '+' and line breaks anywhere |
| `Base64.ForeignByteBlocksDecoding` | source/1.13/provider/parser/raw.go:44-48 | a text with a byte of no alphabet is handed back as it came |
| `RawSubscription.ParseRawLines` | source/1.13/provider/parser/raw.go:22-37 | the line loop collects the servers of the lines, in order |
| `RawSubscription.ParseRawSubscription` | source/1.13/provider/parser/raw.go:12-20 | the decoded reading if it has servers, else the plain one |
| `RawSubscription.PlainSubscriptionIsReadAsIs` | source/1.13/provider/parser/raw.go:12-20 | a text with servers of its own is never mistaken for base64 |
| `RawSubscription.EncodedSubscriptionReadsTheSame` | source/1.13/provider/parser/raw.go:12-49 | any base64 form of a text yields exactly the servers of the text's own lines |
| `RawSubscription.EncodingChangesNothingExactly` | source/1.13/provider/parser/raw.go:12-49 | encoding a text changes the answer exactly when its servers show only after decoding it |
| `RawSubscription.ParseOfJoin` | source/1.13/provider/parser/raw.go:22-37 | reading a newline join is reading its parts, the first without a final carriage return |
| `RawSubscription.ParseOfJoinExactly` | source/1.13/provider/parser/raw.go:22-37 | reading is a homomorphism over newline joins exactly where that carriage return does not matter |
| `RawSubscription.UnixUndoesDos` | source/1.13/provider/parser/raw.go:24-24 | the line-ending normalisation undoes the LF to CR LF conversion of any text |
| `RawSubscription.DecodingIgnoresLineEndings` | source/1.13/provider/parser/raw.go:39-49 | the decoder finds the same bytes, or fails on both, before and after the conversion |
| `RawSubscription.LineEndingsDoNotMatter` | source/1.13/provider/parser/raw.go:12-49 | a text free of CR LF pairs is read the same after conversion, by the line loop and by the whole reader |
| `RemoteRuleSet.FetchKeepsSynced` | source/1.13/route/rule/rule_set_remote.go:236-315 | a fetch keeps ETag, rules, metadata and saved pair true to one content |
| `RemoteRuleSet.RunKeepsSynced` | source/1.13/route/rule/rule_set_remote.go:86-315 | so does every run of server changes, updates, reference changes and restarts |
| `RemoteRuleSet.UpdateLoadsPresentContent` | source/1.13/route/rule/rule_set_remote.go:227-315 | after any run a successful update leaves the server's present rules loaded exactly when the rule-set is referenced and content came or rules were there to confirm; a failed one changes nothing |
| `RemoteRuleSet.SavedUpdateSurvivesRestart` | source/1.13/route/rule/rule_set_remote.go:99-114 | a saved update comes back from the cache unchanged |
| `RemoteRuleSet.FetchStampsExactly` | source/1.13/route/rule/rule_set_remote.go:236-315 | what a fetch stamps, loads and saves, for every answer |
| `RemoteRuleSet.StartExactly` | source/1.13/route/rule/rule_set_remote.go:86-117 | when a start needs a fetch, when it succeeds, and with what |
| `RemoteRuleSet.UntaggedContentKeepsSyncedExactly` | source/1.13/route/rule/rule_set_remote.go:293-315 | the exact condition for a 200 without an ETag to keep that: no ETag was remembered, or its content reads the same, and is the very content if it is saved |
| `RemoteRuleSet.TaglessContentIsConfirmedWrongly` | source/1.13/route/rule/rule_set_remote.go:298-301 | otherwise a later 304 can confirm the wrong rules |
| `RemoteRuleSet.RuleSet.LoadBytes` | source/1.13/route/rule/rule_set_remote.go:164-205 | rules and metadata are replaced together, or not at all |
| `RemoteRuleSet.RuleSet.Fetch` | source/1.13/route/rule/rule_set_remote.go:236-315 | the state after every kind of response |
| `RemoteRuleSet.RuleSet.UpdateOnce` | source/1.13/route/rule/rule_set_remote.go:227-234 | an unreferenced rule-set drops its rules after a successful fetch |
| `RemoteRuleSet.RuleSet.Cleanup` | source/1.13/route/rule/rule_set_remote.go:146-150 | rules without references are dropped, the rest stays |
| `RemoteRuleSet.RuleSet.Start` | source/1.13/route/rule/rule_set_remote.go:86-117 | when a start from the cache succeeds, and with what; a missing download detour included |
| `RemoteProvider.FirstLineRecovers` | source/1.13/provider/remote/remote.go:318-325 | the info line and the body of a saved text are recovered exactly |
| `RemoteProvider.ReplacingKeepsBody` | source/1.13/provider/remote/remote.go:221-226 | a 304 replaces only the info line |
| `RemoteProvider.RunKeepsBody` | source/1.13/provider/remote/remote.go:213-277 | over any run the saved text after its optional info line is what the last saved 200 wrote |
| `RemoteProvider.RestartReadsBodyExactly` | source/1.13/provider/remote/remote.go:104-120 | a restart parses the saved body exactly unless no info line was saved and the body passes for one; then it parses the empty text |
| `RemoteProvider.RunThenRestart` | source/1.13/provider/remote/remote.go:104-120 | the same after any run from an empty cache |
| `RemoteProvider.FetchKeepsMatchExactly` | source/1.13/provider/remote/remote.go:244-258 | a fetch keeps the recorded ETag true to what is applied exactly when it is not a 200 whose content fails to parse (or it reads as what is applied already) |
| `RemoteProvider.SuccessAppliesPresentContent` | source/1.13/provider/remote/remote.go:180-280 | from a matching state every successful fetch leaves the server's present content applied: after a 200 as read under the header received, after a 304 as read under an earlier one |
| `RemoteProvider.UnparsableContentKeepsBeingConfirmed` | source/1.13/provider/remote/remote.go:244-258 | an unparsable content is refused once and then confirmed by any number of 304 answers while the older outbounds stay; the saved ETag is untouched |
| `RemoteProvider.RunKeepsMatch` | source/1.13/provider/remote/remote.go:104-280 | over every run of server changes, fetches and restarts saved text and saved ETag go together; while all contents parse, so do the applied options and the remembered ETag |
| `RemoteProvider.RunThenFetch` | source/1.13/provider/remote/remote.go:180-280 | after any run whose contents parse, restarts included, a successful fetch leaves the server's present content applied |
| `RemoteProvider.RestartRepairsMatch` | source/1.13/provider/remote/remote.go:104-120 | after any run at all, a restart that succeeds brings ETag and options back together |
| `RemoteProvider.RestartSucceedsExactly` | source/1.13/provider/remote/remote.go:104-120 | a restart succeeds exactly when the saved options are not empty and the saved text is not a bare body that passes for an info line; it then applies those options |
| `RemoteProvider.EmptyReadingBlocksRestart` | source/1.13/provider/remote/remote.go:256-277 | a content whose filtered reading is empty is applied and saved, and the next start fails |
| `RemoteLaws.EncodedBehindInfoLine` | source/1.13/provider/remote/remote.go:248-272 | behind an info line any base64 form of a text is parsed as that text, and the line is kept as the info |
| `RemoteLaws.EncodedUnderInfoHeader` | source/1.13/provider/remote/remote.go:248-272 | the same under an info header, which is then the info line |
| `RemoteLaws.EncodedWithoutInfo` | source/1.13/provider/remote/remote.go:248-272 | and with no info at all |
| `RemoteLaws.EncodedAroundInfoLine` | source/1.13/provider/remote/remote.go:248-254 | the info line may be inside the encoding, and the text behind it encoded once more |
| `RemoteLaws.PlainIsParsedAsIs` | source/1.13/provider/remote/remote.go:248-254 | a plain text is parsed as it is, or behind its own info line |
| `RemoteLaws.WholeEncodingWins` | source/1.13/provider/remote/remote.go:248-254 | a text that is base64 as a whole is decoded as a whole |
| `RemoteLaws.OtherAnswersExactly` | source/1.13/provider/remote/remote.go:208-243 | what a 304 takes over and stamps, and that other answers change nothing |
| `RemoteLaws.RestartExactly` | source/1.13/provider/remote/remote.go:104-132 | when a restart succeeds, and what it begins with when nothing was saved |
| `RemoteLaws.RestartReadsLikeFetch` | source/1.13/provider/remote/remote.go:104-120 | a restart reads the saved text as a fetch reads a body without an info header |
| `RemoteLaws.SavedUpdateRestoresAll` | source/1.13/provider/remote/remote.go:107-120 | a saved update comes back whole: options, ETag, time and info |
| `RemoteLaws.FetchThenRestart` | source/1.13/provider/remote/remote.go:104-280 | after an applied and saved 200 with servers and an info line, a restart changes nothing |
| `RemoteLaws.ConfirmationForgetsInfo` | source/1.13/provider/remote/remote.go:212-235 | a 304 without an info header forgets the info until a restart, exactly when there was any |
| `RemoteProvider.RemoteSubscription.UpdateProviderFromContent` | source/1.13/provider/remote/remote.go:305-316 | a refresh against the options applied last, or nothing |
| `RemoteProvider.RemoteSubscription.Fetch` | source/1.13/provider/remote/remote.go:180-280 | the state after every kind of response; exactly an applied 200 touches the registry, and the groups are then called back and find the new list |
| `RemoteProvider.RemoteSubscription.Start` | source/1.13/provider/remote/remote.go:104-132 | its three outcomes exactly, a missing download detour included, and the state, registry and provider list after each |

## Left out

- HTTP, TLS, dialling, file watching, the database behind the cache file, logging and the task monitor: input and output.
- The binary layout of cached records, whose time stamps lose their sub-second part: records are values.
- The link, Clash, SIP008 and sing-box subscription formats: `LinkParser` and `Codec.parse` are parameters; of links only that they contain a colon is used.
- `provider/manager.go`, the registries, the option structs and `box.go`: twins of the outbound registry, or wiring.
- `use_all_providers`: it only decides the list of provider tags a group starts with.
- Providers' health checks, and the timing of probes: a check's measurements are given to it all at once.
- Outcomes keyed by identity: asking twice about closing the same object gives the same answer.
- Several threads inside one operation: every operation of the registry, a provider or a group is one step; only the ticker and its loop are split at their locks.
- The endpoint registry: a fixed list with lookup by tag.
- URL-test dialling: it tracks connections as the selector does, and after a failure forgets a history.
- `UrlTest.Network`: `Select` for a network that is neither TCP nor UDP, where no incumbent is considered, is not modelled.
- Aliasing of slices handed out by the registry and by the groups.
