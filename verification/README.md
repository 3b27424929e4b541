# The HeLx application controller, modelled

The controller watches three custom resources. A HelxApp lists services, a HelxUser names a user, and a HelxInst asks for an application to be run for a user. When all three are there it generates a Deployment, claims for persistent storage and Services, and applies them to the cluster. The model follows the code through four parts of that work.

**The join of the three resources.** `Graph` has the in-memory tables as classes, updated in place, and beside each method a function that gives the whole new state. `GraphIndex` compares the instance sets, an inverted index, with a scan of the instance table over every run of operations. `GraphOrder` shows that the order of arrival does not matter. `Handshake` interleaves the three reconcilers at every access to a table and proves that no wake-up and no update is lost; `HandshakePaths` says which reconciles generate at all, and from what. `Reconcile` runs the three reconcilers as methods, with any of the derivations failing, `Freshness` proves an invariant of all runs of them, and `StatusWrites` follows one resource through stale reads, conflicts, failed status writes and restarts; `InstRuns` ties the instance reconciler to it.

**The cluster.** `JsonPatch` computes, filters and applies patches on documents of any depth. `Cluster` has the create-or-patch and the cascading deletion as methods of a class over an object store, `Derivatives` the application of a set of artifacts, and `Retention` whole runs of the controller, the API server and the garbage collector.

**The volume strings.** `VolumeGrammar` has the grammar as a printer and a scanner, `VolumePattern` the regular expression with its textbook meaning, and `VolumeParser` what the parts mean; `VolumeStrings` tells the same from the characters of the string alone.

**From an application to texts.** `Pipeline` turns services into containers and pod volumes, `Claims` pod volumes into claims, `ClaimTemplate` has the template of a claim, `Generation` puts these together, and `Render` is the loop that renders a text until it no longer changes. `PodVolumes` settles what skipped services leave behind, `RenderLoop` when that loop ends at all, and `ClaimText` reads option values as texts with references. Go ranges over maps in any order: a method that does so returns the order it took as a ghost result, and the lemmas hold for all orders.

## What is assumed

- One access to a Go map is one atomic step. The maps carry no locks; freedom from data races is not claimed.
- A reconcile that finds its generation already observed re-adds what the tables hold for that resource, generations aside (`Handshake`, `Freshness`). `Freshness.RestartDerivesNothing` is about the first reconciles of a process, where they hold nothing yet.
- One resource has at most one reconcile at a time (`StatusWrites`); reconciles of different resources overlap freely.
- A status write succeeds only against the version it was read from (optimistic concurrency).
- One create-or-patch, with its read, diff and patch, is one step on the objects as they are, and so is one list-and-delete of a kind; the client's reads may come from a cache that lags behind, which is not modelled.
- A document decoded from a rendered template has metadata; over whole runs (`Retention`) also no owner references, and its retain label, if any, is "true".
- Owners are told apart by their uid alone.
- What becomes of the references in an attribute's value when the claim's text is rendered again is a parameter of the claim template (`ClaimTemplate.Expansion`), which may depend on the whole volume; `Render.AcyclicSettles` says what it is for values whose references are acyclic.
- A missing object is created under an owner only in the owner's namespace, as Kubernetes requires of owner references.
- The failures of API calls are a parameter, so every result about the cluster holds for each choice of failing calls.
- The HTTP response behind a user handle is not looked into; nothing proved here depends on it.

## Where the code differs from what it says

Each of these but the last is proved, with the exact condition where there is one.

- `DeleteInst` takes the unresolved reference out of the set instead of the instance's name, which can take another instance out of the index (`GraphIndex.DropInstKeepsIndexIff`, `GraphIndex.DeleteInstEvicts`).
- A deleted application or user still counts as present, and its instances come back with the next change of a partner (`GraphIndex.DeletedAppStaysPresent`, `Freshness.DeletedAppIsDerivedAgain`).
- In an application's or user's reconcile, the first instance that fails ends the loop; the rest of the instances are not derived, and the deferred status write still marks the generation as observed (`Reconcile.Controller.ReconcileApp`, `Handshake.FailureLosesWakeup`).
- Under interleaving the last generation may use an outdated application, though the latest one was used before (`Handshake.LastGenerationMayBeStale`, `Handshake.NoLostUpdate`).
- An instance pointed at another application stays in the set of the first, and loses its workload when the first is deleted (`GraphIndex.ListIsScanIff`, `Freshness.DeletionIsExactIff`, `Freshness.RetargetedInstanceIsRemoved`).
- A restart derives nothing (`Freshness.RestartDerivesNothing`).
- An application whose services all fail to parse leaves the old workload running (`Freshness.NoContainerKeepsTheOld`).
- A failed status write loses the UUID that objects are already labelled with (`StatusWrites.FailedWriteStrandsUuid`).
- The documentation has owner references take Deployments and Services away with the instance; a patch drops those references (`Retention.PatchedWorkloadHasNoOwner`).
- The retain label set by a later patch does not protect a claim (`Retention.RetainAddedLateIsCollected`), and `retain=false` sets it (`ClaimTemplate.RetainOptionRetains`).
- The claim template reads the storage class from a field that does not exist, so a volume with the `storageClass` option fails to render, and with it the whole pod (`ClaimTemplate.StorageClassOptionFails`, `Generation.StorageClassStopsThePod`).
- An application's or user's reconcile passes its own request on, so objects of an instance in another namespace are looked for in the wrong one and cannot be created there (`Retention.CreatedObjectIsOwned`).
- Applying artifacts returns the outcome of the last one only (`Derivatives.OutcomeIsOfTheLast`); it is right exactly if that one is bound to fail or none is (`Derivatives.AppliedRightlyIff`).
- The documentation has one Service for each service with a port; all Services of an instance share one name, and the one that comes last in map order is left (`Derivatives.LastInOrderIsLeft`, `Derivatives.OneNameOrderIff`).
- Volumes that share a claim may give different claims, depending on map order, even with equal options (`Claims.PvcsDoNotDependOnOrderIff`, `Claims.OwnNameShows`).
- A service skipped for one bad volume may leave others in the pod, mounted by nobody, and may decide the source of a volume of another service (`PodVolumes.NothingLeftBehindIff`, `PodVolumes.SourcesSameIff`).
- Rendering an accepted volume string may never end, as with `c:/m,size={{ .volume.Attr.size }}x` (`RenderLoop.LoopEndsIff`, `ClaimText.GrowingSizeNeverEnds`).
- The comment's example `nfs://server/path:/mnt` is rejected, and the documented source `//server/path` has an empty server (`VolumeParser.DocumentedNfsExampleIsRejected`, `VolumeParser.DoubleSlashHasNoServer`).
- The documentation has services with `init` become init containers; the translation of services (helxapp_operations/helxapp_operations.go:465-494) does not look at it, so neither does `Pipeline.TransformApp`, and there is nothing to prove.

## Model

| member | source | states |
|---|---|---|
| Resources.ReferenceMeans | helxapp_operations/helxapp_operations.go:95-121 | A reference resolves to a resource if and only if it is its qualified name, or its bare name from its own namespace; the empty reference to none. |
| Resources.PartnersMeet | helxapp_operations/helxapp_operations.go:95-121 | An instance meets an application, and a user, if and only if it refers to it by namespace and name, or by the name alone from the same namespace. |
| Resources.NamesAreOnes | helxapp_operations/helxapp_operations.go:95-97 | An instance is filed under its namespace, a slash and its name, and no other instance under that. |
| Resources.ViewsLeaveOutGenerations | helxapp_operations/helxapp_operations.go:548-577 | Two resources are the same for generation if and only if they differ in their generations alone. |
| Graph.ObjTable.AddObj | helxapp_operations/helxapp_operations.go:129-151 | The table has the object under its name with its instance set as it was; the list holds the stored instances of that set, in some order of ranging over it. |
| Graph.ObjTable.ConnectInst | helxapp_operations/helxapp_operations.go:154-163 | The instance joins the set of the entry, which is made, without an object, if it is not there; a present object stays. |
| Graph.ObjTable.DeleteObj | helxapp_operations/helxapp_operations.go:215-226 | Lists the stored instances of the set and changes nothing: the entry stays. |
| Graph.ObjTable.GetObj | helxapp_operations/helxapp_operations.go:195-201 | The object filed under a name, or none if there is no entry or only an entry made by an instance. |
| Graph.ObjectGraph.AddApp | helxapp_operations/helxapp_operations.go:165-169 | The whole graph afterwards is the old one with the application stored; the list is that of its old instance set. |
| Graph.ObjectGraph.AddUser | helxapp_operations/helxapp_operations.go:181-185 | As for an application, in the user table. |
| Graph.ObjectGraph.AddInst | helxapp_operations/helxapp_operations.go:171-179 | The instance is stored under its name and linked to the resolved application and user keys; nothing else changes. |
| Graph.ObjectGraph.DeleteApp | helxapp_operations/helxapp_operations.go:228-230 | Returns the listing and leaves the graph as it was. |
| Graph.ObjectGraph.DeleteUser | helxapp_operations/helxapp_operations.go:246-248 | As for an application. |
| Graph.ObjectGraph.DeleteInst | helxapp_operations/helxapp_operations.go:232-244 | As written: the unresolved reference is looked up and removed from its own set, and the instance leaves the instance table. |
| GraphIndex.LookupIsExact | helxapp_operations/helxapp_operations.go:145-150 | Looking names up in the instance table yields, as a multiset, each stored instance named, once, at its latest value. |
| GraphIndex.RunKeepsIndex | helxapp_operations/helxapp_operations.go:165-185 | After any run of additions and deletions in which no DeleteInst evicts another instance, every stored instance is in the sets of the application and the user it refers to. |
| GraphIndex.ListCoversScan | helxapp_operations/helxapp_operations.go:129-151 | After such a run the list returned for a key holds every instance a scan of the whole instance table finds for it, each once, at its latest value. |
| GraphIndex.ListEqualsScan | helxapp_operations/helxapp_operations.go:215-226 | If no instance name is re-added with a different reference, the list is exactly the scan. |
| GraphIndex.ListIsScanIff | helxapp_operations/helxapp_operations.go:215-226 | A list is exactly the scan if and only if no stored instance is in the set of a key it does not refer to. |
| GraphIndex.RetargetLeavesStray | helxapp_operations/helxapp_operations.go:154-179 | An instance re-added with another application stays in the set of the first. |
| GraphIndex.Provenance | helxapp_operations/helxapp_operations.go:154-179 | Over every run, whatever is in a table or a set was put there by some addition of the run under that very key. |
| GraphIndex.DropInstKeepsIndexIff | helxapp_operations/helxapp_operations.go:232-244 | DeleteInst as written keeps the index if and only if no other live instance bears the name the deleted one used as a reference while referring to the entry of that name. |
| GraphIndex.DropInstAsMeantKeepsIndex | helxapp_operations/helxapp_operations.go:232-244 | The removal that was meant keeps the index always, and takes the deleted name out of both sets. |
| GraphIndex.DeletedInstIsGone | helxapp_operations/helxapp_operations.go:232-244 | A deletion takes that instance out of the instance table and leaves every other instance, application and user as it is. |
| GraphIndex.DeleteInstEvicts | helxapp_operations/helxapp_operations.go:232-244 | For every pair of instances of that shape, deleting one takes the other out of the index. |
| GraphIndex.DeleteInstEvictsExample | helxapp_operations/helxapp_operations.go:232-244 | Two concrete instances for which it happens. |
| GraphIndex.DeletedAppStaysPresent | helxapp_operations/helxapp_operations.go:215-230 | A deleted application is still found in the application table. |
| GraphOrder.RunIsDescribed | helxapp_operations/helxapp_operations.go:123-185 | The tables after additions of distinct resources hold those resources and those links, and no other entry. |
| GraphOrder.OrderDoesNotMatter | docs/execution-model.md:84 | Two runs that are permutations of each other end in equal application, user and instance tables. |
| GraphOrder.AddsAreIdempotent | helxapp_operations/helxapp_operations.go:129-185 | Adding the same resource again changes nothing. |
| GraphOrder.DerivedAreTheComplete | helxapp_operations/helxapp_operations.go:530-539 | After any additions with stable references the instances derived on the way are exactly those whose application and user are both in the tables. |
| GraphOrder.DerivedAreTheTriples | docs/execution-model.md:69-84 | With distinct resources: an instance is derived if and only if its application and its user occur somewhere in the run. |
| GraphOrder.EmptyReferenceIsNeverDerived | helxapp_operations/helxapp_operations.go:99-121 | An instance without an application or user reference is never derived, whatever is added. |
| GraphOrder.DerivationOrderDoesNotMatter | docs/execution-model.md:84 | The set of derived instances is the same for every order. |
| Handshake.InvHolds | helxapp_operations/helxapp_operations.go:129-185 | Inductive invariant of every interleaving: a stored instance is linked or some thread will link it, and if it is complete, a generation from exactly what the tables hold for it was made, was given up by a failure, or will be made by some thread in flight. |
| Handshake.ChangeStep | helxapp_operations/helxapp_operations.go:129-163 | At the step by which an instance becomes complete, or its application or user changes, some thread in flight is to derive it from the new state. |
| Handshake.DerivesStep | controllers/helxapp_controller.go:93-99 | No step of a thread that is to derive an instance loses it: it still will, or the generation was made from what the tables hold, or a failure gave up on it. |
| Handshake.NoLostUpdate | controllers/helxapp_controller.go:93-99 | For any interleaving, with failures: once all reconciles have finished, each stored instance with both partners has had a generation made from exactly the current instance, application and user, unless a reconcile failed that was still to make exactly that one. |
| Handshake.NoLostWakeup | controllers/helxinstance_controller.go:93-94 | Without failures: a stored instance was derived as it is stored if and only if both partners are in the tables, and then from the latest of all three. |
| HandshakePaths.OnlyFullPathsGenerate | controllers/helxinstance_controller.go:72-77 | Over every run, a step that makes a generation or gives one up belongs to a reconcile started on the full path: a reconcile of an application, user or instance that finds its generation observed changes the tables and nothing else. |
| HandshakePaths.ResyncsMakeNothing | controllers/helxapp_controller.go:75-80 | From any quiescent state, whatever runs of such reconciles leave the generations made, the last ones and those given up as they are. |
| HandshakePaths.NothingIsMadeUp | helxapp_operations/helxapp_operations.go:530-539 | Over every run, each generation was made from an instance that was stored and, under the keys it refers to, an application and a user that were in the tables. |
| Handshake.InstSteps | helxapp_operations/helxapp_operations.go:171-179 | The three table steps of an instance thread, run together, are AddInst. |
| Handshake.FailureLosesWakeup | controllers/helxapp_controller.go:94-98 | For every triple there is a reachable quiescent state in which all three resources are there and the instance was never derived, after one failed derivation. |
| Handshake.LastGenerationMayBeStale | helxapp_operations/helxapp_operations.go:530-539 | A reachable quiescent state, nothing given up, in which a generation from the latest application was made and yet the last one used an older application. |
| Reconcile.Controller.ReconcileApp | controllers/helxapp_controller.go:53-101 | In all cases (gone, unreachable, resync, full path) and whichever derivations fail: the tables and what is applied afterwards; the first failing derivation ends the loop and is reported, every removal is tried; the observed generation is written on the full path, failure or not. |
| Reconcile.Controller.ReconcileUser | controllers/helxuser_controller.go:53-101 | The same for a user. |
| Reconcile.Controller.ReconcileInst | controllers/helxinstance_controller.go:54-95 | All cases as for an application. On the full path the stored instance, the applied one and the status to write carry one UUID, the fetched one if there is one and the new one otherwise, and are the fetched instance in every other field but the observed generation of the status. |
| InstRuns.BeginMatches | controllers/helxinstance_controller.go:72-94 | What a reconcile stores and the status it is to write are those of a step of the status state machine, from the version it read. |
| InstRuns.ReconciledUuidIsWrittenOnce | controllers/helxinstance_controller.go:72-94 | Over every run of the reconciler itself against stale reads, edits, conflicts, failed writes and restarts: a stored UUID never changes and is there once anything was observed, the observed generation neither falls nor passes the generation, and no instance is in memory without a UUID. |
| Freshness.FreshStep | controllers/helxapp_controller.go:75-99 | Every reconcile, whatever of it fails, and every deletion that evicts nobody keeps: indexed, and the artifacts last applied for every ready instance that is not behind were generated from what the tables now hold. |
| Freshness.AlwaysFresh | controllers/helxinstance_controller.go:72-94 | That holds after every step of every run of whole reconciles within one lifetime, including updates and deletions of all three resources, re-targeted instances, failures and resyncs. |
| Freshness.AlwaysUpToDate | controllers/helxuser_controller.go:75-99 | As long as nothing fails and no application or user is deleted, nobody is behind: every ready instance was last applied from what the tables hold. |
| Freshness.AppUpdateIsApplied | controllers/helxapp_controller.go:93-99 | An application found is in the tables; at a new generation its ready instances whose derivation succeeds are applied from it, and nothing is applied anew for an instance not linked to it; at an observed one nothing is. |
| Freshness.UserUpdateIsApplied | controllers/helxuser_controller.go:93-99 | The same for a user. |
| Freshness.DeletionRemovesWorkloads | controllers/helxuser_controller.go:60-68 | A deleted application, and a deleted user, takes with it the workloads of every instance that refers to it, as far as the removals succeed, and of none that is not linked to it. |
| Freshness.InstDeletionRemovesNothing | controllers/helxinstance_controller.go:61-66 | A deleted instance leaves the tables; nothing is applied or removed for it. |
| Freshness.RestartDerivesNothing | controllers/helxinstance_controller.go:72-77 | For every run from empty tables that finds every resource observed, in any order and number: nothing is applied, and the controller is up to date if and only if no stored instance is ready. |
| Freshness.RestartedTriple | controllers/helxapp_controller.go:75-80 | Such a run exists for any three resources that belong together, and leaves their instance underived if the application gives a container. |
| Freshness.NoContainerKeepsTheOld | helxapp_operations/helxapp_operations.go:539-541 | An update that leaves no container leaves the artifacts applied before in place. |
| Freshness.DeletedAppIsDerivedAgain | controllers/helxuser_controller.go:93-99 | After an application is deleted and its workloads removed, an update of the user derives them again. |
| Freshness.DeletionIsExactIff | controllers/helxapp_controller.go:60-68 | Deleting an application never removes the workload of an instance that runs another one if and only if no applied instance is in its set without being in the scan. |
| Freshness.RetargetedInstanceIsRemoved | helxapp_operations/helxapp_operations.go:154-163 | For every instance pointed from one application to another and derived: deleting the first removes its workload, though it is as ready as before. |
| StatusWrites.UuidIsWrittenOnce | controllers/helxinstance_controller.go:72-94 | Over every run with stale reads, edits, failed and conflicting status writes and restarts: observed generation never exceeds the generation and never falls; once positive there is a UUID; a stored UUID never changes; no instance is in memory without one. |
| StatusWrites.FullReconcilesAreBounded | controllers/helxinstance_controller.go:72-88 | Full-path reconciles are at most the generations, or the observed generation, plus the status writes that did not happen, plus one in flight. |
| StatusWrites.CountsAreRight | controllers/helxinstance_controller.go:72-88 | What is counted there: each reconcile that begins from a version whose generation is not observed, and each status write that was due and did not take place. |
| StatusWrites.OwnWriteDoesNotDerive | controllers/helxinstance_controller.go:72-88 | The event of a successful status write takes the short path: only the table entry changes. |
| StatusWrites.StaleReadIsNotWritten | controllers/helxinstance_controller.go:83-88 | A status write that began from an outdated version changes nothing and is counted as failed. |
| StatusWrites.FailedWriteStrandsUuid | controllers/helxinstance_controller.go:79-88 | A run in which objects were labelled with a UUID that is never stored. |
| StatusWrites.StrandedUuidsAreBounded | controllers/helxinstance_controller.go:79-88 | Over every run there are at most as many such UUIDs as failed status writes. |
| VolumeGrammar.ScannerIsGrammar | helxapp_operations/helxapp_operations.go:272-313 | The scanner returns some parts for a string if and only if they are well-formed and print as that string. |
| VolumeGrammar.UniqueDecomposition | helxapp_operations/helxapp_operations.go:272-304 | Well-formed parts that print alike are equal: scheme, source, mount, subpath and options are determined. |
| VolumeGrammar.ColonsSettleScheme | helxapp_operations/helxapp_operations.go:307 | A printed string has two colons with a scheme and one without, which settles the optional scheme. |
| VolumeGrammar.SchemeAloneIsAClaim | helxapp_operations/helxapp_operations.go:307-323 | The string pvc://x is the claim pvc mounted at //x. |
| VolumePattern.ScannerAcceptsThePattern | helxapp_operations/helxapp_operations.go:307-313 | For every string: the scanner accepts it if and only if it matches the anchored regular expression, under the textbook meaning of regular expressions. |
| VolumeStrings.PvcString | helxapp_operations/helxapp_operations.go:307-339 | For every accepted body with one colon: with pvc:// in front it reads as it does without a scheme; the claim is what stands before the colon, the mount point, subpath and options what stands after it, after a number sign and after a comma. |
| VolumeStrings.NfsString | helxapp_operations/helxapp_operations.go:338-348 | With nfs:// in front it is accepted if and only if the source has two slashes: what is before the first is dropped, the server stands between them, the path begins with the second; mount point, subpath and options are read alike. |
| VolumeStrings.SeparatorIsSkipped | helxapp_operations/helxapp_operations.go:326-336 | On any option list, well-formed or not, a separator is passed over. |
| VolumeStrings.BareKey | helxapp_operations/helxapp_operations.go:326-336 | On any option list a word without an equals sign after it is a key without a value. |
| VolumeStrings.KeyAndValue | helxapp_operations/helxapp_operations.go:326-336 | A word, an equals sign and a word are a key and its value. |
| VolumeStrings.KeyWithoutValue | helxapp_operations/helxapp_operations.go:326-336 | A word and an equals sign without a word after it are a key without a value. |
| VolumeStrings.ImageIsBeforeComma | helxapp_operations/helxapp_operations.go:379-405 | The image is what stands before the first comma, the options what stands after it; without a comma there are none. |
| VolumeParser.TokenizerIsSplit | helxapp_operations/helxapp_operations.go:326-336 | On every well-formed option list the find-all tokenizer yields exactly one pair per option, split at its equals sign. |
| VolumeParser.ListedKeys | helxapp_operations/helxapp_operations.go:326-336 | A key is in the attribute map if and only if it is listed. |
| VolumeParser.LastWins | helxapp_operations/helxapp_operations.go:326-336 | A key has the value it is listed with last, and true if that is empty. |
| VolumeParser.OptionOrderDoesNotMatter | helxapp_operations/helxapp_operations.go:326-336 | With distinct keys any permutation of the pairs gives the same map. |
| VolumeParser.ProcessVolume | helxapp_operations/helxapp_operations.go:305-373 | The method returns, for every string, the pair or the error that the meaning of its unique parts prescribes. |
| VolumeParser.SameOptionsForImageAndVolume | helxapp_operations/helxapp_operations.go:379-405 | Image and volume strings give the same map for the same list, and the options claim, server and path never override the parsed source. |
| VolumeParser.ReadOnlyIff | helxapp_operations/helxapp_operations.go:353-357 | The mount is read-only if and only if the last option ro is bare or set to true. |
| VolumeParser.PrintThenParse | helxapp_operations/helxapp_operations.go:305-373 | Printing any well-formed volume and mount, options in any order, and parsing it returns them. |
| VolumeParser.ParsedIsWellFormed | helxapp_operations/helxapp_operations.go:305-373 | Every accepted string yields such a pair. |
| VolumeParser.ParsePrintParse | helxapp_operations/helxapp_operations.go:305-373 | On every accepted string parse, print, parse is parse. |
| VolumeParser.NfsNeedsTwoSlashes | helxapp_operations/helxapp_operations.go:340-348 | An nfs string of the grammar is accepted if and only if its source holds at least two slashes. |
| VolumeParser.DocumentedNfsExampleIsRejected | helxapp_operations/helxapp_operations.go:296-299 | The form nfs://server/path of the comment is rejected, whatever follows. |
| VolumeParser.DoubleSlashHasNoServer | docs/execution-model.md:206 | The documented source //server/path is accepted with an empty server and the server name in the path. |
| Pipeline.TransformVolumes | helxapp_operations/helxapp_operations.go:427-442 | For some order of ranging over the volumes, the shared map and the mounts are those of filling in that order, up to the first string that fails. |
| Pipeline.TransformApp | helxapp_operations/helxapp_operations.go:465-494 | For some orders, containers and source map are those of filling service after service, a service that fails being skipped. |
| Pipeline.PreparedAreNamed | helxapp_operations/helxapp_operations.go:359-372 | What the results on all services rest on, for every application: parsed volumes and mounts bear their id and a pvc volume has a claim. |
| Pipeline.FillSources | helxapp_operations/helxapp_operations.go:430-437 | In any order, even on failure: no source that is there changes, and each one added is that of a volume taken. |
| Pipeline.MountIntegrity | helxapp_operations/helxapp_operations.go:465-493 | For all inputs and orders: the containers are exactly the services all of whose volumes parse, in order, with exactly their mounts, and every mount has a source. |
| Pipeline.ContainersAreServices | helxapp_operations/helxapp_operations.go:465-493 | From the services as given: for each one all of whose volume strings parse, in order, a container with its name, its image read from its image string, and one mount for each of its volumes. |
| Pipeline.SourcesDoNotDependOnOrder | helxapp_operations/helxapp_operations.go:427-441 | When all strings parse, the source map is the same for every order and its ids are exactly those some container mounts. |
| Pipeline.EarliestServiceWins | helxapp_operations/helxapp_operations.go:435-437 | Each id has the source given by the earliest service that declares it. |
| Pipeline.ContainersDoNotDependOnOrder | helxapp_operations/helxapp_operations.go:469-493 | For any two orders the containers agree in name, image and, as multisets, mounts. |
| Pipeline.SomeContainerIff | helxapp_operations/helxapp_operations.go:540-541 | There is at least one container if and only if some service parses in full. |
| Pipeline.SkippedServiceLeavesNothingIff | helxapp_operations/helxapp_operations.go:471-474 | A skipped service leaves the source map alone in every order if and only if each of its volumes that parses has a source already. |
| PodVolumes.NothingLeftBehindIff | helxapp_operations/helxapp_operations.go:465-493 | For a whole application: every source is mounted, in every order, if and only if each volume that parses in a skipped service is also declared by a service that parses in full. |
| PodVolumes.SourcesSameIff | helxapp_operations/helxapp_operations.go:427-441 | With skipped services too: the source map is the same in every order if and only if each volume that parses in a skipped service comes after a service that parses in full and declares it, or equals the source of the first of those. |
| Pipeline.SkippedServiceLeavesVolume | helxapp_operations/helxapp_operations.go:430-437 | For two volumes of which one is bad, one order leaves the good one behind, unmounted, and the other does not. |
| Pipeline.SkippedServiceExample | helxapp_operations/helxapp_operations.go:430-437 | A concrete service of that kind. |
| Claims.GeneratePvcs | helxapp_operations/helxapp_operations.go:590-604 | In every order: it fails if and only if some pvc volume cannot be rendered, and otherwise its keys are exactly the claims of the pvc volumes; a later volume of the same claim replaces the earlier. |
| Claims.PvcsDoNotDependOnOrderIff | helxapp_operations/helxapp_operations.go:590-604 | The claims are the same in every order if and only if some pvc volume fails to render, or any two volumes of one claim contribute the same text and the same retain option; texts may depend on the whole volume. |
| Claims.EqualAttributesSuffice | helxapp_operations/helxapp_operations.go:590-604 | Equal attributes are enough if texts depend on nothing else of a volume. |
| Claims.OwnNameShows | helxapp_operations/helxapp_operations.go:500-502 | One accepted volume string under two ids, whose size refers to the volume's own name: equal attributes, one claim, and the result depends on map order. |
| Claims.PvcSetIsExact | docs/execution-model.md:230 | When all strings parse and rendering succeeds, the keys are exactly the claims of pvc volumes that some container mounts. |
| Generation.GenerateArtifacts | helxapp_operations/helxapp_operations.go:530-623 | Nothing without application or user; otherwise, for some orders, the result prescribed for the filled containers and sources. |
| Generation.GeneratedWhen | helxapp_operations/helxapp_operations.go:539-622 | Nothing is generated if and only if no service parses; it fails if and only if the pod, a pvc volume or a container cannot be rendered. |
| Generation.MadeIsExact | helxapp_operations/helxapp_operations.go:590-617 | There is a Service text for exactly the names of services that parse, and, when all parse, a claim for exactly the claims of the sources. |
| Generation.MadeTexts | helxapp_operations/helxapp_operations.go:584-617 | The texts are those of the templates: the pod's of all containers and sources, a claim's of a volume of that claim with its retain option, a Service's of the last container of that name. |
| Generation.LastContainerWins | helxapp_operations/helxapp_operations.go:606-617 | Of containers that share a name, the last gives the Service text. |
| Generation.StorageClassStopsThePod | templates/pvc.tmpl:30-32 | One pvc source with the storageClass option set, and nothing is made for the whole pod. |
| Render.RenderObject | helxapp_operations/helxapp_operations.go:509-526 | Whenever the loop ends at all: it returns the iterated pass, which is a fixed point of the pass, or fails because a pass fails. |
| Render.AcyclicSettles | helxapp_operations/helxapp_operations.go:512-523 | With acyclic references the loop ends within the height of the text and one pass more, and wherever it ends the result is exactly the recursive full expansion, free of references, or a failure if that meets an undefined one. |
| Render.PassKeepsExpansion | template_io/template_io.go:246-256 | A pass preserves the full expansion. |
| Render.PassLowers | template_io/template_io.go:246-256 | A pass lowers every bound on the ranks of the references in the text. |
| Render.CleanIffAcyclic | helxapp_operations/helxapp_operations.go:512-523 | Iterated passes reach a text without references if and only if the references reachable from it are acyclic and defined. |
| RenderLoop.LoopEndsIff | helxapp_operations/helxapp_operations.go:512-523 | For every text and environment: the loop ends if and only if following references, one for each name at most, leads to an undefined one, or only to texts without references and to names whose value is the name itself and things that vanish. |
| RenderLoop.SettlesIffGrounded | helxapp_operations/helxapp_operations.go:512-523 | The passes come to a text they do not change if and only if the second of these holds. |
| RenderLoop.CycleIsOwnValue | helxapp_operations/helxapp_operations.go:512-523 | In a text whose passes settle, a name on a cycle of references has itself in its value, and besides only what vanishes. |
| RenderLoop.GrowingNameNeverEnds | helxapp_operations/helxapp_operations.go:512-523 | A name whose value holds the name and a literal keeps the loop going for ever in every text that refers to it, unless a reference is undefined. |
| RenderLoop.TwoCycleNeverEnds | helxapp_operations/helxapp_operations.go:512-523 | So do two names that refer to each other, whatever else their values and the environment hold. |
| RenderLoop.SelfReferenceSettles | helxapp_operations/helxapp_operations.go:519-521 | In every environment, a name whose value is itself ends the loop at once with the reference still there. |
| ClaimText.SpellTokenized | template_io/template_io.go:246-250 | Reading a string as a text with references loses nothing of it. |
| ClaimText.GrowingSizeNeverEnds | helxapp_operations/helxapp_operations.go:512-523 | The accepted volume string whose size is a reference to that size followed by a letter: a text that quotes the size is rendered without end, unless a reference is undefined. |
| ClaimText.GrowingSizeExample | helxapp_operations/helxapp_operations.go:590-592 | Such a text and environment, for any volume id. |
| JsonPatch.PatchGivesOutcome | helxapp_operations/helxapp_operations.go:687-709 | For all documents and key orders: the unfiltered diff applied to the existing document gives exactly the target, and without its removals the recursive overlay of target on existing. |
| JsonPatch.OverlayFields | helxapp_operations/helxapp_operations.go:813-819 | The overlay field by field: what one side alone has stays, what both have is overlaid, and anything else is the target. |
| JsonPatch.OperationOnField | helxapp_operations/helxapp_operations.go:687-709 | An addition sets a field, a replacement and a removal need it to be there, and an operation below a field changes nothing but that field. |
| JsonPatch.OverlayIsSettled | helxapp_operations/helxapp_operations.go:813-819 | The filtered diff of that overlay against the same target is empty. |
| JsonPatch.DiffSelf | helxapp_operations/helxapp_operations.go:687-691 | A document against itself gives an empty patch. |
| Cluster.ApiServer.CreateOrUpdateResource | helxapp_operations/helxapp_operations.go:625-716 | Create or patch, computed with the diff, the filter loop and the patch, equals the specified outcome on the whole cluster in every branch and for every failing call. |
| Cluster.PutSucceedsIff | helxapp_operations/helxapp_operations.go:635-671 | It succeeds if and only if its guards are passed: the target decodes, the read does not fail, an existing object can be patched, a missing one can be created and is retained or may be owned; otherwise nothing changes. |
| Cluster.PutSucceedsWhen | helxapp_operations/helxapp_operations.go:635-671 | The same in terms of the target alone: its destination is what it gives as namespace and name or else the request's, a missing object is created only if it has the retain label or lies in the instance's namespace under no other controller. |
| Cluster.CreatedCarriesTarget | helxapp_operations/helxapp_operations.go:640-669 | A created object lies under its destination and is the target field by field, labels and all, but for namespace and name, and owners: the target's if retained, and otherwise the instance besides, as controller. |
| Cluster.PatchedCarriesTarget | helxapp_operations/helxapp_operations.go:672-709 | A patched Deployment or Service is the target field by field, owners included; a patched claim is the overlay of it on what was there. |
| Cluster.PutTouchesOne | helxapp_operations/helxapp_operations.go:648-713 | No object but the one at the destination changes. |
| Cluster.OwnedByAddsOwner | helxapp_operations/helxapp_operations.go:658-662 | Making the instance the controller adds it to the owners the target has, and removes none. |
| Cluster.ApiServer.DeleteKind | helxapp_operations/helxapp_operations.go:740-760 | One kind: on success exactly the doomed objects go, on failure a subset, and it succeeds if and only if the list call and all needed deletes do. |
| Cluster.ApiServer.DeleteDerivatives | helxapp_operations/helxapp_operations.go:873-887 | Success removes exactly the objects of the three kinds in the namespace with the id label and without the retain label; failure a subset; nothing else is touched. |
| Cluster.DoomedIff | helxapp_operations/helxapp_operations.go:740-760 | What a cascade is to remove: the objects in the instance's namespace with its UUID in the id label and without the retain label. |
| Cluster.CreatedGoesWithItsInstance | helxapp_operations/helxapp_operations.go:721-736 | An object created with an instance's UUID in its id label, and not retained, goes in that instance's cascade and in that of no instance with another UUID. |
| Derivatives.CreateDerivatives | helxapp_operations/helxapp_operations.go:839-871 | From application and user on: what is generated is as prescribed; a failed generation is reported and, like one that makes nothing, touches nothing; else the Deployment first and, only if it succeeds, the claims and Services that have a text, in some order. |
| Derivatives.EachByItself | helxapp_operations/helxapp_operations.go:839-871 | For every list of attempts, what becomes of an object depends only on what was there under its name and on the attempts of that name in their order. |
| Derivatives.ClaimIsApplied | helxapp_operations/helxapp_operations.go:847-855 | Once the Deployment is applied, each claim that was made with a text whose object no other text goes to is afterwards what its own create-or-patch, on its own, leaves. |
| Derivatives.ServiceIsApplied | helxapp_operations/helxapp_operations.go:856-864 | So is each Service. |
| Derivatives.ChangedIsMade | helxapp_operations/helxapp_operations.go:839-871 | And an object that changed is one that the Deployment or one of these texts goes to. |
| Derivatives.NothingWithoutDeployment | helxapp_operations/helxapp_operations.go:841-846 | A Deployment that cannot be applied keeps everything else from being applied, and is reported; without a text for it nothing is applied or reported. |
| Derivatives.NothingFailsNothingReported | helxapp_operations/helxapp_operations.go:839-871 | When the Deployment is applied and no text that is not empty can fail, no failure is reported. |
| Derivatives.ThereIff | helxapp_operations/helxapp_operations.go:648-669 | After any list of attempts an object is there if and only if it was from the start or some attempt of its name gets past the guards of a creation. |
| Derivatives.PassesIff | helxapp_operations/helxapp_operations.go:635-671 | Whether an attempt of any list succeeds, told from the objects before the first one: its text decodes, its object can be read, and it can be patched if it is there by then and created if not. |
| Derivatives.OutcomeIsOfTheLast | helxapp_operations/helxapp_operations.go:847-867 | The outcome reported for a list is whether its last attempt passes these guards. |
| Derivatives.AllSucceedIff | helxapp_operations/helxapp_operations.go:847-867 | All attempts succeed if and only if each passes, told before the first. |
| Derivatives.ReportedRightlyIff | helxapp_operations/helxapp_operations.go:847-867 | For every list, told from the objects before the first call: the report says whether all attempts succeed if and only if the last one is bound to fail or none is. |
| Derivatives.AppliedRightlyIff | helxapp_operations/helxapp_operations.go:839-871 | The same for all artifacts of an instance in every map order, told from the objects before any call: if and only if the Deployment is bound to fail, or the last claim or Service is, or none is. |
| Derivatives.FailureIsMasked | helxapp_operations/helxapp_operations.go:850-853 | In every list, a claim that cannot be decoded is not reported if the last attempt succeeds. |
| Derivatives.OthersAreUntouched | helxapp_operations/helxapp_operations.go:839-871 | Applying artifacts changes no object that none of them names. |
| Derivatives.DeploymentIsLeft | helxapp_operations/helxapp_operations.go:842-846 | What the cluster holds of the Deployment after all of an instance's artifacts is what its own attempt left. |
| Derivatives.NamedIsLeft | helxapp_operations/helxapp_operations.go:847-864 | What it holds under the name of a claim or Service that is the only one of that name and passes: the overlay of the target on what was there, or the target, or the document as created. |
| Derivatives.LastInOrderIsLeft | templates/service.tmpl:1-9 | Several Services under one name, which the template gives all Services of an instance, among services without a port, which render to nothing: of the texts only the one that comes last in map order is left, and no other object changes. |
| Derivatives.OneNameOrderIff | helxapp_operations/helxapp_operations.go:856-864 | The result is the same in every map order if and only if the documents of the texts that are not empty agree. |
| ClaimTemplate.PvcTemplateRetains | templates/pvc.tmpl:6-11 | The rendered claim bears the UUID and the expanded name of its source, and the retain label, with no other value than true, if and only if the option is set to anything but the empty text. |
| ClaimTemplate.PvcTemplateAsks | templates/pvc.tmpl:12-29 | The claim asks for one access mode, by the first of rwx, rox and rwop that is set, and for the expanded size, or 1G. |
| ClaimTemplate.PvcTemplateFailsIff | templates/pvc.tmpl:11-32 | It fails to render if and only if a storage class is set, or a value it quotes cannot be expanded. |
| ClaimTemplate.RetainOptionRetains | templates/pvc.tmpl:8-10 | From the volume string on: any option with the key retain, whatever its value and whatever references the values hold, gives a retained claim. |
| ClaimTemplate.StorageClassOptionFails | templates/pvc.tmpl:30-32 | From the volume string on: the option storageClass makes the claim fail to render. |
| Retention.OverlayKeepsMetadata | helxapp_operations/helxapp_operations.go:813-819 | A filtered patch keeps the owner references and the retain label of what is there, and adds the label the target has. |
| Retention.EventsTakeEffect | helxapp_operations/helxapp_operations.go:740-760 | A complete cascade removes exactly what carries the instance's UUID in its namespace and is not retained; a collection or outside write acts on one object. |
| Retention.StepIsSafe | helxapp_operations/helxapp_operations.go:656-666 | Every reconcile, cascade, collection and outside write keeps: each claim created retained is there, labelled, without owner. |
| Retention.RetainedClaimSurvives | helxapp_operations/helxapp_operations.go:656-666 | That holds in every reachable state of every run. |
| Retention.RetainedClaimIsNeverRemoved | helxapp_operations/helxapp_operations.go:752-758 | No cascade and no collection of any run can name such a claim. |
| Retention.RetainOptionSurvives | templates/pvc.tmpl:6-11 | From the volume's options over every run: once the claim rendered for a volume with the retain option has been created, under the expanded name of its source, it is there in every later state, labelled and without owner. |
| Retention.RetainAddedLateIsCollected | helxapp_operations/helxapp_operations.go:655-666 | A claim created without the label and patched to have it keeps its owner and can be collected with it. |
| Retention.PatchedWorkloadHasNoOwner | helxapp_operations/helxapp_operations.go:672-713 | After a patch a Deployment or Service has no owner, so the garbage collector never takes it. |
| Retention.CreatedObjectIsOwned | helxapp_operations/helxapp_operations.go:656-669 | A new object is created if and only if it is retained or in the instance's namespace, and is owned by the instance unless retained. |

## Left out

- Render.RenderObject: requires that the loop ends for the given input, since a loop without end has no result; `RenderLoop.LoopEndsIff` says exactly when it does.
- Render: text is literals and references by one name; pipelines, conditions and functions inside values, and a reference that only comes about when two values are joined, are not modelled.
- JsonPatch.OverlayIsSettled: arrays are leaves, as in `JsonPatch.PatchGivesOutcome`.
- JsonPatch.PatchGivesOutcome: arrays are leaves, replaced as a whole; the patch library, which is not part of the repository, also goes into arrays, so a claim's filtered patch may differ inside an array.
- Cluster.ApiServer.DeleteKind: deletion in the foreground is modelled as immediate removal.
- Cluster.ApiServer.DeleteDerivatives: deletion in the foreground is modelled as immediate removal.
- Retention.RetainedClaimSurvives: outside writers may change anything but the retain label and the owner references, and nobody deletes objects by hand.
- Reconcile.Controller.ReconcileApp: what is recorded as applied is what the artifacts were generated from, not their text; a failing derivation leaves that record alone and marks the instance as behind, although some of its artifacts may have been applied.
- Freshness.AlwaysFresh: instances are not deleted where that takes another out of the index (`GraphIndex.DropInstKeepsIndexIff`).
- Handshake.NoLostWakeup: deletions are not among the steps.
- StatusWrites.UuidIsWrittenOnce: follows one HelxInst; an application or user goes through the same steps without a UUID.
- Pipeline.TransformApp: ports, resources, commands, environment and security contexts are copied by the code and left out here.
- Generation.GenerateArtifacts: the templates are parameters; of their texts only the claim template is modelled, in `ClaimTemplate.PvcTemplate`.
- The HTTP client for user handles, the LDAP plugin, and security contexts taken from them.
- The Kubernetes client, YAML decoding and JSON marshalling beyond the object store of `Cluster`.
- The Deployment and Service templates, apart from the labels and names assumed of every rendered document.
- Loading of templates from a database or memory, logging, the main program, generated code, charts and scripts.
