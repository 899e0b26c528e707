# Verified model of the OPI NVIDIA DPF adapter's core logic

A Dafny model of the state machines, merges, parsers and walkers inside the
adapter, with proofs over every run, every input or every reachable state.
`dafny verify dfyconfig.toml` checks the whole project.

| file | what it models |
|---|---|
| `Text.dfy` | trimming, splitting, case folding and sorting as the other files need them |
| `Inventory.dfy`, `InventoryExact.dfy`, `AssignDevices.dfy` | matching DPU records to PCI cards: the four passes as functions, what they do said of annotations and cards, and the loops that fill the maps |
| `Annotator.dfy`, `AnnotatorRuns.dfy`, `AnnotatorConvergence.dfy`, `Fleet.dfy` | one reconcile patches one DPU; every schedule of such steps; convergence; the stored objects it patches |
| `AnnotatorCounts.dfy`, `AnnotatorThree.dfy`, `AnnotatorThreeRuns.dfy`, `AnnotatorWitness.dfy` | what changing listing orders could do: the match in numbers, and exactly when a third stamp change would be possible |
| `PciBytes.dfy` | the VPD parser, the serial-number capability walk, one device per board |
| `Paths.dfy`, `SchemaPrune.dfy` | dotted path reads and writes; the path checker and the pruner over one schema |
| `Conditions.dfy`, `ConditionWriters.dfy`, `ConditionProtocol.dfy`, `ConditionRuns.dfy` | three writers of one `status.conditions` list under optimistic concurrency |
| `Translation.dfy`, `TranslationMachine.dfy` | apply, prune and delete of translated children; the reconcile as single API calls with crashes |
| `Versions.dfy`, `VersionsExact.dfy` | version parsing, order, and the release decision; texts and versions in both directions |
| `Helm.dfy`, `HelmExact.dfy`, `HelmRuns.dfy`, `HelmWitness.dfy`, `HelmClient.dfy` | `Ensure` over a faulty client; what it reports and writes; runs of calls; a stale memory; the in-process client and the retry loop |
| `RevisionStore.dfy` | Helm revisions as Secrets, with a crash after any write |
| `Cleanup.dfy`, `CleanupRun.dfy`, `CleanupMachine.dfy`, `ResourceIndex.dfy` | ownership, cleanup plan, guarded execution while the environment acts, runs of cleanups call by call, the in-process index |
| `Locks.dfy` | per-key mutexes, the locks each thread takes, all interleavings |

Code that loops or updates in place is modelled by methods and classes proved
against specification functions; the theorems are about those functions.

Where the code does not do what one would first say of it, the failing input and
the exact condition are proved:

- A child with a finalizer of its own outlives its source: the delete only marks it
  and the source's finalizer is dropped at once
  (`TranslationMachine.HeldChildOutlivesSource`). That is the only way:
  `NoOrphan` and `GuardedUntilDroppedEarly`.
- A source created again under its name takes over the old children that are
  tracked by annotation, because the annotation carries no UID; the comment in
  `translation_controller.go` says it starts fresh, which holds on the
  owner-reference track only (`Translation.RecreatedOwnsIff`). By `NoOrphan` the
  children still there at that moment are terminating and held by a finalizer of
  their own.
- The path checker skips empty steps and reads `a[]` as a list item, while a write
  takes both literally, so the pruner drops what the checker accepted
  (`SchemaPrune.EmptyStepDisagrees`, `SliceStepDisagrees`). Acceptance guarantees
  survival exactly on paths without such steps (`SchemaPrune.SurvivesIffPlain`);
  for one schema the exact condition is `SchemaPrune.AcceptedKeptIff`.
- A healthy client refuses the rollback when the remembered version is not the
  installed one, because the installer asks for the version remembered before it
  overwrote that memory. It takes an outside change of the installed version
  between two calls, for example with the Helm command line
  (`HelmWitness.OutsideChangeMakesMemoryStale`); the exact condition is
  `HelmRuns.RolledBackIffMemoryFresh`.
- An install whose listing is forbidden reads the release as not found and rewrites
  revision 1 (`RevisionStore.BlindInstallBreaks`).
- The translator's merge keeps Ready as it is and rebuilds every other foreign
  condition from five fields: `ConditionProtocol.MirrorForeign`. The runs in
  `ConditionRuns` are therefore about conditions that carry those five fields only.

The annotator lists unstructured objects through the manager's client
(`pkg/discovery/annotator.go:110-115`, `cmd/vsp/main.go:169-184`), which has no
cache for them, so every reconcile gets the API server's key order:
`AnnotatorRuns.ListedChangesAtMostTwice` is the bound for this code, from any
state. Safety (`AnnotatorRuns.RunIsSafe`) does not depend on the order. The bound
would: with orders that change between reconciles a DPU could see three changes,
and `AnnotatorThreeRuns.ThreeChangesIff` says exactly when.

## Model

| member | source | states |
|---|---|---|
| `Inventory.SerialPassFirst` | pkg/discovery/inventory.go:131-145 | a DPU whose claimed serial is live gets that card exactly when no earlier listed DPU claims it |
| `InventoryExact.PciPassExact` | pkg/discovery/inventory.go:147-164 | the second pass, of annotations and cards: a DPU that won no serial claim is bound exactly when its trimmed address, raw or dashed, is the last card's that answers, nobody claims that card's serial, and no earlier such DPU addresses the same card; and to that card, whatever serial it carries |
| `InventoryExact.ClaimedSerialIs` | pkg/discovery/inventory.go:212-219 | the claimed serial is the one vendor serial annotation that is not blank |
| `InventoryExact.HasIdentityIff` | pkg/discovery/inventory.go:81-85 | identity is carried exactly where a vendor's serial, the address or the product name is more than white space |
| `InventoryExact.DpfFormIs` | pkg/discovery/types.go:57-63 | domain:bus:device.function becomes domain-bus-device |
| `InventoryExact.StampIs` | pkg/discovery/inventory.go:97-116 | the stamp entry by entry: the vendor's serial key, the product name, and for NVIDIA alone the DPF address |
| `Inventory.AllocationSound` | pkg/discovery/inventory.go:118-200 | over all four passes no card is handed out twice, only live cards are, and who holds which card is recorded both ways |
| `Inventory.AfterEmptySpec` | pkg/discovery/inventory.go:166-187 | the third pass extends the first two, binds only never-stamped DPUs, and stays sound |
| `AssignLoops.SerialLoop` | pkg/discovery/inventory.go:131-145 | the loop over serial claims fills `out` and `used` as the serial pass does |
| `AssignLoops.PciLoop` | pkg/discovery/inventory.go:147-164 | the loop over PCI claims fills `out` and `used` as the PCI pass does |
| `AssignLoops.ClearLoop` | pkg/discovery/inventory.go:166-177 | unbound DPUs are split into those to clear and those never stamped, in listing order |
| `AssignLoops.UnusedDevices` | pkg/discovery/inventory.go:202-210 | the live cards not in `used`, in order |
| `AssignLoops.PairLoop` | pkg/discovery/inventory.go:182-187 | the sorted never-stamped DPUs and sorted spare cards are paired one to one |
| `AssignLoops.AssignDevices` | pkg/discovery/inventory.go:118-200 | the whole procedure, run on maps and lists, gives every DPU what the four-pass specification gives it |
| `Annotator.SkippedPatchIsNoChange` | pkg/discovery/annotator.go:197-207 | when the comparison says equal and the patch is skipped, the stored annotations are the desired ones, although a missing entry reads as empty |
| `Annotator.StampedAddressAnswers` | pkg/discovery/inventory.go:97-116 | the stamp of an NVIDIA card carries its product name and an address the PCI lookup answers with that card |
| `Annotator.FirmwareKeysRead` | pkg/discovery/annotator.go:170-186 | a bound DPU's firmware URL, flavor and name keys of the card's vendor read their own settings, or what was there where a setting is empty |
| `Annotator.BoundCard` | pkg/discovery/inventory.go:129-198 | a first claimant of a live serial is bound to it; any other bound DPU has a card nobody claims |
| `Annotator.ClearMark` | pkg/discovery/inventory.go:166-177 | a DPU is marked for clearing exactly when it carries identity and neither claim pass bound it |
| `Annotator.StepOutcome` | pkg/discovery/annotator.go:53-108 | all a reconcile can leave: the claimed card's stamp, the stamp of an unclaimed card, no stamp, or an unstamped DPU as it was; every other DPU unchanged |
| `AnnotatorRuns.SoleClaimStays` | pkg/discovery/annotator.go:78-94 | a sole claimant of a live serial keeps it, alone, whoever reconciles |
| `AnnotatorRuns.StepKeepsNoDoubleClaim` | pkg/discovery/annotator.go:78-94 | if no live serial is claimed twice, no step makes two DPUs claim one |
| `AnnotatorRuns.RunIsSafe` | pkg/discovery/annotator.go:53-108 | over every run, in any order with any listing: never a double claim, and a live claim is kept to the end |
| `AnnotatorRuns.RunKeepsForeign` | pkg/discovery/annotator.go:150-168 | over every run an annotation that is neither identity nor firmware stays as it was |
| `AnnotatorRuns.ChangesBounded` | pkg/discovery/annotator.go:53-108 | whatever the listing orders, a stamp changes at most Rank times: at most three; `ThreeChangesIff` says when three are reached |
| `AnnotatorRuns.ChangesAtMostTwice` | pkg/discovery/annotator.go:53-108 | from a state without double claims, at most two changes per DPU in every run |
| `AnnotatorRuns.ListedChangesAtMostTwice` | pkg/discovery/annotator.go:110-131 | from any state at all, with the one listing order the API server gives, a stamp changes at most twice |
| `AnnotatorWitness.ThreeChanges` | pkg/discovery/annotator.go:110-131 | a hypothetical: with two listing orders taking turns, one DPU's stamp changes three times |
| `AnnotatorThreeRuns.ThreeChangesIff` | pkg/discovery/inventory.go:118-200 | for all states where PCI addresses decide nothing: some run with changing orders gives three changes exactly when the DPU shares a live claim without that card's stamp, there are more spare cards than unstamped DPUs before it, and it is not the one DPU left for one card |
| `AnnotatorCounts.UnstampedBoundIff` | pkg/discovery/inventory.go:179-187 | an unstamped DPU gets a card exactly when the serial and PCI passes leave more cards than there are unstamped DPUs sorted before it |
| `AnnotatorCounts.UnstampedGets` | pkg/discovery/inventory.go:179-187 | the unstamped DPU with i unstamped DPUs before it gets the card with i free cards at lower addresses |
| `AnnotatorCounts.LoserBoundIff` | pkg/discovery/inventory.go:189-198 | a stamped DPU left by both claim passes gets a card exactly when it is the only one and one card is left over |
| `AnnotatorRuns.QuietIffMaximum` | pkg/discovery/inventory.go:118-200 | for each listing order: no reconcile that lists in it changes a stamp, exactly when min(#DPUs, #cards) DPUs carry a card of their own and all others carry no identity |
| `AnnotatorConvergence.StepByStamp` | pkg/discovery/annotator.go:53-108 | the stamp a reconcile leaves depends on the stamps alone, whatever the other annotations |
| `AnnotatorConvergence.MaximumIsForever` | pkg/discovery/annotator.go:53-108 | a maximum match keeps every stamp, whoever reconciles and in whatever order they are listed |
| `AnnotatorConvergence.Converges` | pkg/discovery/annotator.go:53-108 | from any state, two full rounds per DPU under one listing order end in a maximum match |
| `FleetReconcile.ListsTheGroup` | pkg/discovery/annotator.go:110-148 | the listing of a reconcile enumerates exactly the DPUs of its node that this annotator owns, for one node or many |
| `FleetReconcile.GroupIff` | pkg/discovery/annotator.go:110-148 | who is matched together, from node names and product prefixes |
| `FleetReconcile.VendorsAreDisjoint` | pkg/discovery/annotator.go:131-148 | no product is two vendors' |
| `FleetReconcile.NodeViews` | pkg/discovery/annotator.go:110-131 | the listing loop keeps exactly the DPUs of the node this annotator owns, with their annotations |
| `FleetReconcile.Store.Reconcile` | pkg/discovery/annotator.go:53-108 | one reconcile moves the DPUs of its node by one protocol step and changes no other object and no other field |
| `PciBytes.VpdKeywords` | pkg/discovery/pci.go:299-314 | the keyword loop, in bounds on every byte string, finds the first SN value |
| `PciBytes.VpdSerial` | pkg/discovery/pci.go:269-297 | the resource loop, in bounds and terminating on every byte string, agrees with the resource walk |
| `PciBytes.KeywordsRoundTrip` | pkg/discovery/pci.go:299-314 | from an encoded keyword list the parser reads the trimmed value of the first SN keyword |
| `PciBytes.VpdRoundTrip` | pkg/discovery/pci.go:269-314 | for every list of small and large resources (Appendix I of PCI Local Bus Specification 3.0), an end tag and any trailing bytes: the SN of the first VPD-R that has one |
| `PciBytes.ConfigDSN` | pkg/discovery/pci.go:316-334 | the offset loop terminates on every buffer, cyclic chains included, with the walk's answer |
| `PciBytes.DsnExactlyWhenReachable` | pkg/discovery/pci.go:316-334 | a serial is returned exactly when a complete capability 0x0003 is reachable from 0x100 by strictly increasing pointers, and it is the first one's (section 7.9.3 of PCI Express Base Specification 4.0) |
| `PciBytes.HeaderRoundTrip` | pkg/discovery/pci.go:319-325 | a capability header encoded as the specification lays it out reads back its ID and next offset |
| `PciBytes.HexRoundTrip` | pkg/discovery/pci.go:316-334 | the digits decode back to the bytes; two upper-case hex digits per byte |
| `UniqueBoards.UniqueBySerial` | pkg/discovery/pci.go:195-212 | each serial once, none lost, each represented by its lowest PCI address |
| `Paths.Get` | pkg/mapping/path.go:26-47 | the cursor loop reads what the walk along the normalised path finds |
| `Paths.WriteFailsIffBlocked` | pkg/mapping/path.go:49-74 | a write fails exactly when a proper prefix of the path holds a value that is not an object |
| `Paths.FailedWriteUnchanged` | pkg/mapping/path.go:49-74 | a failing write leaves the object as it was |
| `Paths.WriteThenLookup` | pkg/mapping/path.go:49-74 | after a successful write the path reads the written value |
| `Paths.WriteFrame` | pkg/mapping/path.go:49-74 | every path that is neither prefix nor extension reads as before |
| `Paths.SetGetLaws` | pkg/mapping/path.go:26-74 | the four laws for `Set` and `Get` on textual paths |
| `Paths.NormalForms` | pkg/mapping/path.go:27-29 | a clean path, alone, after `$.` or a dot, in braces, or padded, is read as that path |
| `Paths.LookupSteps` | pkg/mapping/path.go:33-46 | reading goes one field at a time |
| `SchemaPrune.SchemaHasPath` | pkg/mapping/schema_path.go:22-55 | the cursor loop accepts exactly the paths that resolve, with the metadata exception |
| `SchemaPrune.PruneMap` | pkg/translation/dead_fields.go:135-157 | the recursive in-place pruning leaves the pruned object and reports exactly the dropped paths |
| `SchemaPrune.ConformsIffNothingDropped` | pkg/translation/dead_fields.go:98-157 | nothing is dropped, and nothing changes, exactly when every field is declared or under an open node |
| `SchemaPrune.PrunedConforms` | pkg/translation/dead_fields.go:98-157 | whatever the object, all that is left is declared or under an open node |
| `SchemaPrune.PruneTwice` | pkg/translation/dead_fields.go:98-157 | a second prune drops nothing |
| `SchemaPrune.PruneKeepsTheRest` | pkg/translation/dead_fields.go:135-157 | a leaf outside every dropped path still reads the same |
| `SchemaPrune.OpenIff` | pkg/translation/dead_fields.go:122-157 | where the pruner does not look further, by the schema's own keys |
| `SchemaPrune.PrunesFieldByField` | pkg/translation/dead_fields.go:135-157 | one level of pruning: exactly the fields declared under `properties` stay, objects pruned in turn |
| `SchemaPrune.DroppedBelow` | pkg/translation/dead_fields.go:135-157 | what is dropped below a declared object is reported under that field |
| `SchemaPrune.SliceStep` | pkg/mapping/schema_path.go:33-51 | a `[]` step goes through a declared field with described items |
| `SchemaPrune.AcceptedWriteConforms` | pkg/mapping/schema_path.go:22-55 | writing a non-object at an accepted path keeps an object conforming |
| `SchemaPrune.AgreeOnOneWrite` | pkg/translation/dead_fields.go:135-157 | on paths without empty or `[]` steps: the pruner keeps a written leaf exactly when the path checker accepts the path or the path enters an open node |
| `SchemaPrune.KeptIffDeclared` | pkg/translation/dead_fields.go:135-157 | on every path: the pruner keeps a written leaf exactly when its steps are literally declared or it enters an open node |
| `SchemaPrune.AcceptedKeptIff` | pkg/mapping/schema_path.go:22-55 | an accepted textual path below spec: its write survives exactly under that condition |
| `SchemaPrune.SurvivesIffPlain` | pkg/mapping/schema_path.go:29-53 | over all schemas, acceptance guarantees survival exactly for paths without empty or `[]` steps |
| `SchemaPrune.EmptyStepDisagrees` | pkg/mapping/schema_path.go:30-32 | `spec..a` is accepted, written under the empty name, and dropped |
| `SchemaPrune.SliceStepDisagrees` | pkg/mapping/schema_path.go:33-51 | `spec.a[]` is accepted on a list field, written under that literal name, and dropped |
| `SchemaPrune.BuildObject` | pkg/mapping/engine.go:127-139 | the field loop of an emitted object, stopping at the first failing write |
| `SchemaPrune.BuiltFieldsRead` | pkg/mapping/engine.go:127-139 | a built object reads every field that no later write touches as it was written |
| `SchemaPrune.AcceptedObjectSurvives` | pkg/translation/dead_fields.go:98-111 | an object built only from accepted writes loses nothing to the pruner |
| `Conditions.ApplyFind` | pkg/translation/translation_controller.go:409-479 | after a merge an edited type holds what its writer wants and every other type what it held |
| `Conditions.ApplyKeepsOrder` | pkg/translation/translation_controller.go:409-479 | existing entries keep their order, one entry per type, new types at the end |
| `Conditions.ApplyIdempotent` | pkg/lifecycle/lifecycle_controller.go:309-358 | merging the same wishes into the result changes nothing |
| `ConditionWriters.MergeOwnedConditions` | pkg/lifecycle/lifecycle_controller.go:309-358 | the nested loops apply the manager's wishes, and the changed flag is true exactly when the list changed |
| `ConditionWriters.UpsertReadyCondition` | pkg/vsp/ready.go:122-178 | the rebuild loop rewrites or appends Ready, nothing else, and reports a change exactly when there is one |
| `ConditionWriters.MergeConditions` | pkg/translation/translation_controller.go:409-479 | the `byType` and `order` loops apply the mirrored conditions; an unchanged report means an unchanged list and, for distinct types, the converse |
| `ConditionProtocol.MirrorForeign` | pkg/mapping/engine.go:246-314 | a type the translator does not write: Ready untouched, any other kept or rebuilt from the five known fields |
| `ConditionProtocol.MirrorWritesIff` | pkg/translation/translation_controller.go:409-479 | which desired conditions are written, with which words, and which are passed over |
| `ConditionProtocol.PreservedIff` | pkg/mapping/engine.go:287-314 | a source condition is carried through exactly when its type is not blank and none of the mapping's own has that type, up to case and padding |
| `ConditionProtocol.MergeWrites` | pkg/translation/translation_controller.go:376-479 | a type the writer writes ends with that writer's entry for what stood there |
| `ConditionProtocol.MergeFrame` | pkg/translation/translation_controller.go:376-479 | no writer alters or loses a type it does not write, up to the five fields |
| `ConditionProtocol.MergeKeepsTime` | pkg/translation/translation_controller.go:409-479 | no merge loses a condition, and a present transition time changes only with the status |
| `ConditionProtocol.MergeConditionsIdempotent` | pkg/translation/translation_controller.go:409-479 | the translator's merge is idempotent at any later clock |
| `ConditionProtocol.OwnedAndReadyIdempotent` | pkg/lifecycle/lifecycle_controller.go:309-358 | the manager's and the daemon's merges are idempotent at any later clock |
| `ConditionProtocol.MirrorIdempotent` | pkg/mapping/engine.go:246-314 | status assembly followed by the merge, copied-through conditions included, is idempotent |
| `ConditionRuns.NoInterference` | pkg/translation/translation_controller.go:307-336 | after every interleaving of reads and conditional writes a condition is what the committed writes that write its type made of it |
| `ConditionRuns.SingleWriter` | pkg/lifecycle/lifecycle_controller.go:279-307 | a condition is decided by its one writer alone, whatever the others did in between |
| `ConditionRuns.ForeignUntouched` | pkg/vsp/ready.go:104-120 | a condition nobody in the writer table owns is never touched |
| `ConditionRuns.TimeMovesWithStatus` | pkg/vsp/ready.go:122-178 | in every reachable state no event loses a condition or moves its time without its status |
| `ConditionRuns.CommittedIsMeant` | pkg/lifecycle/lifecycle_controller.go:279-307 | a committed write is read back in its writer's own words, once per type, with the time kept or set as the status stood or moved |
| `ConditionRuns.HealthIsReported` | pkg/vsp/ready.go:122-178 | after a committed health write Ready is "True" exactly for a healthy device and "False" otherwise, with the reason and message of each |
| `Translation.AnnSourceInjective` | pkg/translation/translation_controller.go:504-512 | the provenance string names one source |
| `Translation.ChildKeyInjective` | pkg/translation/translation_controller.go:226-228 | the child key names one object |
| `Translation.StampIs` | pkg/translation/translation_controller.go:480-510 | a cluster-scoped source or one in the child's namespace stamps an owner reference, any other the annotation, never both, and the three labels |
| `Translation.OwnedIff` | pkg/translation/translation_controller.go:216-224 | owned exactly by a reference of this kind, name and non-empty UID, or by this source's annotation |
| `Translation.ApplyAll` | pkg/translation/translation_controller.go:149-154 | after the apply loop exactly the emitted objects were added or stamped, each owned by the source |
| `Translation.PruneStaleChildren` | pkg/translation/translation_controller.go:178-214 | deletes exactly the listed children of this source that are not emitted |
| `Translation.ListChildObjects` | pkg/translation/translation_controller.go:341-371 | the labelled objects of the emitted kinds |
| `Translation.ApplyAndPrune` | pkg/translation/translation_controller.go:149-228 | whatever was there before, the lasting children of the source are exactly the emitted ones, and nothing neither emitted nor owned changes |
| `Translation.OthersAreNotOwned` | pkg/translation/translation_controller.go:216-224 | a child stamped by another source, over whatever was there, same-named in another namespace included, is not owned by this one |
| `Translation.RecreatedOwnsIff` | pkg/translation/translation_controller.go:216-224 | a source created again under its name owns the old source's child exactly on the annotation track |
| `TranslationMachine.NextKeeps` | pkg/translation/translation_controller.go:88-154 | every API call, crash, user edit, and change of a child or its finalizers keeps the invariant |
| `TranslationMachine.NoOrphan` | pkg/translation/translation_controller.go:232-269 | in every reachable state a child annotated for a source that is gone, or has lost the cleanup finalizer, is terminating and held by a finalizer of its own |
| `TranslationMachine.GuardedIffNoHeldOrphan` | pkg/translation/translation_controller.go:232-269 | in every reachable state: every annotated child has its source with the cleanup finalizer, exactly when no child is so held |
| `TranslationMachine.GuardedUntilDroppedEarly` | pkg/translation/translation_controller.go:234-245 | one step breaks that exactly when it drops the finalizer while an annotated child is still stored |
| `TranslationMachine.UnheldRunGuarded` | pkg/translation/translation_controller.go:232-269 | over every run in which no child gets a finalizer of its own, an annotated child exists only while its source exists with the cleanup finalizer |
| `TranslationMachine.HeldChildOutlivesSource` | pkg/translation/translation_controller.go:250-269 | a run from the empty cluster that ends with the source gone and its held child stored |
| `Versions.ParseVersion` | pkg/lifecycle/version.go:192-222 | the loop over components fills major, minor and patch, and fails, as the component-wise parse does |
| `Versions.ParseFormat` | pkg/lifecycle/version.go:192-222 | a printed version, with or without "v", with any pre-release or build suffix, parses back |
| `VersionsExact.ParseSound` | pkg/lifecycle/version.go:192-222 | whatever parses has one to three components of digits, after an optional v and before an optional suffix, and is read as their values |
| `VersionsExact.ParseComplete` | pkg/lifecycle/version.go:192-222 | and everything of that form parses, to that version |
| `VersionsExact.ShortVersions` | pkg/lifecycle/version.go:192-222 | one or two components: the missing ones are zero |
| `VersionsExact.SkewIff` | pkg/lifecycle/version.go:141-169 | the window is from 26.4.0 up to but not including 27.0.0 |
| `VersionsExact.UrlIff` | pkg/lifecycle/config.go:180-187 | which texts look like a chart URL |
| `Versions.TagIsRelease` | pkg/lifecycle/version_policy.go:72-87 | every tagged version is a valid release version and parses back |
| `Versions.PinIsValid` | pkg/lifecycle/version_policy.go:72-105 | the pinned version is a valid desired version inside the window |
| `Versions.DecideAgainstPin` | pkg/lifecycle/version_policy.go:127-158 | every valid installed text is decided by the version it parses to: no-op at the pinned version, upgrade below it, downgrade above it only where allowed; everything else is rejected |
| `Helm.EnsureHonest` | pkg/lifecycle/helm_client.go:548-640 | whatever the client's calls did and reported: upgraded only with the stored release deployed at the pin, rolled back only with it deployed at the last known good version |
| `HelmExact.ReportsAreTrue` | pkg/lifecycle/helm_client.go:548-640 | the same in versions and statuses: upgraded only with the release deployed at 26.4.0, rolled back only with it deployed at the remembered version, or the installed one where none is |
| `HelmExact.LastKnownGoodReported` | pkg/lifecycle/helm_client.go:524-546 | whatever becomes of a managed release, the report names the version remembered before the call, or the installed one |
| `Helm.EnsureBounded` | pkg/lifecycle/helm_client.go:548-589 | at most `attempts()` upgrades and one rollback; after a done context, timeout, cancel or unknown outcome nothing more is issued |
| `HelmExact.UncertainStops` | pkg/lifecycle/helm_client.go:570-585 | an upgrade that reported a timeout, a deadline, a cancel or an unknown outcome is the last thing issued, with no rollback, reported as timed out or unknown unless found upgraded |
| `HelmExact.UncertainAttempt` | pkg/lifecycle/helm_client.go:565-585 | what one such upgrade is answered with, depending on what the read finds |
| `HelmExact.GateReports` | pkg/lifecycle/helm_client.go:480-502 | every refusal before the first call, with its report |
| `HelmExact.StandingReports` | pkg/lifecycle/helm_client.go:524-542 | what is reported of a managed release at the pin, malformed, or above the pin |
| `HelmExact.UpgradeStores` | pkg/lifecycle/helm_client.go:288-338 | the release an effective upgrade stores, field by field |
| `HelmExact.RollbackStores` | pkg/lifecycle/helm_client.go:342-372 | the release an effective rollback stores, field by field |
| `HelmExact.InstallStores` | pkg/lifecycle/helm_client.go:509-519 | a first install stores revision 1 of the pinned chart or reports the failure |
| `HelmExact.AdoptedIff` | pkg/lifecycle/helm_client.go:656-702 | exactly when a release that is not ours is adopted, and that only two labels change |
| `Helm.EnsureFrame` | pkg/lifecycle/helm_client.go:479-546 | no other release and no other remembered version changes |
| `HelmClient.MemoryHelmClient.Upgrade` | pkg/lifecycle/helm_client.go:288-338 | refuses a missing or unmanaged release, saves the last known good once, then takes effect or not, as the specified call |
| `HelmClient.MemoryHelmClient.Rollback` | pkg/lifecycle/helm_client.go:342-372 | restores only the remembered version, one revision up |
| `HelmClient.RollbackAfter` | pkg/lifecycle/helm_client.go:604-640 | the rollback after the last attempt, on the client object |
| `HelmClient.TryUpgrade` | pkg/lifecycle/helm_client.go:552-586 | one pass of the retry loop, on the client object |
| `HelmClient.UpgradeLoop` | pkg/lifecycle/helm_client.go:548-589 | the retry loop is the recursive specification |
| `HelmClient.EnsureInstalled` | pkg/lifecycle/helm_client.go:479-546 | the whole call on the client object is the specified transition |
| `HelmRuns.EnsureKeeps` | pkg/lifecycle/helm_client.go:479-640 | from the invariant one call ends upgraded, timed out, unknown, rolled back to the starting version, or with a rollback the client itself refused; it changes nothing otherwise |
| `HelmRuns.RunIsSafe` | pkg/lifecycle/helm_client.go:288-372 | over every run of calls and faults: version v0 or the pin, same releases, revision never back, and an unchanged revision is an unchanged release |
| `HelmRuns.OneReleaseThroughout` | pkg/lifecycle/helm_client.go:479-640 | from one managed deployed release with nothing remembered there is always exactly one release, at v0 or the pin |
| `HelmRuns.PinIsForever` | pkg/lifecycle/helm_client.go:524-531 | once at the pinned version, however it is written, every later call leaves the whole world as it is |
| `HelmRuns.UnmanagedForever` | pkg/lifecycle/helm_client.go:656-675 | over every run of calls and faults that asks for no adoption, a release that is not ours is left alone |
| `HelmRuns.EnsureReachesPin` | pkg/lifecycle/helm_client.go:548-589 | fewer ordinary failures than attempts, then an upgrade that takes effect, even one that reports an error: the call ends upgraded at the pin |
| `HelmRuns.RolledBackIffMemoryFresh` | pkg/lifecycle/helm_client.go:524-546 | with all attempts failed and a healthy rollback, rolled back exactly when the remembered version is absent, empty, or valid and equal to the installed one |
| `HelmWitness.RolledBackIffSame` | pkg/lifecycle/helm_client.go:604-640 | for every installed version below the pin and every remembered one: rolled back exactly when they are the same version |
| `HelmWitness.OutsideChangeMakesMemoryStale` | pkg/lifecycle/helm_client.go:524-546 | two calls with an outside change from v24.0.0 to v25.0.0 between them: the first is rolled back, the second is not |
| `RevisionStore.LatestHelmSecret` | pkg/lifecycle/secret_helm_client.go:214-234 | the best/bestVer/found scan is the specified one |
| `RevisionStore.LatestIsBest` | pkg/lifecycle/secret_helm_client.go:214-234 | it returns an eligible Secret of the highest version, a deployed one among equals |
| `RevisionStore.FindRevisionSpec` | pkg/lifecycle/cluster_helm_client.go:358-375 | found exactly when some listed revision has the version, and then it is the first of them |
| `RevisionStore.FindRevisionLoop` | pkg/lifecycle/cluster_helm_client.go:358-375 | the loop returns the first match |
| `RevisionStore.ClusterHelmClient.Install` | pkg/lifecycle/cluster_helm_client.go:75-87 | writes revision 1 only where no release is read, dying after any write |
| `RevisionStore.ClusterHelmClient.Upgrade` | pkg/lifecycle/cluster_helm_client.go:89-103 | supersedes, then stores the next revision, dying after any write |
| `RevisionStore.ClusterHelmClient.Rollback` | pkg/lifecycle/cluster_helm_client.go:105-128 | the same with the chart and version found in the history |
| `RevisionStore.NextKeeps` | pkg/lifecycle/cluster_helm_client.go:182-199 | one operation cut short anywhere, unless it is a blind install, keeps revisions 1..n or makes them 1..n+1, and rewrites no stored revision's payload |
| `RevisionStore.BlindInstallBreaks` | pkg/lifecycle/secret_helm_client.go:98-100 | an install whose listing is forbidden breaks the store exactly when two or more revisions are stored, and rewrites the history exactly when it writes another payload than revision 1 holds; nothing else does either |
| `RevisionStore.LatestIsNewest` | pkg/lifecycle/secret_helm_client.go:92-113 | in any listing order the read returns revision n |
| `RevisionStore.RevisionsAreContiguous` | pkg/lifecycle/cluster_helm_client.go:294-375 | over every run with crashes and without blind installs: revisions exactly 1..n, at most one labelled deployed and that one n, every read returns n |
| `RevisionStore.RollbackYieldsNext` | pkg/lifecycle/cluster_helm_client.go:105-128 | a completed rollback to a valid version in a history that can be listed yields revision n+1 at that version, copied from it; any other changes nothing |
| `RevisionStore.UpgradeYieldsNext` | pkg/lifecycle/cluster_helm_client.go:89-103 | a completed upgrade stores revision n+1 at the chart and version asked for, deployed, and leaves n superseded |
| `RevisionStore.InstallYieldsFirst` | pkg/lifecycle/cluster_helm_client.go:75-87 | a completed install into an empty store stores revision 1 at the chart and version asked for; into any other nothing |
| `CleanupPlan.DeletableIff` | pkg/lifecycle/cleanup.go:200-247 | deletion is allowed exactly for a named release with this adapter's owner label, a well-formed mode and no other storage owner |
| `CleanupPlan.ReferencedByOpiLoop` | pkg/lifecycle/cleanup.go:275-288 | flagged or named by an OPI object; the second test of the loop adds nothing |
| `CleanupPlan.ReferencedIff` | pkg/lifecycle/cleanup.go:275-288 | referenced means flagged, or named by an OPI object of its namespace or of none |
| `CleanupPlan.StillRequiredLoop` | pkg/lifecycle/cleanup.go:355-362 | some object of the namespace is still referenced |
| `CleanupPlan.DecideCleanup` | pkg/lifecycle/cleanup.go:291-353 | the plan built by appending is the specified plan |
| `CleanupPlan.SelectedIff` | pkg/lifecycle/cleanup.go:333-349 | selected exactly when listed, in the release namespace, not another's, unreferenced |
| `CleanupPlan.ReasonIff` | pkg/lifecycle/cleanup.go:333-349 | which reason each object is kept for |
| `CleanupPlan.CrdsIff` | pkg/lifecycle/cleanup.go:326-331 | definitions go exactly where allowed, with no other tenant, dependent or OPI object and no flagged object in the namespace |
| `CleanupPlan.EveryObjectAccounted` | pkg/lifecycle/cleanup.go:333-349 | every listed object is selected or skipped with its reason, and the two lists add up |
| `CleanupPlan.DecideMonotone` | pkg/lifecycle/cleanup.go:291-362 | more tenants, dependents or references never enlarge the planned objects or definitions |
| `CleanupRun.PolicyIff` | pkg/lifecycle/cleanup.go:249-259 | the policy is delete-owned exactly for that word, in any case and padding |
| `CleanupRun.CleanupInstallations` | pkg/lifecycle/cleanup.go:380-525 | the whole procedure over a world that changes between any two steps is the specified outcome |
| `CleanupRun.StillProtectedLoop` | pkg/lifecycle/cleanup.go:527-534 | a live object of the same key is referenced, or the object is |
| `CleanupRun.DeleteLoop` | pkg/lifecycle/cleanup.go:504-516 | which deletes are issued, which succeed, and what is reported for the rest |
| `CleanupRun.CallIff` | pkg/lifecycle/cleanup.go:504-534 | a delete is issued exactly after a removal, for listed objects of the namespace, not another's, that are at neither lookup flagged or named by an OPI object of their namespace or of none |
| `CleanupRun.NothingUnreported` | pkg/lifecycle/cleanup.go:504-524 | after a removal every listed object is deleted or reported with a reason |
| `CleanupRun.ReportIsHonest` | pkg/lifecycle/cleanup.go:490-524 | deleted is reported exactly when the release was removed, and no skipped or failed delete is reported as deleted |
| `CleanupRun.ActionIff` | pkg/lifecycle/cleanup.go:413-524 | gone, preserved, deleted or failed, from what the reads showed |
| `CleanupRun.OwnershipReported` | pkg/lifecycle/cleanup.go:429-488 | which class is reported |
| `CleanupRun.KeptWithReason` | pkg/lifecycle/cleanup.go:301-323 | a release that is kept is reported with its reason, and a note where an annotation was not a policy |
| `CleanupRun.CleanupMonotone` | pkg/lifecycle/cleanup.go:380-525 | more tenants, dependents or references at either lookup never enlarge what is deleted |
| `CleanupMachine.EveryMutationJustified` | pkg/lifecycle/cleanup.go:413-534 | over every run of cleanups, failed calls, crashes and outside changes: a release is removed only when adapter-owned at that instant, of its planned class at the second read, under a delete-owned policy for that class; an object only from the release namespace, not another's, unreferenced at the first lookup, and at the second when that lookup succeeded |
| `CleanupMachine.MachineRemovesIff` | pkg/lifecycle/cleanup.go:413-502 | without failed calls and crashes the machine removes the release exactly where the procedure does |
| `CleanupMachine.MayGoIff` | pkg/lifecycle/cleanup.go:200-273 | from the raw labels and annotations, exactly which releases the policies let go |
| `CleanupMachine.MutationsAreRecorded` | pkg/lifecycle/cleanup.go:490-516 | the cleanup changes the stored release and objects only by the mutations so justified: that release, and the objects with the key of the one named |
| `CleanupMachine.NotOursNoMutation` | pkg/lifecycle/cleanup.go:442-464 | however often releases and cleanups come and go: while all are external, invalid or retained, nothing is mutated |
| `ResourceIndex.MemoryResourceIndex.Lookup` | pkg/lifecycle/cleanup.go:133-150 | counts the other tenants and lists the objects, flagged from the second look on when asked |
| `ResourceIndex.OthersCount` | pkg/lifecycle/cleanup.go:136-140 | how many tenants count |
| `ResourceIndex.MemoryResourceIndex.DeleteDataplane` | pkg/lifecycle/cleanup.go:152-168 | moves every object with the key to the deleted list and keeps the rest in order |
| `ResourceIndex.DeletionPartitions` | pkg/lifecycle/cleanup.go:152-168 | what is gone carries the key, what stays does not, together they are what was there |
| `ResourceIndex.CleanupWithIndex` | pkg/lifecycle/cleanup.go:429-516 | the cleanup run on the index object, fresh or looked at before, reports as specified for what its next two looks show |
| `ResourceIndex.RemainingIff` | pkg/lifecycle/cleanup.go:152-168 | after it an object is left exactly when no issued delete had its key |
| `ResourceIndex.LateReferenceProtects` | pkg/lifecycle/cleanup.go:133-150 | when references appear between the two looks the release goes in the same cases and no listed object goes |
| `Locks.ReleaseLocks.MutexFor` | pkg/lifecycle/helm_client.go:185-201 | one key always yields the same mutex, and two keys never share one |
| `Locks.ProgramsAreOrdered` | pkg/lifecycle/cluster_helm_client.go:130-169 | every thread of the live release takes locks in the order config, release, claim, because the guard refuses the live name before the mutation lock |
| `Locks.GuardIff` | pkg/lifecycle/cluster_helm_client.go:152-169 | which mutations get past the guard |
| `Locks.NoDeadlock` | pkg/lifecycle/lifecycle_controller.go:145-171 | any number of threads in any interleaving: no mutex held twice, and while work is left some thread can move |
| `Locks.SectionsExclude` | pkg/lifecycle/helm_client.go:504-506 | in every interleaving two threads guarding with one release lock never both use the Helm client, and two reconciles of one config never both work |
| `Locks.SchedulesEnd` | pkg/lifecycle/helm_client.go:504-506 | every step uses up one lock operation, so interleavings end with every thread finished |

## Left out

- Text: `strings.TrimSpace`, `ToLower` and `EqualFold` are modelled for ASCII only.
- Annotation keys are a datatype; the claimed serial is read in a fixed vendor order, which is the code's answer while at most one vendor's serial key is set.
- `slices.SortFunc` is modelled by an insertion sort; equal keys (two cards on one PCI address) keep their listing order.
- Annotator: a reconcile is one step against the stored objects; changes between its reads and its patch are not modelled.
- AnnotatorThreeRuns.ThreeChangesIff: states in which a PCI annotation leads to a card nobody claims by serial, and buses on which one card's stamped address leads to another card, have only the upper bound.
- Paths.SetGetLaws: values are unshared trees and a write is a function on them, so aliasing between two objects and the in-place cursor are not captured.
- SchemaPrune.AcceptedObjectSurvives: the writes are in normal form without empty or `[]` steps and write no objects; `SurvivesIffPlain` shows that no other path can be admitted.
- ConditionRuns.NoInterference: conditions other than Ready carry the five known fields only; extra fields such as observedGeneration are dropped by the translator.
- Translation.ApplyAndPrune: a terminating object that is emitted again is still terminating; kinds are not emitted in two API groups.
- Translation.OthersAreNotOwned: nobody else set an owner reference that names this very source.
- TranslationMachine.NoOrphan: users do not strip the cleanup finalizer or a child's provenance, two sources do not emit the same object, and one mapping per source kind.
- `ShouldPrune`, the wait for the vendor operator and its APIs, and the retry after an undeclared-field error only add early exits and are not modelled.
- Helm.EnsureHonest: a call that reports success returns what is stored; a client that lies about that is outside the model. Failure messages and the upgrade history list are not kept.
- HelmRuns.RunIsSafe: nobody else changes the stored version between calls, and a reported success took effect.
- RevisionStore.RevisionsAreContiguous: one writer at a time, no uninstall, no install whose listing is forbidden, and the listing shows only this release's own revisions; the version label is the number itself.
- `SecretHelmClient.ClaimRelease` with its conflict retry is not modelled beyond its lock; the in-process claim is.
- CleanupRun.CallIff: both dependent lookups succeed; the code ignores an error of the second one and goes on with an empty view, as `CleanupMachine` does. The code reports deleted definitions but deletes none; only the report is modelled.
- Locks.NoDeadlock: the threads work on the live release; threads on other release names may take the mutation lock.
- CEL evaluation, YAML loading, release payload codecs, chart rendering, sysfs reads, the gRPC server, webhooks, RBAC, OLM, the detecting installer, log redaction, dependency checks and status messages are left out: foreign libraries, I/O, or branch-by-branch classification.
