# Verified models of 1Panel's stateful cores

This project models, in Dafny, the parts of 1Panel that carry real invariants, and proves what each of them promises.
`dafny verify dfyconfig.toml` checks all of it. Go and Python code that changes things step by step is modelled with
classes, arrays and loops; every such method is proved against a function on values, and the properties are lemmas
about those functions, for every input and every run.

**Alert configuration synchronisation** (`AlertConfig`, `AlertRules`, `AlertIndex`, `AlertSyncSpec`, `AlertSyncMaps`,
`AlertSyncProofs`, `AlertSyncOrder`, `AlertSyncStable`, `AlertSyncUnsettled`, `AlertSyncExact`, `AlertSync`,
`AlertSecrets`). `SyncAll` merges an incoming list into a table by four rules, with three redundant indexes over the
unmatched old rows. The specification knows one list only, the old rows no item has landed on; the class `Transaction`
keeps the indexes, and its invariant says that each of them describes that list. On the specification: no old row is
matched twice, referenced rows survive and the rows are counted; where each item lands, what its row holds column by
column and when an item is refused are said of the rows alone. A second run changes nothing exactly when the items are
*stable* and those matched by content have their rows in their order (exactly, unless two of these save the same);
when all carry a UID it succeeds at all exactly when they are stable. Distinct trimmed UIDs, contents and singleton
kinds are enough; two items can change places, and then the second run is not the first again. With the source's own
checks, a synchronisation never leaves an active custom row without a sealed secret.

**Alert delivery** (`AlertDelivery`, `AlertDeliveryProofs`, `AlertDeliveryExact`). Reserve, finalise and clean as
transactions, each with exactly when it does what; a run is any sequence of them. Each log leaves Pushing once at
most, its task is then fixed for good, and a quota's count is its deliveries plus its outstanding reservations. The
Boolean of `FinalizePendingAlertTask` is true, together with an error, in the one case where the transaction was
rolled back.

**Release builder** (`ReleasePaths`, `ReleaseModel`, `ReleaseBuilder`, `ReleaseProofs`, `ReleaseManifestProofs`,
`ReleaseVerifyProofs`, `ReleaseContents`). Path normalisation, collisions, git, snapshot and external components, the
manifest and its verification. When a release can be prepared and which trees are accepted is said exactly. Whatever
is prepared is accepted by verification; a release holds exactly the selected files and its manifest describes every
component; one digest means one set of files; a tampered release is refused, and so is one whose external trees have
drifted; a failed preparation publishes nothing.

**Firewall** (`FirewallRules`, `FirewallNormal`, `FirewallExpansion`, `FirewallFamilies`, `FirewallPolicy`,
`FirewallPolicyProofs`, `FirewallStored`, `FirewallReadings`, `FirewallImports`, `FirewallExact`, `FirewallOrder`,
`FirewallRuleRepo`, `FirewallRuleWrites`, `FirewallRevisions`, `PortGuardRepo`, `PortGuardProofs`). A rule text is
given a meaning, the packets it speaks of; normal forms and the expansion into atomic rules are proved to keep it, and
when a rule is taken at all and what its words decide is said of its texts. A rule that was stored and compiled for
any provider admits exactly the packets it speaks of when an inet rule's zero-length prefix is taken for every address
of both families, which is how the normal form takes it. Read as it stands, the rule keeps its meaning if and only if
that widening reaches no further kind of packet; an inet rule from "0.0.0.0/0" does, and lets IPv6 in. UFW alone
splits an inet rule by family before it is normalised, passing over what has no normal form: nothing the rule admits
is lost by that, and nothing is widened. So a rule imported from any firewall into any other admits exactly its
packets as they stand, unless it is an inet rule of firewalld whose two readings differ. For texts that were not
stored the exact condition is given too: an inet source spelled "any" compiles for IPv4 alone. The order of rules is
canonical exactly when the comparison tells different entries apart. Optimistic revisions lose no update exactly when
every creation under a used UUID puts the last row back or starts above its revision, as restoring a deleted record
does; a revision has one writer exactly when it starts above. The two partitions of the port-guard table stay apart.

**Share limiter** (`ShareLimiter`, `ShareLimiterProofs`, `ShareHandlerProofs`, `ShareServed`). Token buckets that are
deleted after half an hour. Deletion changes no decision if and only if the two clock reads of a request lie at most
half an hour less one refill period apart. In any stretch of requests the handler serves an address, or a code, no
more than the burst plus what refilled meanwhile, and whoever waits for a token is served.

**Log retention** (`LogNames`, `LogRetention`, `LogLayouts`, `LogRestarts`, `LogScans`). A roll names its file after
the process's log name, a dash, a time and the suffix; a restart scans the directory and reads the time back from
behind the first dash. It reads every roll back if and only if the name holds no dash and the suffix occurs at the end
first. Over all runs of rolls and restarts the newest files are kept, exactly when the name holds no dash: core's own
name, 1Panel-Core, holds one, so each of its processes starts with an empty queue and leaves its files behind for
ever. The startup takes up files of other layouts too, and compares two of them at the offsets of one: over any
directory it removes the oldest files alone if and only if no slice is out of range and every two files of different
times are compared truly.

**Smaller cores**: the wrapped-table reader (`SkillTable`, `SkillTableProofs`), whose round trip holds exactly when no
row's first cell wraps, the two readers of role bindings (`RoleBindings`, `RoleBindingsExact`) and endpoint URLs
(`Endpoints`). `Text`, `Folds` and `StableSort` are shared.

The database is a table in memory with its unique indexes, the file system a map from path to content and mode, time a
number. UUIDs, clocks, JSON, hashing, fnmatch, git and net/netip are parameters; what is assumed of them is in the
predicates `Lawful`, `RefusedPortsIdle`, `FreshUuids`, `Injective` and `LawfulAddresses`.

## Model

| member | source | states |
|---|---|---|
| AlertSync.AlertStore.SyncAll | agent/app/repo/alert.go:458-610 | with the three indexes the table ends as the one-list specification says, whatever order the maps are visited in; an error leaves the table as it was |
| AlertSync.Transaction.constructor | agent/app/repo/alert.go:482-497 | after the first loop every map describes exactly the old rows |
| AlertSync.Transaction.SyncItem | agent/app/repo/alert.go:499-592 | one turn of the loop is one step of the specification, and the indexes still agree |
| AlertSync.Transaction.SyncItems | agent/app/repo/alert.go:498-592 | the whole loop, up to the first item that fails |
| AlertSync.Transaction.SyncSingleton | agent/app/repo/alert.go:505-531 | an item of the singleton kind lands on the unmatched singleton row or is inserted |
| AlertSync.Transaction.LandByUid | agent/app/repo/alert.go:533-549 | the row its UID names leaves all three indexes |
| AlertSync.Transaction.LandByKey | agent/app/repo/alert.go:551-565 | the first row with the content key leaves all three indexes, or nothing changes |
| AlertSync.Transaction.LandByKind | agent/app/repo/alert.go:567-580 | the first unreferenced row of the kind leaves all three indexes, or nothing changes |
| AlertSync.Transaction.Insert | agent/app/repo/alert.go:582-591 | a new row, which no index gains |
| AlertSync.Transaction.SweepOld | agent/app/repo/alert.go:593-604 | exactly the old rows that are neither referenced nor landed on are deleted |
| AlertSyncMaps.LookupsAgree | agent/app/repo/alert.go:499-591 | the decisions taken from the maps are those taken from the one list |
| AlertSyncMaps.LandingKeepsAgreement | agent/app/repo/alert.go:534-579 | taking a row out of the indexes keeps them all describing the same open rows |
| AlertSyncMaps.SingletonKeepsAgreement | agent/app/repo/alert.go:506-512 | a landing on the singleton row changes the singleton map and the consumed set alone |
| AlertSyncMaps.ReadingKeepsAgreement | agent/app/repo/alert.go:482-497 | reading one more old row keeps them all describing the rows read |
| AlertSyncMaps.InsertKeepsAgreement | agent/app/repo/alert.go:582-591 | an inserted row changes no map |
| AlertSyncMaps.LoadUsedIds | agent/app/repo/alert.go:669-690 | the loop collects the numbers of all method lists |
| AlertSyncMaps.UsedIdsMeaning | agent/app/repo/alert.go:675-688 | an identifier is used exactly when some alert's list names it as a 64-bit number |
| AlertIndexes.ConfigIndex.PopFirst | agent/app/repo/alert.go:713-726 | the first row of a slot, which is removed; no empty slot stays |
| AlertIndexes.ConfigIndex.PopUnused | agent/app/repo/alert.go:728-750 | the first unreferenced row of a slot, spliced out of it |
| AlertIndexes.ConfigIndex.DeleteById | agent/app/repo/alert.go:752-766 | whatever order the slots are visited in, the row is gone from every slot |
| AlertConfigs.InheritSettles | agent/app/repo/alert.go:618-639 | a row that an item was saved to takes the same item again without changing |
| AlertConfigs.PrepareSettles | agent/app/repo/alert.go:582-591 | so does a row that was inserted for the item |
| AlertSyncProofs.RunConforms | agent/app/repo/alert.go:498-592 | over every run: each item lands on a row of its own, old rows keep identifier and kind, unmatched ones are unchanged |
| AlertSyncProofs.SyncConserves | agent/app/repo/alert.go:476-609 | every item is held by its own row, referenced rows are kept, unreferenced unmatched rows are gone, and the rows number the items plus the referenced unmatched rows |
| AlertSyncExact.SyncSaves | agent/app/repo/alert.go:498-639 | in every successful run the row an item was placed on has the item's kind and texts; no secret if it is not custom, else the item's, else the old row's; the item's UID, else the old row's, else the one drawn |
| AlertSyncExact.SyncLands | agent/app/repo/alert.go:499-591 | and that row is the last singleton row unless it was taken, or the row of its UID, else the first open one of its content, else the first open unreferenced one of its kind, else a new one |
| AlertSyncExact.StepExactly | agent/app/repo/alert.go:499-667 | an item is refused for a UID of another kind, an old row of another kind, a secret that fails the check unless it repeats a disabled row, or a UID that another row has; otherwise it is taken |
| AlertSyncExact.SyncFailsWithFirst | agent/app/repo/alert.go:458-610 | a run fails with the error of the first item that is refused |
| AlertSyncStable.SyncTwice | agent/app/repo/alert.go:458-610 | after any successful run the same run changes nothing if, and unless two items are twins only if, the items are stable and those matched by content have their rows in their order; when all carry a UID it succeeds if and only if they are stable |
| AlertSyncStable.DistinctItemsAreStable | agent/app/repo/alert.go:499-531 | distinct trimmed UIDs, where there is one, and one item per singleton kind make the items stable |
| AlertSyncStable.DistinctItemsSettle | agent/app/repo/alert.go:458-610 | such items, with no two of one content where that decides, are taken again without a change |
| AlertSyncOrder.RunNotes | agent/app/repo/alert.go:499-591 | in every run each item is on the row it landed on or on an inserted one, and an item without a UID has that row's UID or the new one |
| AlertSyncUnsettled.UnstableRunSucceeds | agent/app/repo/alert.go:504-531 | over an empty table any two singleton items of different UIDs are taken once and never again |
| AlertSyncUnsettled.CrossedDoNotSettle | agent/app/repo/alert.go:551-565 | two stable items of one content that change places: taken once, then refused or with a change |
| AlertSecrets.DecodedLengthIff | agent/app/repo/alert.go:660-661 | the decoder reads n bytes exactly from the padded encodings of n bytes, with line ends anywhere |
| AlertSecrets.SecretAcceptedIff | agent/app/repo/alert.go:641-667 | the checks pass exactly the documents of schema version 1 with a versioned envelope of whole 16-byte blocks, two at least |
| AlertSecrets.SecretFaults | agent/app/repo/alert.go:641-667 | which of the four errors the checks give, exactly when |
| AlertSecrets.SyncKeepsSecretsSealed | agent/app/repo/alert.go:458-667 | over any synchronisation of a sealed table every custom row that is not disabled ends with such a document and envelope, and no other row with a secret |
| AlertDelivery.AlertDb.CreatePendingAlertTask | agent/app/repo/alert.go:247-272 | the reservation transaction with its three errors and its ignored conflict |
| AlertDelivery.AlertDb.FinalizePendingAlertTask | agent/app/repo/alert.go:274-310 | the finalisation transaction: commit, abort, fallback, and the rollback when there is none |
| AlertDelivery.AlertDb.CleanAlertLogs | agent/app/repo/alert.go:239-241 | all logs but the pushing ones are deleted |
| AlertDelivery.AlertDb.CreateAlertLog | agent/app/repo/alert.go:199-201 | a log under a fresh identifier |
| AlertDelivery.AlertDb.CreateAlertTask | agent/app/repo/alert.go:243-245 | a task without a delivery log |
| AlertDelivery.AlertDb.LoadTaskCount | agent/app/repo/alert.go:324-336 | the number of tasks of a quota, of the day that starts at the last midnight and of all days |
| AlertDeliveryProofs.AlwaysGood | agent/app/repo/alert.go:239-310 | in every run a delivery task belongs to a pending log or is the one task of a delivered log |
| AlertDeliveryProofs.FinalizedOnce | agent/app/repo/alert.go:282-291 | in every run a log leaves Pushing once at most |
| AlertDeliveryProofs.FinalizedStays | agent/app/repo/alert.go:274-310 | from then on a delivered log has exactly one task, always the same, and a failed log none |
| AlertDeliveryProofs.QuotaConserved | agent/app/repo/alert.go:247-336 | the count of a quota, of one day or of all, is its deliveries plus its reservations plus its tasks without a log |
| AlertDeliveryProofs.ReportedButRolledBack | agent/app/repo/alert.go:291-309 | true is returned with an error exactly when a pushing log succeeds without reservation and fallback, and then nothing changed |
| AlertDeliveryExact.ReserveExactly | agent/app/repo/alert.go:247-272 | true without an error exactly when a task is given, the log is pushing, agrees with it and has no task; then the task is added under the log, and otherwise nothing changes |
| AlertDeliveryExact.ReserveFaults | agent/app/repo/alert.go:248-259 | which of the three errors, exactly when |
| AlertDeliveryExact.FailureExactly | agent/app/repo/alert.go:274-293 | a pushing log that failed keeps the message and loses its task, and every other task stays |
| AlertDeliveryExact.SuccessExactly | agent/app/repo/alert.go:274-309 | a pushing log that succeeded has its task, reserved or from the fallback, and its message cleared; with neither nothing changes |
| AlertDeliveryExact.NotPushingIgnored | agent/app/repo/alert.go:282-290 | a log that is not pushing is left alone |
| AlertDeliveryExact.CleanExactly | agent/app/repo/alert.go:239-241 | cleaning keeps exactly the pushing logs and every task |
| AlertDeliveryExact.CountExactly | agent/app/repo/alert.go:324-336 | the count is the number of tasks of this kind, quota type and method, for a day those created strictly between its midnights |
| ReleasePaths.RelativeStable | deploy/runtime-release/release.py:34-41 | a normalised path is its own normal form |
| ReleaseContents.RelativeExactly | deploy/runtime-release/release.py:34-41 | a path is refused exactly when it is empty, absolute, climbs, names nothing or names the manifest; otherwise it keeps its parts |
| ReleasePaths.BelowNormal | deploy/runtime-release/release.py:136-138 | a destination below a target is in normal form and has the parts of both |
| ReleasePaths.BelowIff | deploy/runtime-release/release.py:136-138 | below a normal target a path can be written exactly when it is relative and has no ".." |
| ReleaseBuilder.Staging.Write | deploy/runtime-release/release.py:72-81 | a file is written with its mode unless the path is not relative, reserved, taken, below a file or a directory |
| ReleaseBuilder.Staging.GitComponent | deploy/runtime-release/release.py:101-144 | the loop over the git entries copies what the specification picks, with every error |
| ReleaseBuilder.Staging.SnapshotComponent | deploy/runtime-release/release.py:147-180 | the same for a snapshot tree, whose selected links are refused |
| ReleaseBuilder.Releases.AddOne | deploy/runtime-release/release.py:285-313 | one component: its files and its record, or the record of an external tree |
| ReleaseBuilder.Releases.Prepare | deploy/runtime-release/release.py:257-344 | a release is published whole at a free path, or nothing is published |
| ReleaseBuilder.Verify | deploy/runtime-release/release.py:347-431 | the checks on files, required files, identity and external trees, in the order of the code |
| ReleaseBuilder.CheckFiles | deploy/runtime-release/release.py:363-370 | the file sets agree, every path is normal and every record is equal |
| ReleaseModel.ExternalsMeaning | deploy/runtime-release/release.py:396-400 | the index of external components holds, by name, external components of the manifest |
| ReleaseProofs.TakeAllCopies | deploy/runtime-release/release.py:72-81 | after copying, every picked file is at its destination with its bytes and mode, nothing else is new, nothing older changed, and no two share a destination |
| ReleaseProofs.AddComponentsBuild | deploy/runtime-release/release.py:284-313 | over any components: the tree is what they provide, every required file is there, every external record stands |
| ReleaseProofs.OneProvider | deploy/runtime-release/release.py:76-77 | no path of a release comes from two components |
| ReleaseProofs.PreparedHoldsExactly | deploy/runtime-release/release.py:257-344 | outside its manifest a release holds exactly the files its components provide |
| ReleaseContents.PreparedContents | deploy/runtime-release/release.py:72-180 | these are exactly the selected blobs of the commit below each git source and the selected regular files of each snapshot, below their targets, with their bytes and mode 0o555 or 0o444 |
| ReleaseContents.CopyIff | deploy/runtime-release/release.py:48-180 | entries are copied exactly when each is fine, each destination is a normal path in conflict with no file and no other destination, some are selected and the required are among them |
| ReleaseContents.AddComponentIff | deploy/runtime-release/release.py:285-313 | a component is added exactly when it has a name and a known kind and can be copied or recorded |
| ReleaseContents.PreparedIff | deploy/runtime-release/release.py:257-344 | a release is prepared exactly when bundle and commit are known, each component can be added to those before it, and no file conflicts with the manifest |
| ReleaseContents.ExternalRecorded | deploy/runtime-release/release.py:217-254 | the record of an external component has its root, its normal patterns and the digests and modes of exactly its selected files |
| ReleaseProofs.PreparedVerifies | deploy/runtime-release/release.py:257-394 | every prepared release is accepted by verification, with any of its external components asked for |
| ReleaseManifestProofs.ManifestDescribes | deploy/runtime-release/release.py:300-328 | the manifest names its request and describes every component in order: a copied one lists exactly its files with the required among them, an external one the tree that was read |
| ReleaseProofs.VerifiedMeans | deploy/runtime-release/release.py:359-394 | an accepted tree has the records and the digest of its manifest's identity |
| ReleaseVerifyProofs.VerifiedIff | deploy/runtime-release/release.py:347-431 | a tree is accepted exactly when its manifest is complete and digests to its own digest, its regular files are exactly those recorded under normal paths, the required are recorded, and every external component asked for is unchanged |
| ReleaseVerifyProofs.ExternalFaultIff | deploy/runtime-release/release.py:401-420 | unchanged means that source and expected root resolve to one root whose selected files have exactly the recorded paths, digests and modes, no link among them and the required included |
| ReleaseVerifyProofs.ExternalFilesExactly | deploy/runtime-release/release.py:195-214 | reading an external tree records exactly its selected regular files, unless a selected entry is a link |
| ReleaseVerifyProofs.ReportExactly | deploy/runtime-release/release.py:421-431 | what the report says of an accepted tree |
| ReleaseVerifyProofs.DriftRefused | deploy/runtime-release/release.py:401-420 | a prepared release is refused once a selected file of an external tree that is asked for is new, gone, or has other bytes or another mode |
| ReleaseProofs.DigestPinsRelease | deploy/runtime-release/release.py:382-394 | two accepted trees with one digest have the same components and the same files, bytes and modes |
| ReleaseProofs.TamperedRefused | deploy/runtime-release/release.py:362-370 | changing, adding or removing a file of a prepared release makes verification fail |
| FirewallNormal.NormalizeKeeps | agent/utils/firewall/filter/normalize.go:13-97 | the normal form of an atomic rule admits the packets the rule admits, an inet rule's zero-length prefixes taken for every address |
| FirewallNormal.NormalizeIdempotent | agent/utils/firewall/filter/normalize.go:13-97 | a normal form is its own normal form |
| FirewallExact.NormalizeIff | agent/utils/firewall/filter/normalize.go:13-97 | a rule has a normal form exactly when its scope is managed, it has one value of each, and its addresses, ports, protocol, action, priority and states can be read |
| FirewallExact.NormalWords | agent/utils/firewall/filter/normalize.go:29-96 | the action and protocol that its words name, its priority, kind, interface and description |
| FirewallExpansion.CombinationsHit | agent/utils/firewall/filter/normalize.go:119-163 | the combinations of the nested loops together say what the composite rule says |
| FirewallExpansion.ExpandExact | agent/utils/firewall/filter/normalize.go:119-191 | the expansion within one scope admits exactly the rule's packets, in at most 256 normal rules of distinct identity |
| FirewallExpansion.ExpandActs | agent/utils/firewall/filter/normalize.go:148-190 | every rule of an expansion is normal, in the rule's scope, with the rule's action, priority, interface and description |
| FirewallExact.ValuesIff | agent/utils/firewall/filter/normalize.go:424-440 | a list holds the trimmed parts between its commas, each once |
| FirewallExact.ExpandIff | agent/utils/firewall/filter/normalize.go:119-191 | within one scope it fails exactly when the protocols cannot be read, the lists multiply to more than 256, or a combination has no normal form |
| FirewallFamilies.ExpandFamiliesExact | agent/utils/firewall/filter/normalize.go:112-191 | an inet rule of UFW, split by family with the combinations without a normal form passed over, expands to at most 256 normal rules of the two families that act as it does and admit exactly its packets as it stands |
| FirewallExact.ExpandFamiliesIff | agent/utils/firewall/filter/normalize.go:112-191 | over both families exactly when twice the product exceeds 256 or no combination has a normal form |
| FirewallPolicies.RuleAddressFamilies | agent/app/model/firewall.go:208-222 | which families the two address texts look like |
| FirewallPolicies.RulesForProvider | agent/app/model/firewall.go:124-180 | the compilation, with the choice of families and every error |
| FirewallPolicyProofs.CompiledExactly | agent/app/model/firewall.go:138-179 | for every policy that compiles: a packet is admitted exactly when the policy's conditions hold, its family was chosen, and, where "all" became TCP and UDP, it is one of these |
| FirewallPolicyProofs.MeaningKeptIff | agent/app/model/firewall.go:138-179 | compiling keeps the meaning exactly when policy and compiled form reach the same of eight kinds of packet and the wide reading adds no address to a list; for single addresses, and but for inet policies on firewalld, the kinds alone decide |
| FirewallPolicyProofs.Reached | agent/app/model/firewall.go:208-222 | a kind of packet the texts allow has a packet the rule admits |
| FirewallPolicyProofs.CompiledActs | agent/app/model/firewall.go:159-179 | every compiled rule is normal, for the provider and a chosen family, with the policy's action, interface and description, and on firewalld alone its priority |
| FirewallExact.BaseExactly | agent/app/model/firewall.go:128-143 | the rule that is compiled: the policy's texts, its priority on firewalld alone, and TCP and UDP for all protocols with a destination port alone, except for UFW |
| FirewallExact.FamiliesExactly | agent/app/model/firewall.go:144-154 | the families a policy is compiled for, read off its addresses and protocol |
| FirewallExact.CompiledIff | agent/app/model/firewall.go:124-180 | a policy compiles exactly when it carries no error, has families, the provider is known and each family expands |
| FirewallExact.CompiledWords | agent/app/model/firewall.go:155-179 | every compiled rule is in the provider's own table, zone and chain, decides as the policy does, and has its priority on firewalld alone |
| FirewallExact.StoreExactly | agent/app/model/firewall.go:75-101 | what of the normal form is stored, and when |
| FirewallPolicyProofs.HalvesDisjoint | agent/app/model/firewall.go:155-178 | the result of a split inet policy is its two halves, and no packet meets both |
| FirewallStored.StoredHits | agent/app/model/firewall.go:75-101 | a stored policy speaks of the packets of its rule, an inet rule's zero-length prefixes taken for every address |
| FirewallStored.StoredCompilesExactly | agent/app/model/firewall.go:75-180 | a rule stored and then compiled, for any provider, admits exactly these packets |
| FirewallStored.RefusedMatchesNothing | agent/app/model/firewall.go:148-150 | a stored inet policy refused for mixed addresses admits no packet |
| FirewallStored.AnyWordLosesIPv6 | agent/app/model/firewall.go:146-154 | the concrete policy for which compiling loses every IPv6 packet |
| FirewallReadings.NormalExactlyIff | agent/utils/firewall/filter/normalize.go:13-97 | the normal form keeps the packets of the rule as it stands if and only if widening its zero-length prefixes reaches none of the eight kinds more |
| FirewallReadings.StoredExactlyIff | agent/app/model/firewall.go:75-101 | storing keeps the packets of the rule as it stands if and only if widening its zero-length prefixes reaches none of the eight kinds more |
| FirewallReadings.CompiledExactlyIff | agent/app/model/firewall.go:75-180 | the same of a rule stored and then compiled, for any provider |
| FirewallReadings.ZeroPrefixAdmitsIPv6 | agent/app/service/firewall.go:794-803 | a firewalld rule from every IPv4 address, which gets the inet family, is stored as one that admits every IPv6 TCP packet |
| FirewallReadings.EveryIPv4Written | agent/utils/firewall/filter/normalize.go:219-243 | "0.0.0.0/0" is such a source |
| FirewallImports.ConvertImportedFirewallRule | agent/app/service/firewall.go:1051-1073 | the conversion atom by atom, up to the first error |
| FirewallImports.ExpandRuleExact | agent/utils/firewall/filter/normalize.go:112-191 | the expansion of a rule of any scope admits exactly its packets, widened for firewalld's inet rules alone |
| FirewallImports.ConvertedExactly | agent/app/service/firewall.go:1051-1073 | a rule converted from any firewall to any other admits exactly its packets, in that reading |
| FirewallImports.ConvertedAsItStandsIff | agent/app/service/firewall.go:1051-1073 | and exactly its packets as it stands if and only if it is no inet rule of firewalld, or both readings reach the same kinds and widen no list beyond itself |
| FirewallImports.ConvertedActs | agent/app/service/firewall.go:1051-1073 | every converted rule is normal, for the selected firewall, with the rule's action, interface and description |
| FirewallOrder.BeforeTotal | agent/app/model/firewall.go:183-205 | of two rules with different UUIDs exactly one comes first |
| FirewallOrder.BeforeTransitive | agent/app/model/firewall.go:183-205 | the comparison is transitive |
| FirewallOrder.BeforeIff | agent/app/model/firewall.go:183-205 | a rule with a key comes before one without, the smaller key first, and equal or missing keys leave it to the UUIDs |
| FirewallOrder.SortedByKey | agent/app/model/firewall.go:182-206 | in the sorted list the rules with a key come first, by their keys, and equal keys go by UUID |
| FirewallOrder.RulesSortCanonicallyIff | agent/app/model/firewall.go:182-206 | all arrangements of some rules sort to one sequence if and only if any two different entries come before one another one way or the other |
| FirewallOrder.DistinctRulesSortCanonically | agent/app/model/firewall.go:182-206 | so they do when no UUID repeats, as in the table |
| FirewallOrder.SortFirewallRules | agent/app/model/firewall.go:182-206 | the array ends as the stable sort of what it held |
| FirewallRuleRepo.Repo.Create | agent/app/repo/firewall_rule.go:46-51 | the defaults of a new rule, and its insertion under a UUID that is free |
| FirewallRuleRepo.Repo.UpdateWithRevision | agent/app/repo/firewall_rule.go:68-81 | the guarded update, or the conflict with nothing changed |
| FirewallRuleRepo.Repo.DeleteWithRevision | agent/app/repo/firewall_rule.go:83-94 | the guarded deletion, or the conflict with nothing changed |
| FirewallRuleRepo.Repo.GetByUuid | agent/app/repo/firewall_rule.go:53-57 | the row a client reads |
| FirewallRuleWrites.CreateExactly | agent/app/repo/firewall_rule.go:46-133 | a creation stores the rule with origin, owner, UUID and revision filled in, unless a column is missing or the UUID is taken |
| FirewallRuleWrites.UpdateExactly | agent/app/repo/firewall_rule.go:68-142 | an update that names the row's revision sets exactly the named columns but the four protected ones, adds one to the revision and changes no other row |
| FirewallRuleWrites.DeleteExactly | agent/app/repo/firewall_rule.go:83-94 | a deletion that names the row's revision takes away that row alone |
| FirewallRuleWrites.ConflictsWriteNothing | agent/app/repo/firewall_rule.go:68-94 | with any other revision nothing is written |
| FirewallRevisions.NoLostUpdate | agent/app/repo/firewall_rule.go:68-94 | in every orderly run a guarded write that succeeds applies to exactly the row its client read |
| FirewallRevisions.NoLostUpdateIff | agent/app/repo/firewall_rule.go:46-94 | no read put in anywhere can lose to later updates if and only if every creation under a used UUID puts the last row back or starts above its revision |
| FirewallRevisions.OneWriterPerRevision | agent/app/repo/firewall_rule.go:71-94 | in every rising run, of all guarded writes with one revision of one row one succeeds at most |
| FirewallRevisions.OneWriterIff | agent/app/repo/firewall_rule.go:46-94 | and so in every continuation if and only if every creation under a used UUID starts above its last revision |
| FirewallRevisions.RevisionsGrow | agent/app/repo/firewall_rule.go:68-81 | in every orderly run a row seen at two times is the same or has a greater revision |
| FirewallRevisions.RestoreIsOrderly | agent/app/service/firewall.go:1380-1395 | restoring a deleted record as it was loses no update, and lets a second writer use its revision |
| FirewallRevisions.ChangedRestoreLoses | agent/app/repo/firewall_rule.go:46-94 | restoring it changed, under its old revision, loses the update of some reader |
| PortGuardRepo.Repo.UpsertBatch | agent/app/repo/docker_port_guard.go:48-61 | the batch in one transaction, row by row, all or nothing |
| PortGuardRepo.Repo.ReplaceRuntimeReadOnly | agent/app/repo/docker_port_guard.go:63-77 | the read-only rows are replaced, all or nothing |
| PortGuardRepo.Repo.DeleteBatch | agent/app/repo/docker_port_guard.go:42-46 | exactly the managed rows with these UUIDs are deleted |
| PortGuardProofs.OperationsKeepValid | agent/app/repo/docker_port_guard.go:42-77 | every operation keeps both unique indexes |
| PortGuardProofs.PartitionsAreSeparate | agent/app/repo/docker_port_guard.go:42-77 | managed operations never alter a read-only row, and a replacement never a managed one |
| PortGuardProofs.BatchIsLastWins | agent/app/repo/docker_port_guard.go:48-61 | after a batch the row of a named endpoint has the mode, sources and description of the last policy for it, and the UUID, native columns and sequence of the row that was there, else of the first policy for it |
| PortGuardProofs.UpsertKeepsOthers | agent/app/repo/docker_port_guard.go:48-61 | every other row stays as it was |
| PortGuardProofs.UpsertSucceedsIff | agent/app/repo/docker_port_guard.go:48-61 | a batch fails exactly when a policy that it inserts has a UUID that is taken by then |
| PortGuardProofs.ReplaceHolds | agent/app/repo/docker_port_guard.go:63-77 | a replacement leaves the managed rows and exactly the observed policies as read-only rows |
| PortGuardProofs.ReplaceSucceedsIff | agent/app/repo/docker_port_guard.go:63-77 | it succeeds exactly when the observed policies differ in endpoint and UUID and reuse no managed UUID |
| PortGuardProofs.DeleteTakes | agent/app/repo/docker_port_guard.go:42-46 | a deletion takes exactly the managed rows with one of the UUIDs |
| PortGuardProofs.UpsertIgnoresReadOnly | agent/app/repo/docker_port_guard.go:48-61 | read-only rows matter to an upsert through their UUIDs alone |
| PortGuardProofs.UpsertCommutesWithReplace | agent/app/repo/docker_port_guard.go:48-77 | upsert and replacement commute, exactly up to clashes of UUIDs |
| PortGuardProofs.DeleteCommutesWithReplace | agent/app/repo/docker_port_guard.go:42-77 | deletion and replacement commute, exactly up to reused UUIDs |
| ShareLimiter.LimiterStore.Allow | agent/middleware/file_share_public.go:55-64 | one request to one store, with the two clock reads of the code |
| ShareLimiter.LimiterStore.DeleteIdle | agent/middleware/file_share_public.go:79-87 | deleting while ranging removes exactly the visitors idle for over half an hour |
| ShareLimiter.FileShareAccess.MaybeCleanup | agent/middleware/file_share_public.go:66-77 | both stores are cleaned once in ten minutes |
| ShareLimiter.FileShareAccess.PublicAccess | agent/middleware/file_share_public.go:29-53 | the handler: code check, both limits, cleanup on success alone |
| ShareLimiterProofs.SourceLimitsAreValid | agent/middleware/file_share_public.go:39-44 | both limits refill within half an hour |
| ShareLimiterProofs.PlayMirrors | agent/middleware/file_share_public.go:55-87 | on every trace with bounded gaps the deleting store decides as one that never deletes |
| ShareLimiterProofs.DeletionInvisible | agent/middleware/file_share_public.go:55-87 | deletion is invisible if and only if the two clock reads lie within half an hour less one refill period |
| ShareLimiterProofs.CleanupInvisible | agent/middleware/file_share_public.go:29-87 | over every prompt sequence of requests the handler answers as if it never deleted a bucket |
| ShareLimiterProofs.TokenBound | agent/middleware/file_share_public.go:55-87 | the accepted requests of a key in any stretch cost at most the burst plus the time that passed |
| ShareHandlerProofs.ServedPerAddress | agent/middleware/file_share_public.go:38-53 | in any stretch of a prompt sequence the handler serves one address at most 20 requests plus one a second |
| ShareHandlerProofs.ServedPerCode | agent/middleware/file_share_public.go:43-53 | and of its guarded requests for one code at most 4 plus one every five seconds |
| ShareServed.ServedIff | agent/middleware/file_share_public.go:29-53 | a request is served exactly when its code is empty or well-formed, its address has a token of 20 that refill one a second, and, with a code on a guarded path, the code one of 4 that refill one every five seconds |
| ShareServed.StoresLeft | agent/middleware/file_share_public.go:38-64 | what it takes from the two stores; an unguarded request leaves the codes alone |
| ShareServed.AllowExactly | agent/middleware/file_share_public.go:55-64 | one request to one store takes one token if there is one, and touches no other visitor |
| ShareServed.CleanedExactly | agent/middleware/file_share_public.go:66-87 | after a served request, ten minutes after the last cleanup, exactly the visitors not seen for over half an hour are gone |
| ShareServed.PatientIsServed | agent/middleware/file_share_public.go:29-87 | over every prompt sequence, who waits a second, and five for a guarded code, is served |
| SkillTables.ParseTable | agent/app/service/agents_hermes_skills.go:156-215 | the loop over the lines computes the specified fold, with the panic of a too long line as an error |
| SkillTables.MergeLine | agent/app/service/agents_hermes_skills.go:191-200 | the pieces of a wrapped line join the cells above them |
| SkillTableProofs.RoundTripIff | agent/app/service/agents_hermes_skills.go:156-215 | any output that draws a table is read as its headers and its cells, pieces joined by single spaces, if and only if the first cell of every row is one piece |
| SkillTableProofs.NotFoundIff | agent/app/service/agents_hermes_skills.go:156-209 | no table is found exactly when no line of the output holds cells |
| SkillTableProofs.OutOfRangeIff | agent/app/service/agents_hermes_skills.go:191-200 | reading runs out of range, where the code panics, exactly when some line has a piece beyond the cells of the row it continues |
| SkillTableProofs.HeaderIndexed | agent/app/service/agents_hermes_skills.go:210-213 | the index gives the last column of a name |
| SkillTableProofs.WrappedNameSplits | agent/app/service/agents_hermes_skills.go:181-187 | the example of a first cell of two pieces, read as two rows |
| RoleBindings.ApplyBindings | agent/app/service/agents_agents.go:298-349 | every agent gains the bindings of the routes that name it, in order, and nothing else changes |
| RoleBindings.LoadBoundChannels | agent/app/service/agents_agents.go:351-383 | the accounts of each channel that some route binds |
| RoleBindings.FilterAvailable | agent/app/service/agents_agents.go:444-460 | the accounts that are left |
| RoleBindings.AvailableMeaning | agent/app/service/agents_agents.go:351-460 | an account is offered exactly when it is the channel's and no route takes it or the whole channel |
| RoleBindings.OfferedIsShownByNone | agent/app/service/agents_agents.go:298-460 | what a channel offers no agent shows |
| RoleBindings.BoundIff | agent/app/service/agents_agents.go:444-474 | a channel counts as bound exactly when a route names it and no account is left |
| RoleBindings.ResolveBound | agent/app/service/agents_agents.go:333-339 | a route resolves to an agent with that ID or name |
| RoleBindings.EachAttachedOnce | agent/app/service/agents_agents.go:313-348 | the agents' new bindings number the resolvable routes |
| RoleBindingsExact.ShownIff | agent/app/service/agents_agents.go:298-349 | an agent gains a binding exactly when a value of type route names its ID, else its name, and in its match the channel and the account, or the account beside the match |
| RoleBindingsExact.OfferedIff | agent/app/service/agents_agents.go:351-460 | an account is offered exactly when it is the channel's and no such value binds it or the whole channel |
| LogNames.EveryRollReadBackIff | core/log/manager.go:47-53 | the scan reads the tag of every roll back if and only if the file name holds no dash and the suffix first occurs behind every tag |
| LogScans.AcceptedIff | core/log/writer.go:121-132 | the scan takes a file for a rolled one exactly when its name holds the process's and a time stands between its first dash and its first suffix |
| LogScans.ScanFaultsIff | core/log/writer.go:122-127 | it slices out of range exactly when such a name has its first suffix no later than its first dash |
| LogScans.ScanTakes | core/log/writer.go:114-135 | otherwise it takes up exactly these files |
| LogNames.DashHides | core/log/writer.go:122-131 | with a dash in the file name and tags of one width the scan passes over every roll |
| LogNames.CoreNamesAreHidden | core/cmd/server/conf/app.yaml:16-17 | so it does over every file that core rolls under its shipped name |
| LogNames.AgentNamesReadBack | agent/cmd/server/conf/app.yaml:12-13 | and the agent's rolls are all read back |
| LogNames.EarlySuffixPanics | core/log/writer.go:123-127 | a suffix inside the file name makes the scan slice out of range on a rolled file |
| LogRetention.Writer.Push | core/log/writer.go:239-249 | the retry loop ends with the file queued and the oldest file removed if the queue was full |
| LogRetention.Writer.Start | core/log/writer.go:105-155 | a startup does what the scan, the sort and the pushes say, or reports the slice out of range |
| LogRetention.Writer.Reopen | core/log/writer.go:218-251 | a roll of an empty file changes nothing; another adds its file and queues it |
| LogRetention.PushedAllKeepsNewest | core/log/writer.go:146-155 | pushing a history keeps its newest files, up to the bound, and removes exactly the others |
| LogLayouts.OneLayoutReadsTrue | core/log/writer.go:136-144 | files whose tags stand at one place are compared by their times |
| LogLayouts.RestartKeepsNewest | core/log/writer.go:109-155 | with files that are compared truly, whoever wrote them, the last by time are queued, the others removed, and no removed file is newer than a kept one |
| LogLayouts.RestartNewestIff | core/log/writer.go:109-155 | over any directory, listing and bound the startup succeeds and removes no file newer than a kept one, if and only if every name can be sliced and any two files taken up can be compared, truly where their times differ |
| LogLayouts.AnySortAgrees | core/log/writer.go:136-144 | whatever sort is used, files of different times that are compared truly end in the same order |
| LogLayouts.CopyPanicsIff | core/log/writer.go:136-144 | with a copy of a rolled file beside it, something put before its name, the comparison slices out of range if and only if that is longer than the suffix |
| LogLayouts.CopyOutlivesIff | core/log/writer.go:136-155 | otherwise, with room for one, the rolled file is removed for the copy if and only if the copy's time is not before the one read of the rolled file at shifted offsets |
| LogRestarts.Perform | core/log/writer.go:105-251 | the writer performs any run of restarts and rolls as specified, up to the first fault |
| LogRestarts.RetentionOverRestarts | core/log/writer.go:105-251 | without a dash in the name, over every run of rolls and restarts: the directory holds, beside other files, exactly the newest rolled ones, and the queue these in order |
| LogRestarts.HiddenFilesStay | core/log/writer.go:105-251 | with a dash every process keeps the newest of its own files alone and leaves them behind for ever |
| LogRestarts.NewestKeptIff | core/log/writer.go:105-251 | every run keeps exactly the newest rolled files if and only if the name holds no dash |
| LogScans.UnboundedKeepsAll | core/log/writer.go:109-251 | without a bound no run removes a file |
| Endpoints.NormalizeEndpointPath | agent/app/provider/catalog.go:385-407 | the first suffix of the list that matches is cut |
| Endpoints.NormalizedExactly | agent/app/provider/catalog.go:385-407 | which suffix of which kind is cut, whatever its case |
| Endpoints.BuildModelDiscoveryURL | agent/app/provider/discover.go:52-65 | the loop strips the three endpoint kinds in turn and appends the models path |
| Endpoints.DiscoveryFixpoint | agent/app/provider/discover.go:52-74 | the URL ends in "/models" and is its own discovery URL |
| Endpoints.DiscoveryCases | agent/app/provider/discover.go:52-74 | a base that lists the models is kept, one whose last segment is a "v" and a number gets "/models", and any other "/v1/models" |
| Endpoints.NormalizingUndoesVerify | agent/app/provider/catalog.go:385-407 | cutting what a verification request appends gives the base back, for every base and any number of slashes |

## Left out

- SyncAll: database errors, audit columns and timestamps; the singleton kinds are the one kind the source lists, so the map of singletons is an optional row. The loops over incoming items are proved on values of rows.
- validateAlertConfigSyncSecret and alertConfigSyncKey: JSON decoding and normal forms are parameters; of the base64 envelope the decoded length is modelled (RFC 4648, section 4), not its bytes.
- Lower: lowers ASCII letters alone; Go also lowers U+0130 to "i" and U+212A to "k", so a word spelled with these is read differently.
- LoadTaskCount: the last midnight is a parameter, and errors of the two queries are left out.
- FinalizePendingAlertTask: the other writers of logs and tasks (UpdateLog, BatchUpdateLogBy, DeleteLog, DeleteAlertTask) are not part of the runs.
- SyncTwice: for twins, two items without a difference that are matched by content, one direction alone; new UUIDs are taken to be named by no item.
- Prepare: I/O errors, directory modes and the removal of the staging directory; hashing, JSON, git and fnmatch are parameters, and symbolic links inside a path are not followed.
- Verify: the messages, and which of several drifting files is named; a path in the manifest that is not normal and a record that differs are one error.
- PreparedVerifies: the external trees are the same at both times; DriftRefused says what happens otherwise.
- ExpandAtomicRules: scopes are taken as already lower-case, order buckets and UUIDs are left out, and RuleKey stands for its hashed identity.
- ConvertImportedFirewallRule: the rule comes with the defaults of its provider's scope filled in.
- NormalizeRule: the port grammar and net/netip are parameters with stated laws; a packet has one connection state.
- PolicyKey and FirewallRuleOwner: text assembly and a hash.
- SortFirewallRules: the library sort is an insertion sort here; both are stable, so the result is the same.
- UpdateWithRevision: revisions are unbounded, and updates are keyed by column name.
- NoLostUpdateIff: the continuations of a run are updates, with one read put in anywhere before them.
- ListManaged and ListRuntimeReadOnly: the filter is the partition; the order of the lists is left out.
- PublicAccess: requests are handled one at a time; the data race on lastSeen and a deletion between lookup and use are left out, and the rate library is a token bucket in exact arithmetic.
- ParseTable: the removal of ANSI escapes is left out; the callers read cells by header name and fill in metadata.
- ApplyBindings: extracting agents and accounts from the configuration, and the account lists per channel.
- Start: the library sort is an insertion sort, which it is for up to twelve files. With more, AnySortAgrees fixes the result when all are compared truly and no times are equal; otherwise another order of comparisons may slice out of range earlier or not at all, and among equal times another file may be kept. RestartNewestIff ranges over every order of the listing, though the directory is read by name.
- Reopen: rolls run one after another, each under a later time than those before, as the clock of the rolling job gives them; errors of the file system, the asynchronous writer and Close are left out, and names are taken without their directory.
- NewestKeptIff: for settings under which the suffix first occurs behind every tag; EveryRollReadBackIff and EarlySuffixPanics cover the others.
- ResolveBaseURL: URL parsing and the provider catalogue; image endpoints.
