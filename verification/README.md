# HostBridge in Dafny

A model of HostBridge, a local DNS resolver daemon that shares one file of domains with its
other processes, claims name-resolution rules of the operating system for them, relays every
other query upstream and streams its events to the windows that watch it. The model follows
the Python sources file by file; the properties are proved over every input, every run and
every interleaving of the modelled steps.

How the files fit together:

- `prelude.dfy`, `text.dfy`: options, list facts, splitting and joining; the Unicode tables are
  a parameter `Text` with the few laws used.
- `names.dfy`, `name_forms.dfy`, `model.dfy`, `zone.dfy`: name normalisation and validation with
  the reasons for a refusal, the domain record and its JSON form, the compiled zone and the match
  ladder.
- `store.dfy`, `reconcile.dfy`, `report.dfy`, `fixpoint.dfy`, `takeover.dfy`, `store_history.dfy`,
  `store_file.dfy`, `store_effects.dfy`, `store_processes.dfy`: the store. Its operations as methods
  over a snapshot, what one synchronisation pass does and what it makes of each thing observed,
  whole runs of operations, the file behind them and what each operation leaves in it, and any
  number of processes that lock, re-read and replace that file.
- `rules.dfy`, `rule_printing.dfy`, `importers.dfy`, `import_fixpoint.dfy`, `discovery.dfy`,
  `container_discovery.dfy`: the Traefik rule tokeniser against printed rule trees, the two importers
  composed with the store, and which records they make of which routers and labels.
- `nrpt.dfy`, `netstate.dfy`, `claim.dfy`, `claim_clean.dfy`, `claim_stop.dfy`, `runner.dfy`: plans
  over the rule table, the record of intent, the claim/undo protocol as a transition system with
  crashes, when a shutdown of it leaves nothing, and the runner, the Windows policy and the
  repair command as methods whose every effect is a step of that system.
- `wire.dfy`, `cache.dfy`, `cache_history.dfy`, `query.dfy`, `upstream.dfy`, `single_flight.dfy`,
  `failover.dfy`, `coherence.dfy`, `replies.dfy`, `swaps.dfy`, `server.dfy`: the resolver. One event
  loop whose events are the code between two awaits; single flight, failover, zone/cache coherence
  and what reaches which client over every interleaving; and the objects whose methods are those
  events.
- `events.dfy`, `event_delivery.dfy`, `event_client.dfy`, `event_witness.dfy`, `event_stream.dfy`,
  `event_server.dfy`: the event bus, what one connection is due, the incremental client parser,
  a codec that meets what is assumed of UTF-8 and JSON, and both ends joined.
- `chunked.dfy`: the chunked-body decoder.

Machines are total functions `Next(state, step)`, where a step that is not possible changes
nothing; a run is therefore any sequence of steps, and a statement about `Run` covers every
interleaving.

Where the code and its own words differ, the model follows the code:

- A clean stop is meant to leave the machine as it was found. It removes only what the daemon
  still remembers: `daemon/runner.py` forgets what it had applied when a reload finds the zone
  empty (lines 221-226) and when an apply fails (line 237), and then deletes the record as well.
  `ClaimStop.StopCleansExactly` gives the exact condition over runs, by the branch the last claim
  took; `Claim.ForgettingLeaks` and `Claim.EmptiedZoneLeavesItsRule` show it failing.
- `daemon/repair.py` collects the failures of both recovery paths, but on Windows the marker scan
  never reports one (`daemon/policy.py` line 84), so its exit code speaks of the recorded removal
  only. `Runners.ZeroExitCanMislead` is a zero exit over a rule of ours; `Runners.ZeroExitExactly`
  says when a zero exit means a clean machine.
- A shutdown whose removal failed marks its record clean all the same. If the daemon dies before it
  deletes the record, the next start believes the mark and leaves the rules
  (`Claim.CleanMarkIsBelieved`).
- `system/nrpt_win.py` (lines 122-123) speaks of namespaces that are removed and added again because
  their servers changed. The plan compares namespaces only, so such a rule keeps its old servers
  (`Nrpt.ServersExactly`).
- A chunked stream that ends within the line of a length is an error, unless what is left of the line
  reads as zero: then the body so far passes for the whole (`Chunked.CutStreamExactly`,
  `Chunked.CutCanPass`).
- `core/events.py` says a dropped reader "still wakes up": so it does on overflow, but `close` on
  a full queue adds no sentinel, and that reader waits for ever
  (`EventDelivery.ClosedWhileFullNeverEnds`). The event that overflows a queue is itself never
  delivered, nor is any after it.
- `update` does not ask whether a new name is taken; `StoreHistory.RenameKeepsNamesExactly` says
  when that is harmless.
- `normalise` is described as a normal form, yet it changes some strings when applied again
  (`Names.NormaliseIsNotIdempotent`): those with a blank before their final dots
  (`Names.NormaliseSettlesExactly`). On validated names it does not.

## Model

| member | source | states |
|---|---|---|
| Names.ValidExactlyWellFormed | core/match.py:136-203 | `validate` accepts a raw string if and only if its normal form is two or more good labels joined by dots, bare or below a leading star, and at most 253 characters long |
| Names.WellFormedIsFixpoint | core/match.py:93-120 | normalising a well-formed name gives that name |
| Names.ValidatedIsFixpoint | core/match.py:109-203 | a validated name is a fixpoint of `normalise`, and validating it again says the same |
| Names.NormaliseSettlesExactly | core/match.py:109-120 | for every raw string whose stripped text is ASCII, a second normalisation changes nothing if and only if no blank is left where the final dots were |
| Names.NormaliseIsNotIdempotent | core/match.py:109-120 | a raw string on which a second normalisation still changes something: the dot hides a blank from the strip |
| NameForms.LabelsAreEncoded | core/match.py:93-120 | every label that is not ASCII is encoded for itself, a star in front stays and the dots behind go |
| NameForms.ObjectionsExactly | core/match.py:142-160 | a name is refused as empty, as a bare star, for a misplaced star or for its length if and only if that is the first of these that applies |
| NameForms.LabelObjectionsExactly | core/match.py:162-190 | otherwise it is refused for its first bad label and what is wrong with that one, or for having a single label, or not at all |
| NameForms.RemarksExactly | core/match.py:192-203 | an accepted name is remarked upon for its last label or its star, and for nothing else |
| Model.RoundTripExactly | core/model.py:84-132 | a record reads back from its own dictionary if and only if name, id, address and stamps are not empty and the name is trimmed |
| Model.LoadedIsStorable | core/model.py:88-132 | whatever JSON it came from, a record that was read is one that reads back |
| Model.EntryReads | core/model.py:88-132 | an entry is unusable if and only if it has no name but blanks; whatever else it lacks or has under a wrong type gets its default |
| Model.FlagsRead | core/model.py:109-131 | a record is switched off if and only if its entry says something false, and its pinned fields are the texts among what the entry lists |
| Model.DictCarries | core/model.py:84-85 | the dictionary of a record has its ten keys, each with the field it is named for |
| Texts.LawsCanHold | core/match.py:93-120 | the assumptions made about the Unicode tables can be met together |
| Zones.FromDomains | core/match.py:250-265 | the loop over the records fills the two dictionaries that the compiled zone is proved from |
| Zones.MatchIsTheLadder | core/match.py:220-291 | the dictionary lookup answers with m if and only if m is the last enabled record of exactly that name, or failing one, that of the longest wildcard whose apex is a proper label suffix |
| Zones.AnsweredIffCovered | core/match.py:274-306 | with validated records a query is answered if and only if some registered namespace covers its normalised name |
| Zones.OwnAddress | core/match.py:250-291 | where normalised names are distinct, every enabled validated record resolves to its own address |
| Store.Working.OwnRecords | core/store.py:350 | the `mine` dictionary: for each owner the last record of the source that has it |
| Store.Working.ConsiderOne | core/store.py:353-386 | one candidate, edited into the list in place: skipped, clashing, appended, merged or unchanged |
| Store.Working.Reconcile | core/store.py:346-398 | the whole loop over the candidates and the sweep give the snapshot and the result that the history is proved about |
| Store.Working.SweepStale | core/store.py:388-396 | the records of the source whose owner was not observed go, and are reported in order |
| Store.DomainStore.Mutate | core/store.py:202-225 | the file is replaced only when the change ended and altered some dictionary or the file was migrated; a newer schema or a raise leaves it alone |
| Store.DomainStore.Save | core/store.py:227-237 | what is written is the list of dictionaries under the current schema |
| Store.DomainStore.Add | core/store.py:260-272 | a name some record already has raises with its normalised form and leaves the file; otherwise the file is written with the record after the others |
| Store.DomainStore.Update | core/store.py:274-291 | a manual record takes the changes and a new stamp; a discovered one is refused; an unknown id is nothing |
| Store.DomainStore.Toggle | core/store.py:293-308 | a record of any source is switched to the wanted state or flipped |
| Store.DomainStore.Delete | core/store.py:310-328 | only a manual record is removed |
| Store.DomainStore.Reconcile | core/store.py:330-400 | a synchronisation is the reconciling change run under `mutate` |
| Reconciliation.ConsiderAllGrows | core/store.py:353-386 | with fresh ids, the loop keeps every record in its place with id, source, owner and enabled, and only appends candidates of its source |
| Reconciliation.DistinctOwnersNeverRaise | core/store.py:374-385 | with distinct owners the in-place edit always finds the record it read before the loop |
| Reconciliation.SweepDropsTheStale | core/store.py:388-396 | the sweep by id leaves exactly the records that are not stale, in order |
| Reconciliation.OthersUntouched | core/store.py:330-340 | the records of every other source keep content and order |
| Reconciliation.WhoRemains | core/store.py:346-398 | a record of the source survives a pass if and only if its owner was observed, with its identity and its enabled state; nobody else's is touched |
| Reports.ReportedExactlyWhenChanged | core/store.py:95-97 | with distinct owners a pass reports a change if and only if it changed the records, so a daemon that does not recompile its zone has the right one |
| Takeover.ObservedIsTakenOver | core/store.py:353-386 | under a name no other source has, a record of its owner takes every unpinned field of what was observed and keeps its identity, with a new stamp if and only if something changed, or the thing observed becomes a record as it is; under a name only another source has, nothing happens but a conflict report |
| Takeover.RemovedAreReported | core/store.py:388-396 | the names reported as removed are those of the records of the source whose owner nobody observed |
| Takeover.OwnerlessAreSkipped | core/store.py:353-358 | what has no owner is counted and never becomes a record |
| Takeover.LastOwnWins | core/store.py:350 | of several records of one owner the dictionary has the last |
| Fixpoint.SecondPassChangesNothing | core/store.py:348-398 | a second pass with the same owners, names, addresses and notes changes no record and reports nothing |
| StoreHistory.RunHasDistinctIds | core/store.py:260-400 | over every run of operations ids stay pairwise distinct |
| StoreHistory.SyncEndsOrKeeps | core/store.py:348-398 | a pass ends a record if and only if it is of that source, has an owner and was not observed; a surviving one keeps `enabled`, one of another source keeps everything |
| StoreHistory.StaysUntilEnded | core/store.py:260-400 | over whole runs a record disappears only by `delete` of its id, if manual, or in a successful pass of its own source that did not observe its owner; id, source and owner never change |
| StoreHistory.ManualUntilDeleted | daemon/runner.py:318 | over runs that synchronise Docker and Traefik only, as the daemon does, a manual record disappears only by `delete` of its id |
| StoreHistory.NamesStayDistinct | core/store.py:260-400 | over every run without renames, from an empty store, normalised names stay pairwise distinct and discovered records stay owned by their names |
| StoreHistory.EveryRecordResolves | core/match.py:250-291 | after any such run every enabled record with a usable name resolves to its own address in the compiled zone |
| StoreHistory.RenameCanClash | core/store.py:274-291 | two records and one rename after which two records have one name |
| StoreHistory.RenameKeepsNamesExactly | core/store.py:274-291 | a rename keeps names distinct if and only if no other record has the new normalised name |
| StoreFile.EntriesReadBack | core/store.py:146-176 | the list of dictionaries a write produces reads back as the same records if and only if every one of them is storable |
| StoreFile.LoadedExactly | core/store.py:146-176 | a record is loaded if and only if some entry is read as it, so an unusable entry costs only itself |
| StoreEffects.AddAdds | core/store.py:260-272 | through the file: refused if and only if the name is taken, and then the file stays; otherwise the file has the old records and the new one, which reads back if and only if it is storable |
| StoreEffects.UpdateUpdates | core/store.py:274-291 | afterwards the file has the record with exactly the fields asked for and a new stamp, all others as before, and the answer is that record |
| StoreEffects.ToggleSwitches | core/store.py:293-308 | afterwards the record of any source is in the state asked for, or in the other one, with a new stamp, and nothing else has changed |
| StoreEffects.DeleteDeletes | core/store.py:310-328 | afterwards exactly that record is gone |
| StoreEffects.UnknownIdIsNothing | core/store.py:274-328 | an update, toggle or delete of an unknown id succeeds with nothing and changes no record |
| StoreEffects.DiscoveredIsRefused | core/store.py:274-328 | an update or delete of a discovered record fails with its name and leaves the file |
| StoreEffects.NewerIsRefused | core/store.py:202-212 | with a schema over 1 every operation fails as read-only and leaves the file |
| StoreEffects.SyncTakesOver | core/store.py:330-400 | what a pass makes of each thing observed is what the file has afterwards |
| StoreFile.FileHoldsTheRun | core/store.py:202-237 | after any run of operations through the file, loading it gives what the run in memory gives |
| StoreFile.SecondSyncDoesNotWrite | core/store.py:214-225 | a second synchronisation with the same observations leaves the file itself unchanged, whatever ids and stamps it would have used and even where the first file lacked some |
| StoreProcesses.FileIsTheCommitsInLockOrder | core/store.py:180-237 | for any interleaving of any number of processes with raising changes, lock timeouts and crashes, the file is the committed changes folded in lock order, every success is among them, and at most one process holds the lock |
| StoreProcesses.ReadsSeeCommittedStates | core/store.py:146-176 | every unlocked read sees what some prefix of the commits made, and later reads never an earlier prefix |
| StoreProcesses.NewerFileNeverChanges | core/store.py:156-158 | a file of a newer schema is never written over and no mutation of it succeeds |
| StoreProcesses.AloneIsMutate | core/store.py:202-225 | a single process running undisturbed leaves the file that `mutate` does |
| Rules.ScanArguments | discover/traefikapi.py:50-74 | the loop finds the closing parenthesis of this predicate, unless quoted or nested, and where to go on; an unbalanced rule is taken to its end |
| Rules.SplitArguments | discover/traefikapi.py:77-98 | the arguments between the unquoted commas, unquoted, trimmed and without empty ones |
| Rules.NextPredicate | discover/traefikapi.py:113-119 | one turn of either loop: what is found from an index on is what this predicate contributes and what is found after it, and the index grows |
| Rules.SearchFinds | discover/traefikapi.py:36-38 | from any index, skipping to the first predicate the pattern matches loses no value, and there is none left when nothing matches |
| Rules.ParseRule | discover/traefikapi.py:101-122 | ends on every string with the literal hosts of all predicates in order, first occurrences only |
| Rules.RegexpPredicates | discover/traefikapi.py:125-135 | ends on every string with the arguments of the regular-expression predicates in order |
| RulePrinting.HitExactly | discover/traefikapi.py:36-38 | what is taken for a predicate: one of the five names, not at the end of a longer word, with nothing but blanks before its parenthesis |
| RulePrinting.RuleReads | discover/traefikapi.py:101-135 | whatever text follows it, a printed rule contributes exactly its own values |
| RulePrinting.RuleRoundTrip | discover/traefikapi.py:101-135 | for every tree of and, or, not, host, regular-expression and other predicates, parsing its print gives its literal hosts from left to right, each once, and its regular expressions as they stand |
| Importers.RoutersToDomains | discover/traefikapi.py:138-195 | the loop with its `seen` dictionary collects the mentions that the records are proved from, and reports what was skipped |
| Importers.Enter | discover/traefikapi.py:171-193 | by way of the dictionary, a valid name adds to the note of its record or makes a new one |
| Importers.OwnNamesFrom | discover/labels.py:73-81 | nothing unless enabled; otherwise the single name and then the listed ones, trimmed, without blanks |
| Importers.RuleNamesFrom | discover/labels.py:83-87 | the hosts of every label that is a router rule, in label order |
| Importers.NamesFromLabels | discover/labels.py:71-93 | own labels when enabled, then Traefik rules, in order and deduplicated |
| Importers.ContainersToDomains | discover/labels.py:100-145 | the same collection over the containers' labels |
| Importers.SeenIsOwned | discover/traefikapi.py:171-193 | the dictionary of seen names finds exactly the record owned by that name |
| Discovery.RoutersExactly | discover/traefikapi.py:147-193 | there is a record for a name if and only if a listed object whose status is absent, no text, or `enabled` or empty in lower case, with a rule and a name, has a host in its rule that is valid and has that normal form |
| Discovery.RouterRecords | discover/traefikapi.py:171-193 | each record is enabled, unpinned, owned by its name and at the address given; its note names every router that asks for it and begins with one |
| Discovery.RoutersSkip | discover/traefikapi.py:165-176 | the hosts reported as invalid and the regular expressions reported are exactly those in the rules of routers that count |
| Discovery.PrintedRoutersExactly | discover/traefikapi.py:101-195 | routers with printed rule trees give records for exactly the literal hosts of the trees of those that count |
| ContainerDiscovery.WantedExactly | discover/labels.py:55-93 | labels ask for a name if and only if they are switched on and name or list it, or one is the rule of a router and has it as a host; of labels that agree in lower case the last counts |
| ContainerDiscovery.AddressExactly | discover/labels.py:96-97 | the address is what the label says, trimmed, or 127.0.0.1 where that is nothing |
| ContainerDiscovery.NameIsCalled | discover/labels.py:62-68 | the name without its leading slashes, or at most twelve characters of the id |
| ContainerDiscovery.ContainersExactly | discover/labels.py:100-145 | there is a record for a name if and only if the labels of some container ask for it in a usable form |
| ContainerDiscovery.ContainerRecords | discover/labels.py:115-143 | each record has the address of the first container to ask for its name, a note that begins with that container and names all that ask |
| ContainerDiscovery.ContainersSkip | discover/labels.py:122-126 | the names reported as invalid are exactly the unusable ones the labels ask for |
| ImportFixpoint.ImportersOwnByName | discover/traefikapi.py:167-193 | whatever was listed: one source, pairwise distinct owners, owner equal to `host:` and the normalised name, every name valid and normal |
| ImportFixpoint.FirstMentionDecides | discover/labels.py:122-143 | there is a record for a name if and only if it was mentioned in a usable form, with the address and spelling of the first mention; the unusable ones are reported in order |
| ImportFixpoint.SameObservations | discover/labels.py:100-145 | owners, names, addresses and notes depend on what was observed and not on the ids and stamps drawn |
| ImportFixpoint.PollingIsIdempotent | daemon/runner.py:295-327 | after any run without renames, polling the same listing twice changes no record the second time |
| ImportFixpoint.PollingTwiceWritesOnce | core/store.py:218-225 | and the second poll leaves the file of the store as it is |
| Nrpt.ExecEffect | system/nrpt_win.py:81-103 | a statement adds or removes our rule for its namespace and leaves every foreign rule |
| Nrpt.ExecCounts | system/nrpt_win.py:81-103 | how often any rule is in the table after a statement: a removal takes every marked rule of its namespace, the scan every marked rule, an addition adds one, and no other count changes |
| Nrpt.OthersStay | system/nrpt_win.py:81-103 | after any statement the rules without our marker are there as often as before and in the same order |
| Nrpt.ApplyReachesTheDesired | system/nrpt_win.py:106-127 | given a faithful reading, the whole script makes our namespaces the desired ones and a second plan is empty |
| Nrpt.ApplyRules | system/nrpt_win.py:106-127 | a plan, however far it got, brings in only our rules for namespaces of the zone with the daemon's servers, and a complete one every such rule that was not read as present |
| Nrpt.ServersExactly | system/nrpt_win.py:106-127 | after a complete plan all our rules name the daemon's servers if and only if those that were there for the zone already did |
| Nrpt.BlindApplyDuplicates | system/nrpt_win.py:106-127 | a plan made without a reading of the table adds every rule of the zone once more, also one that is there |
| Nrpt.RemoveLeavesTheRest | system/nrpt_win.py:130-137 | the removal of a list takes exactly our rules for it |
| Nrpt.RemoveAllLeavesForeign | system/nrpt_win.py:140-151 | the marker scan leaves the rules without our marker, all of them and in their order, and no other |
| NetStates.RecordReadsBack | daemon/netstate.py:63-96 | a written record reads back equal if and only if its version is not newer than this build's |
| NetStates.SparseRecordReads | daemon/netstate.py:63-96 | a record without a version or of a newer one is none, and one with nothing else reads as the defaults |
| Claim.StepIsSafe | daemon/runner.py:178-264 | every step keeps foreign rules unchanged, our rules within the recorded intent or among those left when a record was deleted, and what each phase knows of the record |
| Claim.ReloadIsSafe | daemon/runner.py:246-264 | widening the intent before applying keeps everything claimed under it accounted for |
| Claim.CrashSafety | daemon/runner.py:195-264 | from no rules of ours, after any reloads, failed or partial applies, unfaithful readings, crashes and restarts whose removals work, and then any part of a shutdown short of deleting the record, every rule of ours is in the recorded intent and the rules without our marker are those that were there, in their order |
| Claim.NothingLostSight | daemon/runner.py:152-264 | with no restriction on the steps: foreign rules never change and a rule outside the intent is one that was there when some record was deleted |
| Claim.ClaimedOnlyAfterIntent | daemon/runner.py:194-210 | a namespace is claimed only by a step of a daemon whose record already names it |
| Claim.EitherPathRecovers | daemon/repair.py:37-53 | wherever the protocol can crash, the recorded removal alone and the marker scan alone each leave no rule of ours and all foreign ones |
| Claim.LeftoverPassExactly | daemon/runner.py:152-172 | the leftover pass leaves no rule of ours if and only if there was none, or the record was unclean and its removal worked |
| Claim.RestartRecovers | daemon/runner.py:152-172 | after a crash anywhere short of the clean mark of a shutdown, a restart whose removal works begins with no rule of ours, every foreign rule and no record |
| Claim.StopLeavesTheForgotten | daemon/runner.py:492-521 | a complete shutdown leaves exactly the rules the daemon did not remember: none if and only if it remembered them all |
| Claim.ForgettingLeaks | daemon/runner.py:220-239 | after a reload to an empty zone, or a failed apply, a complete shutdown leaves the table as it was and no record |
| Claim.EmptiedZoneLeavesItsRule | daemon/runner.py:221-226 | the same from a standing start: one name claimed, the zone emptied, a stop in good order, and the rule is still there |
| Claim.CleanMarkIsBelieved | daemon/runner.py:152-172 | a start that finds a record marked clean removes nothing and deletes it, whether or not the shutdown that marked it had removed anything |
| ClaimStop.StopCleansExactly | daemon/runner.py:220-264 | from any machine and record, with faithful readings and executed commands: a complete shutdown leaves no rule of ours if and only if the last claim neither returned on an empty zone nor failed while rules of ours were there; foreign rules stay and the record goes |
| ClaimClean.CleanRunClaimsExactly | daemon/runner.py:220-264 | if applies and removals succeed, readings are faithful and no zone is empty, then whenever the daemon serves its rules are the zone's, a new plan is empty, and a stop leaves no rule and no record |
| Runners.WindowsPolicy.Execute | system/nrpt_win.py:197-211 | a plan with nothing to do cannot fail; otherwise the table is that of the executed prefix |
| Runners.WindowsPolicy.Apply | daemon/policy.py:61-69 | the plan against the present rules is executed, and the namespaces are reported unless it failed |
| Runners.WindowsPolicy.Remove | daemon/policy.py:71-77 | the removal of the given namespaces is executed, up to where it failed |
| Runners.WindowsPolicy.RemoveAll | daemon/policy.py:79-85 | the rules without our marker are left, all and in order, or nothing has changed; no failure is reported |
| Runners.Runner.ClearLeftovers | daemon/runner.py:152-172 | is the boot step of the protocol, and no record is left |
| Runners.Runner.ApplyPolicy | daemon/runner.py:220-242 | the table is that of the executed part of the plan, the record confirms what was applied, nothing if it failed, and the empty zone claims and removes nothing |
| Runners.Runner.Start | daemon/runner.py:178-210 | leftovers, bind, intent, apply in that order; a refused bind leaves no record and nothing but the leftover pass done |
| Runners.Runner.Reload | daemon/runner.py:246-264 | the same namespaces change nothing; others widen the recorded intent before anything is applied |
| Runners.Runner.Stop | daemon/runner.py:492-521 | the rules removed are those of the remembered namespaces, up to where it failed, and the record goes either way |
| Runners.Runner.AlwaysAccounted | daemon/runner.py:178-264 | between any two calls, however they went: foreign rules untouched, our rules in the record or left behind by a deleted one, and a serving daemon has its own record |
| Runners.Repair | daemon/repair.py:29-72 | the table is that of the executed part of the recorded removal followed by the scan, if it ran; the code is 5 if and only if the record names something and its removal failed; the rules without our marker stay as they are and the record goes |
| Runners.RepairLeavesNothingExactly | daemon/repair.py:37-53 | no rule of ours is left if and only if the scan ran or the executed removals name them all |
| Runners.ZeroExitExactly | daemon/repair.py:61-72 | after a zero exit the machine is clean if and only if the scan ran or all our rules were recorded |
| Runners.ZeroExitCanMislead | daemon/policy.py:79-85 | no record, a scan that fails, a zero exit, and the rule of ours is still there |
| Wire.WithTxid | resolver/wire.py:32-37 | only the two octets of the id change, to the low sixteen bits asked for; a message too short for one is left alone |
| Wire.StampIsOpaque | resolver/wire.py:32-59 | a second stamp overwrites the first, and neither flags nor rcode can tell |
| Wire.FlagsExactly | resolver/wire.py:49-59 | which bits TC and the rcode are, and that a message without a header has neither |
| Wire.RestoringTheId | resolver/wire.py:25-37 | giving a stamped message its own id back restores it octet for octet |
| Cache.ClampTtl | resolver/cache.py:84-88 | what was asked; under 1 second it is 1, over 3600 it is 3600, and over 5 for a failure it is 5 |
| Cache.Cache.Get | resolver/cache.py:68-82 | a hit is a live entry of the key under the request's id; without one there is no entry of the key afterwards; the counters tell which |
| Cache.Cache.Put | resolver/cache.py:84-101 | the entry moves to the end under its clamped lifetime and the oldest are evicted |
| Cache.Cache.EvictOldest | resolver/cache.py:99-101 | the loop leaves the newest entries up to the maximum |
| Cache.Cache.Clear | resolver/cache.py:103-104 | no entry is left |
| CacheHistory.HitIsTheLastPut | resolver/cache.py:68-101 | over every history, a hit is the last bytes put for the key since a clear, with only the id replaced, inside the lifetime that put gave them |
| CacheHistory.LostOnlyToNewerKeys | resolver/cache.py:84-104 | the size never exceeds the maximum, and a live entry is lost only to a clear or to as many distinct other keys put after it as the cache holds |
| Queries.ForwardsExactly | resolver/query.py:84-107 | a query is forwarded if and only if it is a proper single question of class IN, its name is not ours and the cache has no live answer; the key is its name, type, class and DO bit |
| Queries.RefusalsExactly | resolver/query.py:84-98 | which message gets which of the three refusals, and no other does |
| Queries.SameKeyExactly | resolver/query.py:101-107 | two queries have one key if and only if their normalised names, types, classes and DO bits agree |
| Queries.OursNeverForwarded | resolver/query.py:71-116 | a name of ours is answered from the zone whatever its type: the address if its family was asked for, otherwise no data with the apex and the serial, under the lifetime configured, independent of cache and time |
| Queries.CoveredIsOurs | resolver/query.py:96-116 | with validated records a proper query is answered here, other than from the cache, if and only if a registered namespace covers its name, and then with the ladder's address |
| Upstreams.OrderIsStable | resolver/upstream.py:113-118 | every server as often as configured, warm before cold, and the configured order within each class |
| SingleFlight.OneFlightPerKey | resolver/upstream.py:181-212 | over every interleaving the in-flight map and the queries being asked agree, and no key is asked twice at a time |
| SingleFlight.NoOrphanedWait | resolver/upstream.py:187-195 | a waiting query's flight is live, or its promise is settled and it can go on |
| SingleFlight.JoinersShareTheFlight | resolver/upstream.py:187-212 | a query that waited is answered with its flight's very bytes under its own id, or SERVFAIL if the flight brought nothing, broke, or the wait was cut short |
| SingleFlight.EndedStays | resolver/server.py:140-164 | what has been answered or dropped never changes again |
| SingleFlight.NobodyIsStranded | resolver/upstream.py:157-212 | wherever a query waits, the failures its flight can still suffer end the flight, and then the query answers SERVFAIL |
| Replies.AnswersReachTheClients | resolver/upstream.py:187-206 | over every run, a non-empty answer a server gave is what the client that asked has, with only the id its own, and what everyone who waited on that flight has or gets on going on, unless its own wait was cut short |
| Replies.ServFailExactly | resolver/upstream.py:187-210 | a forwarded query is answered SERVFAIL if and only if its wait was cut short or its flight broke or brought nothing; otherwise with what the flight brought |
| Replies.EveryAnswerIsStored | resolver/upstream.py:201-203 | over every run, what was put into the cache is every non-empty answer, once, in order, under the key of its flight |
| Replies.TruncatedIsAskedAgain | resolver/upstream.py:164-168 | a truncated datagram changes nothing but that the same server is asked over TCP, whose answer is final |
| Replies.WholeAnswerIsFinal | resolver/upstream.py:161-175 | any other answer is a completed exchange |
| Replies.TransportOfTheClient | resolver/upstream.py:157-169 | over every run a client on TCP is asked for over TCP, and after a failure the next server is asked over the client's transport |
| Replies.AskedUnderTheDrawnId | resolver/upstream.py:187-201 | a new flight asks the client's message with only the id replaced by the one drawn; a query whose key is in flight only waits |
| Failover.FailoverHistory | resolver/upstream.py:113-177 | over every run, a flight asks a prefix of one order, passes a server over only after it failed, and brings nothing home only when all failed; the order is the configured servers whose last exchange before take-off is not a failure of the last thirty seconds, then the others, each class as configured |
| Failover.ColdExactly | resolver/upstream.py:113-124 | a server is passed over if and only if its last completed exchange, of any query, is a failure less than thirty seconds old |
| Coherence.OursFromTheZone | resolver/server.py:140-147 | over every interleaving of queries, late replies and zone swaps, a query whose name was ours on arrival is answered at once from that zone |
| Coherence.OthersFromUpstream | resolver/server.py:132-153 | every cached or relayed reply is, but for the client's own id, an answer some upstream server gave to a query for the same normalised name, type, class and DO bit, and one from the cache is younger than its clamped lifetime |
| Swaps.OldAnswersAreForgotten | resolver/server.py:132-138 | after a swap to other namespaces, and whatever follows, no new query is answered from the cache with anything a server said before the swap |
| Swaps.SwapTakesEffect | resolver/server.py:132-138 | the next query finds the new zone, no flight or cold mark notices, and the cache is kept if and only if the namespaces are the same or it was empty |
| Servers.Upstream.MarkCold | resolver/upstream.py:120-121 | the server is cold from now on for thirty seconds |
| Servers.Upstream.MarkWarm | resolver/upstream.py:123-124 | the server is not cold |
| Servers.Upstream.Resolve | resolver/upstream.py:181-201 | up to its first await a forwarded query joins the flight of its key or takes off; with no server it is over at once |
| Servers.Upstream.Finish | resolver/upstream.py:201-212 | a non-empty answer is cached and the key is free again |
| Servers.Resolver.DecideOn | resolver/query.py:71-116 | the decision, with no effect but that of the cache lookup |
| Servers.Resolver.Handle | resolver/server.py:140-151 | is the arrival event of the loop, and counts the query |
| Servers.Resolver.Launch | resolver/server.py:145-151 | a decision is carried out: answered at once, or a flight started or joined |
| Servers.Resolver.ServerAnswers | resolver/upstream.py:160-175 | is the answer event: a truncated datagram is asked again over TCP, anything else lands the flight |
| Servers.Resolver.Deliver | resolver/upstream.py:174-212 | a final answer: the server is warm, the answer cached under the key, the promise kept and the key free |
| Servers.Resolver.ServerFails | resolver/upstream.py:169-177 | is the failure event: the server is cold and the next is asked, or the flight lands with nothing |
| Servers.Resolver.PassOver | resolver/upstream.py:169-177 | a failed server: cold from now on, and the next one asked with the transport of the query |
| Servers.Resolver.Break | resolver/upstream.py:191-212 | is the cancellation event: a flight breaks its promise and frees its key, a waiting query goes on without an answer |
| Servers.Resolver.Resume | resolver/upstream.py:187-195 | is the event in which a waiting query sees the outcome |
| Servers.Resolver.Apply | resolver/server.py:132-138 | is the swap event: the cache goes unless the namespaces are the same |
| Servers.Resolver.AlwaysCoherent | resolver/server.py:110-153 | between any two segments of the running object: one flight per key, and every reply from the zone found on arrival or from an upstream answer to the same question |
| Events.Bus.Offer | core/events.py:91-103 | one subscriber: queued if there is room, otherwise dropped, its oldest item replaced by the final sentinel |
| Events.Bus.Publish | core/events.py:87-104 | every subscriber is dealt with by its own queue alone, and the history keeps the last 200 events |
| Events.Bus.Close | core/events.py:106-110 | every subscriber is let go, with a sentinel if its queue has room |
| Events.Bus.Attach | core/events.py:72-73 | the subscriber is added, and nothing else changes |
| Events.Bus.Detach | core/events.py:75-76 | the subscriber is gone, and nothing else changes |
| EventDelivery.SentIsDue | daemon/api.py:531-550 | over every interleaving a connection has been sent a prefix of what is due: exactly the last 200 events, or all there were, before it attached, then every later one in order, short of exactly the oldest queued one when 256 waited and one more came |
| EventDelivery.EverythingArrives | daemon/api.py:536-550 | a reader that keeps reading is sent all that is due, and its stream ends if and only if it overflowed or the bus was closed while its queue had room |
| EventDelivery.ClosedWhileFullNeverEnds | core/events.py:106-110 | closing the bus on a full queue leaves that reader waiting for ever |
| EventClients.EventClient.Receive | client/api.py:264-296 | one received piece advances the parser as the specification says, through header, status and lines |
| EventClients.EventClient.YieldLines | client/api.py:288-296 | the loop yields the events of all finished lines and keeps the unfinished one |
| EventClients.FragmentationIndependence | client/api.py:260-296 | however the bytes are cut, also inside the header terminator, the events, the unfinished line and the verdict are those of the stream received whole |
| EventClients.SameBytesSameEvents | client/api.py:260-296 | two ways of cutting the same bytes cannot be told apart |
| EventClients.OnlyDataYields | client/api.py:288-296 | a line yields an event if and only if it carries data that is JSON, and then just that |
| EventStreams.OurHeadIsGood | daemon/api.py:516-523 | the head that is sent is one the client accepts |
| EventStreams.HeadIsAccepted | client/api.py:278-286 | the client finds the end of such a head where it is and not before, and reads its status as success, whatever follows |
| EventStreams.StatusDecides | client/api.py:278-286 | however it is cut and whatever follows, a stream is read if and only if the second word of its status line is 200, and is rejected for good otherwise |
| EventStreams.FrameRenders | core/events.py:39-40 | what is written for an event is the print of an object with exactly its payload, its kind and its time, the payload first where keys agree |
| EventStreams.StreamReadsBack | daemon/api.py:531-559 | a client that received a whole stream, cut anywhere and with keepalives anywhere, has one object for each event written, with its kind, time and payload, in order, and no unfinished line |
| EventStreams.CutStreamReadsPrefix | client/api.py:264-296 | a stream cut off anywhere gives the first of its events and is never taken for a refusal |
| EventStreams.EndToEnd | daemon/api.py:531-550 | from publish to yield: the j-th object the client has carries the kind, the time and the payload of the j-th event due to its connection, and it has all that were sent once it has all that was written |
| EventWitness.LawsCanHold | client/api.py:288-296 | the assumptions made about UTF-8 and JSON text can be met together |
| EventServers.EventStream.Subscribe | daemon/api.py:531-534 | attaching and replaying the history is one step that nothing can come between |
| EventServers.EventStream.Write | daemon/api.py:549-559 | the bytes written stay the head and the frames, and the frames stay the events sent |
| EventServers.EventStream.TakeItem | daemon/api.py:538-548 | the head of the queue is taken, and the sentinel detaches the subscription |
| EventServers.EventStream.Turn | daemon/api.py:536-550 | one item: an event is written, the sentinel ends the stream and detaches it |
| EventServers.EventStream.KeepAlive | daemon/api.py:541-546 | a keepalive adds a comment to the bytes and nothing to the events |
| EventServers.EventStream.Abandon | daemon/api.py:551-552 | a broken connection only detaches its own subscription |
| Chunked.ReadChunked | discover/httpjson.py:58-88 | ends on every finite stream with the specified body or error |
| Chunked.SkipTrailers | discover/httpjson.py:77-82 | reads up to and including the first blank line, or to the end of the stream |
| Chunked.Reader.ReadExactly | discover/httpjson.py:87-88 | exactly that many bytes, or an error for too few left or a negative number |
| Chunked.BodyWithinLimit | discover/httpjson.py:84-86 | no body over the limit is ever returned |
| Chunked.ChunkedRoundTrip | discover/httpjson.py:58-88 | any chunk list, with any spelling of the lengths, extensions with or without blanks before them, and trailers, decodes to the concatenation if and only if that is within the limit, and exactly the encoding is consumed |
| Chunked.EveryHexSpells | discover/httpjson.py:71-75 | every length has such a spelling, with any number of leading zeros and each digit in either case |
| Chunked.EveryLengthSpells | discover/httpjson.py:71-75 | and so it has with underscores between digits, a plus, `0x`, or `0x` and an underscore |
| Chunked.PaddedSizeReadsBack | discover/httpjson.py:71-75 | blanks before a length do not matter, nor does what follows it up to the end of its line |
| Chunked.LengthsExactly | discover/httpjson.py:71-75 | a text is a length if and only if it is of that shape, or of that shape after a minus |
| Chunked.CutStreamExactly | discover/httpjson.py:67-88 | a stream that ends before its last length does is read as a body if and only if it ends within the line of a length and what is left of it reads as zero; the body is then what came before |
| Chunked.CutCanPass | discover/httpjson.py:67-88 | a chunk of ten bytes whose stream, cut after one byte, is read as an empty body |

## Left out

- Unicode tables, IDNA and JSON text: parameters with the laws used (lower-casing of ASCII text, and the identity on plain names; label encoding is the identity on ASCII; printed JSON reads back, is one line and not framed by blanks). Lone surrogates are outside these laws.
- Zones.Namespaces: a set; the daemon sorts it, as it sorts the lists in the record, and only which namespaces they hold matters to their readers.
- Names.NormaliseSettlesExactly: of text that is not ASCII nothing is said, because its label encoding is an arbitrary function here.
- Zones.FromDomains: the zone's record list is assumed to be what `load` returned; the store-watch loop that notices a changed file depends on file-system time stamps.
- Store.DomainStore.Save: backups are not modelled, and the write is one atomic replacement.
- StoreProcesses.FileIsTheCommitsInLockOrder: lock polling is a wait that may time out at any moment; the operating system's lock itself is assumed exclusive and dropped with its process.
- StoreHistory.NamesStayDistinct: excludes renames, because `update` does not check for clashes; see `StoreHistory.RenameKeepsNamesExactly`.
- Model.RoundTripExactly: JSON numbers are integers; the truth value of `enabled` is Python's, over those values.
- Importers.ContainersToDomains: Python's `str` of a label or id that is no string; the listing carries what it renders.
- Store.DomainStore.Update: takes changes of name, enabled, address and note, the fields the control API passes on (daemon/api.py:453-466); the offline backend passes whatever fields its caller names (client/api.py:135-136), and the history theorems are not about changes of id, source or owner.
- Nrpt.ExecEffect: the comparison of comments and namespaces in PowerShell ignores case; here it is equality. The text of the commands and what else can be in the table do not matter.
- Claim.LeftoverPassExactly: the branch for another live daemon (daemon/runner.py:165-167) is left out: a crashed run's process id is assumed dead and not reused, and the pass is one step.
- Claim.CrashSafety: for the Windows rule table; on Linux the links are recorded only after applying, so the recorded path alone does not suffice there.
- Runners.Runner.Start: a record is always written and always readable; a failing write, DNS-filter detection, the capture of upstreams, flushing and the control API are left out.
- Runners.Repair: runs on a machine where nothing is serving; repairing under a live daemon is not modelled.
- Servers.Resolver.Handle: one clock reading for each segment, while the daemon reads its clock at each cache lookup and each mark; a relayed reply over 4096 bytes is cut for a UDP client after this point (resolver/upstream.py:215-221).
- Servers.Upstream.Resolve: the random id is a parameter; filtering the configured servers (`sanitise_upstreams`) is left out, because it is about parsing addresses.
- Failover.FailoverHistory: which order is taken is stated for a clock that starts at zero or later, as `time.monotonic` does; before zero the default mark 0.0 (resolver/upstream.py:116-117) would make every server cold.
- Queries.ForwardsExactly: the message parser, the address parser and the scan for lifetimes are parameters; of the parser only that the id is no part of the question is assumed. Composing our own replies is left out; they are values here.
- Events.Bus.Publish: time stamps and payloads are values; a queue's internal waiting is left out.
- EventServers.EventStream.Turn: writes that fail appear as `Abandon`; the set of open streams is only bookkeeping.
- EventClients.EventClient.Receive: the stop flag and the poll interval; connecting and the request.
- Chunked.ReadChunked: asyncio's limit on the length of a line, and time-outs.
- Sockets, framing of DNS over TCP, service management, elevation, the windows and the control API's other routes: plumbing around the modelled decisions.
