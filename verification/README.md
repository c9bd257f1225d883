# WireStudio: a verified model of its document algorithms

WireStudio turns a `design.json` (a board, components, buses and connections) into firmware
and hardware files. This project models the algorithms that change or read that document and
the small protocols around its stores, and proves what they promise. `dafny verify
dfyconfig.toml` checks all of it.

| Files | What they model |
|---|---|
| `Options`, `Text`, `DesignModel` | absent values, strings and numbered names, the document and the library |
| `PinCandidates`, `PinSolver`, `SolverDecisions` | the greedy pin solver: filters, preference, locks, the pass over the connections |
| `SolverTrace`, `SolverSafety`, `SolverOptimality`, `SolverReplay`, `SolverIdempotence`, `SolverWarnings` | what the solver guarantees: frame, exclusive picks, half of the optimum, `assigned` as an exact diff, idempotence, what is reported unresolved |
| `Compatibility` | the checker's rules for a wired pin, and how far the solver's filters agree with them |
| `SchemaMigration` | several processes of different releases migrating one SQLite file, crashing anywhere |
| `BusIds`, `IdRepair`, `SugarLowering`, `SugarOutcomes`, `DocMigration`, `MigratedContent` | document migration: generated ids, the two id repairs, the LoRaWAN lowering, the version chain, and what all of it keeps |
| `DesignEdits`, `DesignEditor`, `DesignInvariant`, `EditOutcomes`, `CrowdedDesign`, `AddedPart`, `SharedRole` | add, insert, remove, add-bus and solve as functions, as in-place handlers, and what every run of them keeps |
| `Automations`, `AutomationOutcomes`, `ConfigMerge` | the automation validator against the lowering; the recursive config merge |
| `Selections`, `Grouping`, `Inventory`, `InventoryOutcomes` | the parts report, the pick list, accepting substitutes |
| `FirmwarePacker`, `PackingOrder` | first-fit packing of LoRaWAN parts into build designs |
| `DesignEvents`, `CompileRelay`, `HistoryCompaction` | the event bus over its store, the compile-log relay, in-place history compaction |

Code that works in place is a method or a class here, tied by its `ensures` to a function of
the old state; the lemmas are about that function. Runs of several processes, clients or
edits are sequences of moves, and the results about them hold for every sequence.

Where the code and its own text disagree, the model follows the code:

- The pin solver's docstring promises backtracking. There is none; `SolverOptimality` says how
  much that costs.
- Solving is idempotent except when the first run hands out an id that is the empty string;
  `SolveTwice` gives the exact condition, `UnnamedBusIsHandedOut` such a design.
- The half bound needs a board on which no pin with an empty name is preferred to a named one
  (`HalfBoundIff`). Every board whose pins have names is such a board; `UnnamedPinShadows`
  shows one that is not.
- The solver keeps two kinds off input-only pins and the checker treats eight as outputs;
  `KindIsSafeIff` is the exact difference.
- The reserved-id repair checks new names against bus ids only; `NamespacesStayApart`,
  `ComponentsStayApart` and `ComponentReferencesFollowIff` say exactly when that is enough,
  `NamespacesCanMerge` and `SiblingsCanMerge` that it can fail.
- `_next_bus_id` gives up after 999 names and can then return a taken id; `AddKeepsIff` says
  exactly when an added part does that, `AddBreaksACrowd` shows a design.
- `assigned` names a connection by component and role, which need not be unique;
  `ReplayGivesOutputIff` says exactly when it is still a faithful diff.
- Adding a part copies targets back by role, so pins that share a role share a target;
  `NewPinIsExclusiveIff` is the exact condition.
- The validator says bounds on another event would be dropped. The lowering keeps them
  (`BoundsAreKept`).
- The packer promises designs without a repeated field name, and tracks every name but the
  hubs' own. `RepeatFreeIff` says for which hubs the promise holds.
- Compaction keeps the latest result of a call when no call id is used twice; `TrimmedExactly`
  says what it does with any history.

## Model

| member | source | states |
|---|---|---|
| PinCandidates.CollectCandidates | wirestudio/csp/pin_solver.py:79-130 | the candidate loop gives the sorted keys of exactly the board pins the filters let through |
| PinCandidates.SortAscends | wirestudio/csp/pin_solver.py:124-130 | the candidate list is in (special, non-PWM, ADC2, name) order |
| PinCandidates.CandidatesExactly | wirestudio/csp/pin_solver.py:79-130 | a key is in the list if and only if it is the key of a board pin that can serve the library pin |
| PinCandidates.PickGpio | wirestudio/csp/pin_solver.py:375-379 | the loop returns the first unused candidate |
| PinCandidates.PickIsLeastUnused | wirestudio/csp/pin_solver.py:375-379 | the pick can serve, is unused and is least in the preference order among all such pins; there is none only when every pin that can serve is used |
| PinCandidates.FirstUnusedMonotone | wirestudio/csp/pin_solver.py:375-379 | a larger used set can only lose the pick, and keeps it while it is free |
| PinSolver.Solver.constructor | wirestudio/csp/pin_solver.py:237-252 | the solver starts from its own copy of the connections and the design's used pins and slots |
| PinSolver.Solver.ApplyLockedPins | wirestudio/csp/pin_solver.py:417-474 | the in-place lock pass: fills empty targets, reserves, warns, exactly as the specification says |
| PinSolver.Solver.Assign | wirestudio/csp/pin_solver.py:292-296 | binding a target, marking it used and recording it, and nothing else |
| PinSolver.Solver.PickExpanderSlot | wirestudio/csp/pin_solver.py:500-510 | the nested loops find the first free slot in expander order, then number order |
| PinSolver.Solver.BindOne | wirestudio/csp/pin_solver.py:254-369 | one turn of the greedy loop, every branch and error code |
| PinSolver.Solver.BindConnections | wirestudio/csp/pin_solver.py:254-369 | the whole greedy pass over the connections, in place |
| PinSolver.UnknownLockWarnings | wirestudio/csp/pin_solver.py:398-415 | the first lock pass: one warning per lock on a role the part lacks |
| PinSolver.SolvePins | wirestudio/csp/pin_solver.py:200-372 | `solve_pins` as a whole, the no-board and unknown-board answers included |
| SolverTrace.AfterConnections | wirestudio/csp/pin_solver.py:254-369 | each visit edits the visited connection only, once |
| SolverTrace.AfterUsed | wirestudio/csp/pin_solver.py:237-296 | the used pins at any visit are those at the start and those picked before it |
| SolverTrace.UsedAfterLocks | wirestudio/csp/pin_solver.py:151-182 | after the locks, used means bound, in a bus slot, or reserved by a lock |
| SolverTrace.SolvedConnection | wirestudio/csp/pin_solver.py:254-369 | what the solver leaves at each connection, in terms of the input design |
| SolverTrace.SolveFrame | wirestudio/csp/pin_solver.py:254-369 | connections bound on entry keep their targets; owners, roles, components, buses and board do not change |
| SolverDecisions.ParentExactly | wirestudio/csp/pin_solver.py:346-369 | a pin on another component ends on the first component, in dict order, that is an instance of the pin's parent and not the part itself; it is left alone if there is none, and reads as unbound if and only if there is none or its id is empty |
| SolverDecisions.BusExactly | wirestudio/csp/pin_solver.py:298-320 | a bus pin ends on the first bus of its kind's type, and is left alone if the kind has no type or there is no such bus |
| SolverDecisions.BusTypesAgree | wirestudio/designs/seed.py:22-28 | the seeding's table of bus types and the solver's (wirestudio/csp/pin_solver.py:477-488) are the same |
| SolverDecisions.LockExactly | wirestudio/csp/pin_solver.py:417-474 | a gpio pin with no target ends on the pin its component locks its role to |
| SolverDecisions.GpioExactly | wirestudio/csp/pin_solver.py:79-130 | a gpio pin with no target and no lock ends on the free board pin that can take it and is preferred to every other: no boot, strap, LED or console duty first, then PWM, then off ADC2, then by name; it is left alone if there is none |
| SolverDecisions.SlotExactly | wirestudio/csp/pin_solver.py:322-344 | a pin on any expander ends on the free slot that precedes every other free one, expanders in dict order and numbers upwards to 16 or 8, mode and inversion kept; it is left alone if no slot is free |
| SolverDecisions.UsedAtTurn | wirestudio/csp/pin_solver.py:151-175 | the board pins in use when a connection's turn comes, exactly: the eleven bus slots, connections bound on entry, locks of gpio connections, and connections bound before it |
| SolverDecisions.SlotsUsedAtTurn | wirestudio/csp/pin_solver.py:176-183 | the same for the slots of named expanders |
| SolverDecisions.ErrorsExactly | wirestudio/csp/pin_solver.py:204-217 | without a board nothing is solved, and which of the two errors it is |
| SolverDecisions.CodesTell | wirestudio/csp/pin_solver.py:254-369 | each `unresolved` code in terms of the design and the library, and that only a bound connection is passed over |
| SolverSafety.PickIsExclusive | wirestudio/csp/pin_solver.py:254-296 | a greedily picked pin can serve the role, was in no bus slot, bound connection or lock, and ends up on exactly one connection |
| SolverSafety.SlotPickIsExclusive | wirestudio/csp/pin_solver.py:322-344 | a picked expander slot lies on a real expander, below its size, ends up on one connection only, and keeps the target's mode and inversion |
| SolverSafety.GpioConflicts | wirestudio/csp/pin_solver.py:519-530 | the conflict loop reports exactly the pins with several users, with all of them |
| SolverSafety.ConflictsAreNotGreedy | wirestudio/csp/pin_solver.py:519-530 | every user of a pin reported as conflicting after solving was bound on entry or by a lock |
| SolverOptimality.LostToEarlierPick | wirestudio/csp/pin_solver.py:284-296 | a connection greedy leaves unbound lost each pin that was free for it to an earlier pick |
| SolverOptimality.GreedyBindsAtLeastHalf | wirestudio/csp/pin_solver.py:254-296 | any conflict-free assignment of named pins free after the locks binds at most twice as many connections as the greedy pass, on a board that meets the condition of the next row |
| SolverOptimality.HalfBoundIff | wirestudio/csp/pin_solver.py:254-296 | on a given board that bound holds for every design, library and assignment if and only if no pin with an empty name is preferred to a named pin that would do |
| SolverOptimality.UnnamedPinShadows | wirestudio/csp/pin_solver.py:128-129 | a board with such a pin |
| SolverOptimality.NamedPinsCastNoShadow | wirestudio/csp/pin_solver.py:128-129 | a board whose pins all have names has none |
| SolverOptimality.HalfIsTight | wirestudio/csp/pin_solver.py:254-296 | the factor two is reached: a plan binds two connections, the solver one, because a digital pin takes the only analog one |
| SolverReplay.ReplayGivesOutputIff | wirestudio/csp/pin_solver.py:241-370 | for any design, replaying `assigned` over the input gives the output if and only if every connection an entry's (component, role) pair names ends with that entry's target |
| SolverReplay.ReplayGivesOutput | wirestudio/csp/pin_solver.py:241-370 | so with distinct (component, role) pairs it always gives exactly the output design |
| SolverReplay.RepeatedPairIsLost | wirestudio/csp/pin_solver.py:241-370 | a design with a repeated pair for which it does not |
| SolverReplay.ChangesHaveEntries | wirestudio/csp/pin_solver.py:241-370 | every connection the solver changed has an entry with its new target |
| SolverReplay.EntriesDescribeTheChange | wirestudio/csp/pin_solver.py:241-370 | each entry of `assigned` filled an unbound target and holds its old and new value |
| SolverIdempotence.SlotsAreDealtInOrder | wirestudio/csp/pin_solver.py:322-344 | the k-th connection that asks for an expander slot gets the k-th slot free on entry |
| SolverIdempotence.SolveTwice | wirestudio/csp/pin_solver.py:200-372 | solving a solved design assigns nothing if and only if the first run handed out no empty id (decided on the input), and then returns the design unchanged |
| SolverIdempotence.UnnamedBusIsHandedOut | wirestudio/csp/pin_solver.py:298-320 | a design that is handed one: its bus has an empty id, and every run assigns again |
| SolverWarnings.LockWarningsExactly | wirestudio/csp/pin_solver.py:398-468 | the lock warnings, exactly: one is among them if and only if its component locks a role its library entry does not declare, or it is about a connection whose lock is for another kind of target or disagrees with the pin it is bound to |
| SolverWarnings.LeftUnboundExactly | wirestudio/csp/pin_solver.py:254-257 | the connections still unbound, as listed for `UnresolvedExactly`: exactly those, each once, in design order |
| SolverWarnings.UnresolvedExactly | wirestudio/csp/pin_solver.py:254-369 | `unresolved` is the lock warnings and then, for the connections still unbound in order, one warning each with its decision's code and none for any other, if and only if no empty id was handed out |
| SolverIdempotence.SolveIdempotent | wirestudio/csp/pin_solver.py:200-372 | in particular solving is idempotent on every design whose components and buses have names, whatever the mix of targets and locks |
| Compatibility.CheckConnections | wirestudio/csp/compatibility.py:84-289 | the checker loop returns a finding if and only if some connection resolves, sits on a known board pin and meets the condition of the rule behind the finding's code |
| Compatibility.AllFindingsExactly | wirestudio/csp/compatibility.py:84-289 | the same of the list after any number of connections |
| Compatibility.FindingsExactly | wirestudio/csp/compatibility.py:114-289 | each code is reported if and only if its condition holds, code by code |
| Compatibility.PickAgainstChecker | wirestudio/csp/compatibility.py:114-289 | the solver's pick never draws an error except input-only on a gap kind; a strap or console warning only when every ordinary candidate was taken |
| Compatibility.KindIsSafeIff | wirestudio/csp/compatibility.py:45-62 | a kind is safe from checker errors on every board and used set if and only if it is not a kind the checker drives and the solver does not (`spi_cs` is the one with gpio targets) |
| Compatibility.GapWitness | wirestudio/csp/compatibility.py:45-62 | for each such kind, a board where the solver picks an input-only pin the checker rejects |
| Compatibility.SolvedPickIsClean | wirestudio/csp/compatibility.py:114-289 | in a solved design the only error on a greedily bound connection is that gap |
| Compatibility.SolvedErrorsAreExcused | wirestudio/csp/compatibility.py:65-289 | every error the checker reports on a solved design is on a pin bound on entry, bound by a lock, or picked for a gap kind |
| Compatibility.LockedPickIsValid | wirestudio/csp/compatibility.py:325-375 | locking the pin the solver would pick is never reported as an invalid lock |
| SchemaMigration.Migrate | wirestudio/sqlite_store.py:50-79 | the loop: older releases raise and change nothing; otherwise exactly the missing steps are applied, or the file stays at the last step that succeeded |
| SchemaMigration.NextKeepsInv | wirestudio/sqlite_store.py:50-79 | every statement, time-out or crash of any process keeps the invariant |
| SchemaMigration.EveryRunIsSafe | wirestudio/sqlite_store.py:50-79 | over every interleaving with crashes the committed file is steps 0 to version-1 in order, each committed exactly once; who returned saw its whole list, who raised is older than the file and committed nothing if it began so |
| SchemaMigration.EveryLoopEnds | wirestudio/sqlite_store.py:58-74 | every process's loop ends within a bound that counts the steps between version and list length |
| SchemaMigration.SomeoneCanProceed | wirestudio/sqlite_store.py:58-74 | while a process is not over, some process can proceed |
| SchemaMigration.LegacyFile | wirestudio/sqlite_store.py:3-10 | a file from before versioning whose first step is idempotent becomes indistinguishable from a fresh one |
| BusIds.GeneratedNeverReserved | wirestudio/model.py:72-82 | no bus type and number generate an id ESPHome reserves |
| BusIds.GeneratedSpelled | wirestudio/model.py:72-82 | a generated id is the type and the number, with `_bus` between for `uart` and `spi` only |
| BusIds.SuffixedNeverReserved | wirestudio/migrate.py:261-267 | a suffixed id is never reserved either |
| BusIds.FreeBusId | wirestudio/migrate.py:183-189 | the loop returns the first generated id that is not taken |
| IdRepair.ReferenceKeysExactly | wirestudio/migrate.py:192-211 | which keys hold references: `sensor`, and those ending in `_id` but for the two that name library entries |
| IdRepair.RenameAt | wirestudio/migrate.py:197-219 | every string of the document before and after: ids and references are renamed once, everything else (`library_id` and `module_id` too) stays, nothing appears or goes |
| IdRepair.RenameMirrors | wirestudio/migrate.py:197-219 | a rename adds, drops and reshapes nothing at any place: same keys, same list lengths, same scalars |
| IdRepair.FollowsIff | wirestudio/migrate.py:197-219 | a reference names the same entries of a section before and after any rename if and only if the rename keeps the section's ids apart from it |
| IdRepair.PlanRenames | wirestudio/migrate.py:229-235 | the loop that grows the rename map and the taken set together |
| IdRepair.PlanIsFresh | wirestudio/migrate.py:229-235 | the renames go exactly from the listed ids to names that are distinct and free of every id |
| IdRepair.RenameIsInjective | wirestudio/migrate.py:197-235 | the rename is injective on ids and on any reference not already equal to a fresh name |
| IdRepair.RepairReservedBusIds | wirestudio/migrate.py:222-236 | the reserved-id repair, and when it reports a change |
| IdRepair.BusReferenceFollowsIff | wirestudio/migrate.py:222-236 | with no condition on the namespaces, a bus reference names the same buses before and after if and only if it does not already equal a fresh name; so every one that resolved follows |
| IdRepair.ComponentReferenceFollowsIff | wirestudio/migrate.py:222-236 | a component reference does if and only if its new name is no component's id and it is not itself the new name of one |
| IdRepair.ComponentReferencesFollowIff | wirestudio/migrate.py:222-236 | every component reference that resolved follows if and only if no component that shares a reserved bus's id has a sibling holding that bus's new name |
| IdRepair.NoReservedLeft | wirestudio/migrate.py:222-236 | no reserved bus id is left |
| IdRepair.NamespacesStayApart | wirestudio/migrate.py:229-236 | component and bus ids that were disjoint stay so if and only if no new name is a component's id |
| IdRepair.ComponentsStayApart | wirestudio/migrate.py:229-236 | component ids stay apart if and only if no component that shares a reserved bus's id has a sibling holding that bus's new name |
| IdRepair.NamespacesCanMerge | wirestudio/migrate.py:229-236 | a document whose repaired bus takes a component's id |
| IdRepair.SiblingsCanMerge | wirestudio/migrate.py:222-236 | a document in which two components end up with one id and a reference to one of them does not follow |
| IdRepair.RepairIntegrationNames | wirestudio/migrate.py:259-272 | the integration-name repair, and when it reports a change |
| IdRepair.IntegrationRepairKeepsReferences | wirestudio/migrate.py:259-272 | every resolving reference follows, with no condition on the namespaces |
| IdRepair.IntegrationNamesUnreserved | wirestudio/migrate.py:259-272 | the second repair introduces no reserved id |
| DocMigration.RunChain | wirestudio/migrate.py:305-312 | the version loop applies the remaining suffix of the chain and ends at the current version |
| DocMigration.RunRepairs | wirestudio/migrate.py:313-317 | the two repairs run in order and name themselves when they changed something |
| DocMigration.MigrateDocument | wirestudio/migrate.py:285-322 | `migrate` as a whole, its three refusals included |
| DocMigration.RefusedExactly | wirestudio/migrate.py:285-297 | the three refusals, each for its one reason, and only documents of the four versions migrated |
| DocMigration.MigrationReachesCurrent | wirestudio/migrate.py:305-322 | it reaches the current version by exactly the missing steps, in order, and at most the two repairs after them |
| DocMigration.RepairedIsClean | wirestudio/migrate.py:222-272 | after the second repair neither repair has anything to do |
| DocMigration.RepairTwice | wirestudio/migrate.py:275-278 | repairing a repaired document changes nothing, given that new names are not refused |
| DocMigration.MigrateTwice | wirestudio/migrate.py:285-322 | migrating a migrated document applies no step and no repair and returns it as it is |
| MigratedContent.DropsExactly | wirestudio/migrate.py:56-69 | dropping the unread fields leaves nothing under the three at the top and the four in the `lorawan` block, and at every other place what was there |
| MigratedContent.MigrationKeeps | wirestudio/migrate.py:9-15 | at every place the lowering leaves alone a migrated document holds what it held, the unread fields of versions 0.1 and 0.2 and the version apart; ids and references carry the repairs' renames, no other string changes, nothing appears |
| MigratedContent.FirstRenamesExactly | wirestudio/migrate.py:183-236 | the first repair renames exactly the buses with a reserved id, each to its type's first number not in use |
| MigratedContent.KindExactly | wirestudio/migrate.py:183-189 | the type a new bus id is made from: the entry's own, `bus` when it has none |
| MigratedContent.SecondRenamesExactly | wirestudio/migrate.py:239-272 | the second renames exactly the refused ids, and only when some id is an integration name: a bus for its type, a component after its id |
| SugarLowering.Lowering.TakeId | wirestudio/migrate.py:108-116 | the fresh-id loop: the base, else the first free numbered one, then taken |
| SugarLowering.Lowering.RunGps | wirestudio/migrate.py:132-140 | the gps block: a UART bus and a wired part |
| SugarLowering.Lowering.RunDht | wirestudio/migrate.py:142-146 | the dht22 block |
| SugarLowering.Lowering.RunOled | wirestudio/migrate.py:148-165 | the oled block: reuses the first I2C bus, else adds one from the board's defaults, else leaves the part unwired |
| SugarLowering.LowerSugar | wirestudio/migrate.py:80-172 | the whole lowering, in place on its own lists |
| SugarLowering.StagesAppend | wirestudio/migrate.py:132-165 | each block only appends, with ids fresh among all component and bus ids, distinct from one another, and connections that name a part and a bus present in the result |
| SugarLowering.LoweringAppends | wirestudio/migrate.py:80-172 | the old lists are prefixes of the new ones; exactly the wanted kinds are added, one part each and none already present; no sugar field remains |
| SugarLowering.LoweringTwice | wirestudio/migrate.py:175-180 | the last step's second lowering changes nothing |
| SugarOutcomes.GpsExactly | wirestudio/migrate.py:132-140 | the names the GPS block takes, its bus with both pins and the baud rate, its part, its supply and both data pins on that bus |
| SugarOutcomes.OledExactly | wirestudio/migrate.py:148-165 | the display's bus, address and supply pin, and its wiring |
| SugarOutcomes.LoweringExactly | wirestudio/migrate.py:80-172 | the lowered document: the lists it had, then entry by entry what each block stands for that is there, switched on and not yet a part of the design |
| DesignEdits.LowestRail | wirestudio/designs/seed.py:56-72 | the supply chosen is the lowest rail in the part's band, if there is one |
| DesignEdits.FindBusId | wirestudio/designs/seed.py:119-125 | the loop over the 999 names and its fallback |
| DesignEditor.Document.AddMissingBuses | wirestudio/designs/seed.py:94-116 | bus preparation in place, in any iteration order of the needed types |
| DesignEditor.Document.SeedConnections | wirestudio/designs/seed.py:128-160 | one connection per library pin, appended in place |
| DesignEditor.Document.FreshInstanceId | wirestudio/designs/seed.py:179-188 | the instance id: the hint if free, else the first free numbered name |
| DesignEditor.Document.AddPart | wirestudio/designs/seed.py:163-220 | adding a part in place, with the rename of an id ESPHome refuses |
| DesignEditor.Document.Add | wirestudio/agent/tools.py:634-667 | the add-component handler: seed, drop empty buses, solve, adopt the new part's targets |
| DesignEditor.Document.AdoptTargets | wirestudio/agent/tools.py:663-667 | only the new part's connections take the solver's targets |
| DesignEditor.Document.Insert | wirestudio/designs/seed.py:243-266 | inserting a module in place; at a part missing from the library it stops with what it has added |
| DesignEditor.Document.Remove | wirestudio/agent/tools.py:682-690 | removing a component and its connections in place |
| DesignEditor.Document.NewBus | wirestudio/agent/tools.py:730-772 | the add-bus handler with its three refusals |
| DesignEditor.Document.SolveInPlace | wirestudio/agent/tools.py:830-848 | the document becomes the solver's result |
| DesignInvariant.NextBusIdCollidesIff | wirestudio/designs/seed.py:119-125 | the generated bus id collides if and only if all 999 names and the fallback are taken |
| CrowdedDesign.NamesRunOut | wirestudio/designs/seed.py:119-125 | a thousand distinct buses for which the generated id is taken |
| DesignInvariant.AddKeepsIff | wirestudio/designs/seed.py:94-125 | adding one part to a sound design keeps it sound if and only if no bus type seeded for it has all its 999 names and the fallback taken |
| CrowdedDesign.AddBreaksACrowd | wirestudio/designs/seed.py:94-125 | a sound design of a thousand buses that one added part leaves with two buses of one id |
| DesignInvariant.ApplyKeeps | wirestudio/agent/tools.py:634-848 | one edit keeps ids distinct, owners present and bus targets resolved or empty |
| DesignInvariant.EveryRunKeeps | wirestudio/agent/tools.py:634-848 | every run of add, insert, remove, add-bus and solve, of any length, keeps them, while the buses at the start, the bus types still missing and the buses added by hand together stay within 999 |
| EditOutcomes.NewPinsStart | wirestudio/designs/seed.py:39-91 | where every pin of an added part starts: a power pin on a rail of least voltage in the part's band, else 3V3, else a live rail, else any, else 3V3 by name; a ground pin on the first 0 V rail, else one named for ground, else GND; a bus pin on the first bus of its type or none; any other pin blank |
| EditOutcomes.NewPinsEnd | wirestudio/agent/tools.py:634-667 | where they end after the solver: supplies, grounds and passthroughs as they started, and a bus pin with a role of its own on the first bus of its type in the document as it then is |
| EditOutcomes.BusesThatCome | wirestudio/designs/seed.py:94-125 | the buses that come with a part: one for each type its pins need and the design lacks, none twice, on the board's defaults, each with the first free numbered name |
| EditOutcomes.BusesThatStay | wirestudio/agent/tools.py:648-659 | of those the document keeps exactly the ones that have the pins their type needs, and every bus it had |
| EditOutcomes.NewIdExactly | wirestudio/designs/seed.py:179-218 | the id offered when it is free, else the first free numbered name of the library id, and the first free number after that when ESPHome refuses it |
| EditOutcomes.RemoveExactly | wirestudio/agent/tools.py:682-690 | a removal is refused if and only if no part has the id; it leaves exactly the other parts and the connections of other owners, in order and each as often as before, and board and buses as they were |
| EditOutcomes.NewBusExactly | wirestudio/agent/tools.py:727-772 | a bus added by hand holds the fields given and the board's defaults for the rest; it is refused if and only if its id is reserved or taken or it shares a pin with another bus |
| EditOutcomes.InsertPartExactly | wirestudio/designs/seed.py:243-266 | a module's part is added as by hand and the new component alone carries the module's mark |
| EditOutcomes.RunsInOrder | wirestudio/agent/tools.py:634-848 | a run of edits is the edits one after the other |
| EditOutcomes.EditsExactly | wirestudio/agent/tools.py:634-848 | one edit of a run leaves the document as it was exactly when it is refused, and otherwise as its handler makes it |
| EditOutcomes.InsertStopsAt | wirestudio/designs/seed.py:243-266 | insertion stops at the first part the library lacks and keeps the parts before it |
| AddedPart.AddingTouchesNothingElse | wirestudio/designs/seed.py:163-220 | adding a part appends one component and exactly one connection per library pin and changes no other component, bus or connection |
| AddedPart.NewTargetIsSolved | wirestudio/agent/tools.py:662-667 | each new connection ends up with the target the solver gave the last pin of its role |
| AddedPart.NewPinsExactly | wirestudio/agent/tools.py:660-667 | a board pin the new part ends up on carries no bus and no connection the design had, and of the new connections exactly those of that role |
| AddedPart.NewPinIsExclusiveIff | wirestudio/agent/tools.py:660-667 | so it carries no other connection at all if and only if no other pin of the part has the role |
| SharedRole.SharedRoleCollides | wirestudio/agent/tools.py:662-667 | a part whose two pins share a role and end up on one board pin |
| Automations.LowerAutomations | wirestudio/generate/yaml_gen.py:179-296 | the lowering loop, every drop included |
| Automations.ValidateAutomations | wirestudio/intent.py:34-196 | the validator loop, every warning in order |
| Automations.ContributesExactly | wirestudio/generate/yaml_gen.py:253-295 | an automation contributes nothing if and only if it has no key or no action left; else under its bounds, if any, one `if` with all its lowered conditions around all its lowered actions, or without conditions the actions one by one |
| AutomationOutcomes.KeyExactly | wirestudio/generate/yaml_gen.py:200-216 | a trigger has a key if and only if its component offers the event on the channel, and the first such offer makes it |
| AutomationOutcomes.ConditionExactly | wirestudio/generate/yaml_gen.py:262-276 | a condition lowers if and only if its component has the check, to the first such check's key |
| AutomationOutcomes.ActionExactly | wirestudio/generate/yaml_gen.py:223-251 | an action lowers if and only if its component accepts it and its song, if any, is known; bare without arguments, else argument by argument |
| AutomationOutcomes.LoweredInOrder | wirestudio/generate/yaml_gen.py:223-276 | the lowered actions and conditions are those that lower, each once and in order |
| AutomationOutcomes.WarningsExactly | wirestudio/intent.py:56-195 | the validator's warnings, exactly: each code's fault of the trigger, a condition or an action |
| Automations.ActionAgreement | wirestudio/intent.py:151-195 | an action is dropped in silence if and only if its library entry is missing; one without a warning is lowered |
| Automations.ConditionAgreement | wirestudio/intent.py:119-149 | the same for a condition |
| Automations.TriggerAgreement | wirestudio/intent.py:73-117 | the same for a trigger and its event key |
| Automations.QuietMeansComplete | wirestudio/generate/yaml_gen.py:188-295 | with entries resolving and an action, an automation without a warning is lowered under its event key with every action and every condition, in order |
| Automations.DroppedIsReported | wirestudio/intent.py:56-195 | whatever the lowering drops has a warning naming its automation and component |
| Automations.SilentOnlyWithoutActions | wirestudio/generate/yaml_gen.py:253-254 | an automation without warnings is dropped if and only if it has no actions |
| Automations.BoundsAreKept | wirestudio/generate/yaml_gen.py:285-293 | a lowered automation with bounds keeps both, whatever its event: the drop announced at wirestudio/intent.py:61-65 does not happen |
| Automations.SharedEventsConcatenate | wirestudio/generate/yaml_gen.py:293-295 | automations on one event contribute one after the other; nothing else is in the map |
| ConfigMerge.DeepMerge | wirestudio/generate/yaml_gen.py:168-176 | the in-place merge loop |
| ConfigMerge.AssociativeIff | wirestudio/generate/yaml_gen.py:168-176 | merging three fragments either way agrees if and only if a condition on their shapes, key by key, holds |
| ConfigMerge.AgreeingAssociate | wirestudio/generate/yaml_gen.py:168-176 | fragments whose shapes agree meet that condition |
| ConfigMerge.MergeJoinsLists | wirestudio/generate/yaml_gen.py:168-176 | at every key path the merged list is the first fragment's and then the second's |
| ConfigMerge.EmitLorawan | wirestudio/generate/yaml_gen.py:426-535 | the LoRaWAN blocks: appended to the two lists, the `lorawan` block assigned outright |
| ConfigMerge.EmitIsMergeIff | wirestudio/generate/yaml_gen.py:426-535 | emitting is merging one more fragment if and only if the assigned block leaves nothing behind of what was under its key |
| ConfigMerge.BuildConfig | wirestudio/generate/yaml_gen.py:653-667 | the end of the document: the fold over the base and the components, the LoRaWAN blocks, the extras |
| ConfigMerge.NothingIsLost | wirestudio/generate/yaml_gen.py:653-667 | at every key path a fold's list is all the fragments' lists in order |
| ConfigMerge.BuiltLists | wirestudio/generate/yaml_gen.py:653-667 | so is the built document's: the fragments', the LoRaWAN blocks' and the extras', in that order |
| Grouping.GroupAll | wirestudio/inventory/check.py:251-261 | the group-as-you-go dict |
| Grouping.GroupingPartitions | wirestudio/inventory/check.py:251-261 | each key's row is exactly the items with that key, in order; no row is empty, no key repeats, nothing is lost or doubled |
| Grouping.GroupingConserves | wirestudio/inventory/check.py:122-147 | any count taken over the rows equals the count over the items |
| Inventory.CheckParts | wirestudio/inventory/check.py:234-305 | the parts report, one line a group |
| Inventory.PartsAreConserved | wirestudio/inventory/check.py:234-305 | every valued part and every passive is in exactly one line; a line's references are its items' in order, and `needed` adds up to their number |
| Inventory.LinesShareNoKey | wirestudio/inventory/check.py:262-305 | when parts have keys of their own, lines have disjoint keys |
| Inventory.PickList | wirestudio/inventory/check.py:117-147 | the pick-list loop |
| Inventory.PickListConserves | wirestudio/inventory/check.py:117-147 | each tracked line is in exactly one group, and counts and needs add up to the lines' |
| Inventory.ApplySubstitutions | wirestudio/inventory/check.py:499-523 | the substitution loop |
| Inventory.OverridesExactly | wirestudio/inventory/check.py:499-523 | the keys of short lines with a proposal go to the last such line's, every other override stays |
| InventoryOutcomes.AcceptedExactly | wirestudio/inventory/check.py:499-523 | after accepting, a key holds the proposal of the last short line that wants it, and any other key what it held |
| Inventory.AgainIsQuietIff | wirestudio/inventory/check.py:499-523 | applying the same proposals again leaves every override, and reports nothing if and only if no two lines disagree over a key |
| Inventory.ReportIsConsistent | wirestudio/inventory/check.py:262-305 | the lines of a report of parts with keys of their own never disagree, whatever is proposed for them |
| Inventory.AcceptingTwice | wirestudio/inventory/check.py:499-523 | so accepting a report's proposals a second time reports nothing and changes no override |
| InventoryOutcomes.LinesExactly | wirestudio/inventory/check.py:278-305 | a line's value, count, references, keys, stock, place and status, from the items of its group and the drawer |
| InventoryOutcomes.ItemsExactly | wirestudio/inventory/check.py:263-276 | the items of a report: the placed parts that are no symbol and have a value, in order, then the passives |
| InventoryOutcomes.PicksExactly | wirestudio/inventory/check.py:133-144 | what is pulled: component lines no subcircuit covers and tracked part lines, in order |
| InventoryOutcomes.PlacesExactly | wirestudio/inventory/check.py:122-131 | each group of the pick list is one place and holds exactly the lines pulled from there |
| FirmwarePacker.ComponentGroups | scripts/build_lorawan_firmware.py:60-83 | the grouping loop: who is packed and where |
| FirmwarePacker.PlaceFirst | scripts/build_lorawan_firmware.py:74-83 | the first-fit inner loop, or a new group |
| FirmwarePacker.PackingIsSound | scripts/build_lorawan_firmware.py:60-83 | each packed part is in exactly one group, together with its hub; members are distinct packed parts or their hubs; the tracked names are exactly the packed members' fields, pairwise disjoint; the recorded UARTs are the members' true count, at most two |
| FirmwarePacker.UartBuses | scripts/build_lorawan_firmware.py:89-108 | the pin-pair iterator: it suffices if and only if at most two members have a UART pin, and gives each its own pair |
| FirmwarePacker.PairsSuffice | scripts/build_lorawan_firmware.py:89-108 | so it never runs out on a packed group when, of the parts with a `lorawan:` block, only those that ask for a UART have UART pins |
| FirmwarePacker.RepeatFreeIff | scripts/build_lorawan_firmware.py:51-57 | for a set of hubs, every design of every library that uses these hubs, on every board, is free of repeated field names (the board's included) if and only if none of the hubs reports a field |
| FirmwarePacker.HubIsSafeIff | scripts/build_lorawan_firmware.py:51-57 | for one hub: in no library and on no board is one of its fields repeated in a design it rides in, if and only if it has none |
| FirmwarePacker.HubsApartNeverRepeat | scripts/build_lorawan_firmware.py:51-83 | a library whose hubs' fields are disjoint from the board's and from every other part's gets only designs without a repeat |
| FirmwarePacker.FieldlessHubsNeverRepeat | scripts/build_lorawan_firmware.py:51-83 | in particular a library whose packed parts' hubs report no fields |
| FirmwarePacker.EchoRepeats | scripts/build_lorawan_firmware.py:68-83 | for any hub that reports a field, a library that gets a design with the field twice |
| PackingOrder.CarriedExactly | scripts/build_lorawan_firmware.py:60-83 | the packing carries exactly the parts with a block that report nothing the board does and are no bare hub, and their hubs |
| PackingOrder.NoEarlierRoom | scripts/build_lorawan_firmware.py:74-83 | in the finished packing no part could be moved to an earlier group: a field would be reported twice there, or more than two UARTs needed |
| PackingOrder.DrawsExactly | scripts/build_lorawan_firmware.py:100-108 | the members that draw a pin pair are those with a transmit or receive pin |
| DesignEvents.Queue.Get | wirestudio/designs/events.py:53-56 | receiving takes the oldest waiting event |
| DesignEvents.DesignEventBus.Subscribe | wirestudio/designs/events.py:53-56 | a fresh queue joins the id's set |
| DesignEvents.DesignEventBus.Unsubscribe | wirestudio/designs/events.py:58-64 | the queue leaves, and an emptied set goes |
| DesignEvents.DesignEventBus.Publish | wirestudio/designs/events.py:66-68 | every queue of the id, and no other, gets the event at its end |
| DesignEvents.DesignEventBus.SubscriberCount | wirestudio/designs/events.py:70-71 | the number of queues subscribed |
| DesignEvents.EventEmittingDesignStore.Save | wirestudio/designs/events.py:99-102 | the write, then one event if and only if it succeeded |
| DesignEvents.EventEmittingDesignStore.Delete | wirestudio/designs/events.py:104-108 | the delete, then one event if and only if something was removed |
| DesignEvents.NoEmptySets | wirestudio/designs/events.py:53-64 | over every run no empty subscriber set survives |
| DesignEvents.ListensToItsOwn | wirestudio/designs/events.py:53-64 | a queue only ever listens to the id it was made for |
| DesignEvents.OneEventPerWrite | wirestudio/designs/events.py:99-108 | a save that succeeds and a delete that removes publish one event each, which says what the store now holds; nothing else publishes |
| DesignEvents.Delivery | wirestudio/designs/events.py:50-71 | over every run, what a subscriber consumed and then what waits for it are, in order, the events published for its id while subscribed |
| DesignEvents.LastEventTells | wirestudio/designs/events.py:50-108 | a continuous subscriber's last event says whether the design exists; with none yet, its existence has not changed since it subscribed |
| CompileRelay.DashboardJob.Relay | wirestudio/esphome_dashboard/__init__.py:350-368 | the relay loop, its two failure paths, cancellation, and its `finally` |
| CompileRelay.DashboardJobs.Start | wirestudio/esphome_dashboard/__init__.py:341-348 | a fresh job filed under the drawn run id |
| CompileRelay.DashboardJobs.Log | wirestudio/esphome_dashboard/__init__.py:370-375 | the chunk from any offset, negative or past the end too, and none for an unknown run |
| CompileRelay.PollersHaveAPrefix | wirestudio/esphome_dashboard/__init__.py:350-375 | under any interleaving a client that passes back each offset has a prefix of the log, and the whole log once it saw the end |
| CompileRelay.FinishedFreezes | wirestudio/esphome_dashboard/__init__.py:366-368 | `finished` is sticky and freezes the job; before it the log only grows |
| CompileRelay.DoneHasFinalLog | wirestudio/esphome_dashboard/__init__.py:350-375 | a client that saw the end holds the log as it will stay |
| CompileRelay.OnePollAfterTheEnd | wirestudio/esphome_dashboard/__init__.py:370-375 | one poll after the end is enough to see it and have everything |
| CompileRelay.PollsDoNotDisturb | wirestudio/esphome_dashboard/__init__.py:350-375 | the job is what the relay alone makes of the events it took and of how it ended |
| CompileRelay.LineExactly | wirestudio/esphome_dashboard/__init__.py:354 | a relayed line is what was sent, with one newline added if it has none at its end |
| CompileRelay.FinishedJob | wirestudio/esphome_dashboard/__init__.py:350-368 | a finished log is the relayed lines and then the failure notice, the error that failure or the last reason given; the job passed if and only if neither handler caught a failure and the last verdict was a success, so a relay cancelled after that verdict has passed |
| HistoryCompaction.FindCalls | wirestudio/agent/agent.py:188-195 | the recorded tool calls, as the dict holds them |
| HistoryCompaction.CompactToolResults | wirestudio/agent/agent.py:183-218 | the in-place pass; it returns exactly the characters removed |
| HistoryCompaction.RemovesExactly | wirestudio/agent/agent.py:200-218 | compaction never adds a character, and removes none if and only if it changes nothing |
| HistoryCompaction.CompactTwice | wirestudio/agent/agent.py:200-218 | a second pass changes nothing, so it removes 0 |
| HistoryCompaction.TrimShortens | wirestudio/agent/agent.py:180-217 | every trim makes the result strictly shorter |
| HistoryCompaction.TrimmedExactly | wirestudio/agent/agent.py:188-218 | in any history a result is trimmed if and only if it is longer than 400 characters, not trimmed yet, and another call id, first used later, ended up on the same tool and input |
| HistoryCompaction.CompactedExactly | wirestudio/agent/agent.py:183-218 | the whole history after compaction, block by block: exactly the long, untrimmed results of superseded calls in user messages become their digests, every other block and message stays |
| HistoryCompaction.TrimmedIffSuperseded | wirestudio/agent/agent.py:183-218 | with no call id used twice: if and only if a later call has the same tool and input, so the latest of each stays verbatim |
| HistoryCompaction.ReusedIdLosesTheLatest | wirestudio/agent/agent.py:188-199 | a history that reuses an id and loses its latest result |
| HistoryCompaction.SameKeyIff | wirestudio/agent/agent.py:193-195 | the concatenated key is as good as the pair of tool and input text |
| Text.FindFree | wirestudio/migrate.py:112-116 | the search for a free numbered name ends, at the first one that is free |

## Left out

- Expander sizes written as digit roles (wirestudio/csp/pin_solver.py:233): that branch takes a maximum over strings and then a range of it, which Python refuses, so sizes come from `_expander_size_for` alone.
- The solver's current-budget warning and the expander half of its static warnings; they read the result and change nothing.
- The checker's reserved-id, bus-pin and RMT-memory findings and `strict_blockers`, which filters findings by severity: easy members.
- Labels, params, timestamps and warning texts: a warning is its code and its subject.
- PinSolver.SolvePins: the result carries no static `warnings`; their gpio half is `SolverSafety.GpioConflicts`, run on the solved connections. That the deep copy keeps the input apart from the result is the value semantics of the model, not proved of Python's references.
- EditOutcomes.NewPinsEnd: says of a bus pin where it ends when no other pin of the part has its role; with a repeated role the first such pin decides, as `SharedRole` shows.
- EditOutcomes.InsertPartExactly: the module's mark is given; the choice of its instance name in `_next_module_instance` is not modelled.
- SolverDecisions.SlotsUsedAtTurn: speaks of expanders with a non-empty id, the only ones a bound connection can name.
- DesignInvariant.EveryRunKeeps: asks that the buses at the start, the bus types still missing and the buses added by hand stay within 999, which can be checked before the run; for a single added part `AddKeepsIff` is exact.
- Whether ESPHome refuses an id (`_esphome_refuses`, `esphome_id_conflicts`) is an arbitrary predicate on the document and the id.
- The iteration order of Python sets is a parameter; the proofs hold for every order.
- `isalnum` and `lower` are ASCII only, and JSON objects carry no key order.
- A board's `default_buses` entries are taken to hold slots and settings only, no `id` or `type` of their own.
- IdRepair.RenameAt: asks that `components` and `buses`, where present, are lists, as the renaming code itself does.
- SugarLowering.LowerSugar: works on a typed document; a sugar block without its required pin fields, which raises in the original, cannot be written down. In the version chain the lowering is an arbitrary function.
- MigratedContent.MigrationKeeps: speaks of the places the lowering leaves alone, because in the version chain the lowering is an arbitrary function; what it adds is `SugarOutcomes.LoweringExactly`.
- DocMigration.MigrateTwice: the hypothesis that ESPHome does not refuse the names a repair has just chosen is needed, because which ids it refuses is outside the model.
- SchemaMigration.EveryRunIsSafe: BEGIN IMMEDIATE admits one writer and a transaction commits or rolls back whole, `user_version` with it; that is SQLite's promise, taken as the transition rules. WAL mode, busy time-outs in seconds and `backup` are not modelled.
- ConfigMerge.DeepMerge: merges values; that `_deep_merge` keeps references into its source is not modelled.
- Automations.LowerAutomations: action arguments and transforms are opaque apart from `song` and `rtttl`.
- `render_component`, Jinja and YAML output: a rendered fragment is an opaque tree.
- Inventory.CheckParts: lines stay in the order their groups were met and carry no substitutes; the sort for display, the ranking in `find_substitutes`, `subcircuit_coverage` and the drawer's own look-up are not modelled. A proposal is any function of the line.
- Inventory.PickList: groups stay in the order they were met.
- FirmwarePacker.PackingIsSound: asks for distinct component ids and, for each part that is packed and on a hub, a hub that is found, has a `lorawan:` block and is itself on no hub; otherwise the script raises or packs a hub without its own hub. Parts the script passes over, those without a block among them, may be anything.
- FirmwarePacker.RepeatFreeIff: speaks of hubs with a `lorawan:` block and no hub pin of their own, the only ones the script can pack.
- The rest of the packer's design building (gpio cycling, instance ids, the library's own files).
- DesignEvents.EventEmittingDesignStore.Save: which id a save goes to, or that it is refused, is a function given to the store; its files are not modelled.
- CompileRelay.DashboardJob.Relay: an asyncio task cancelled before its first step never enters the `try` and its job stays running; the model starts inside the `try`.
- CompileRelay.DashboardJobs.Start: run ids are drawn at random and taken as given; several jobs are independent of one another.
- HistoryCompaction.CompactToolResults: a message's blocks are values, so two places sharing one block object are not modelled; the JSON text of an input is a parameter.
- HTTP, WebSocket and MCP plumbing, the web UI, the KiCad and PlatformIO scripts, the library's YAML loading and the other generators.
