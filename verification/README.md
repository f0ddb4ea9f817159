# Dune server console: verified models

A model in Dafny of the parts of a self-hosted game server's console that keep
state or transform data, and proofs of what they promise. Each module covers one
part; methods and classes follow the form of the source and are proved equal to
functions, lemmas state what those functions mean over all inputs or all runs.

- **Settings** (`Text`, `IniLine`, `ProfileLines`, `ProfileText`, `ProfileNormal`,
  `ProfileRoundTrip`, `ProfileFixpoint`, `ProfileOrder`, `ProfileReads`,
  `ProfileMigration`, `ProfileBreaks`, `ProfileEdits`, `ProfileCarried`,
  `ProfileSeparator`, `ProfileUndo`, `ProfileStore`, `SettingsValues`, `IniFile`,
  `SettingsCompile`, `SettingsReadBack`, `SettingsMeaning`, `SettingsDrift`,
  `SettingsParts`, `SettingsPassed`, `SettingsCompiler`, `UnrealStruct`, `UnrealTree`,
  `Cooldown`). One text file holds scoped blocks of INI lines. It is parsed, migrated,
  edited by key, cleaned, sorted and printed, and compiled into one runtime file per
  partition. Main results: a written profile is a fixed point of read and write, and
  every key reads as the edits set it, after any run of edits of any file; a reader of
  the compiled file gets the value that the scopes resolve to; the combat state read
  from that file is the configured one. A key is live when no schema retires it; a
  carried value is one that `ProfileBreaks.Carried` admits.
- **Deliveries** (`Deliveries`, `DeliveryOutcomes`, `DeliveryService`). Records on disk
  move from pending to a final state around an outside call that must not be repeated. A
  step is what runs between two awaits; any write may fail and the process may die
  anywhere.
- **Market** (`Sweep`, `Pricing`). The claim loop of the buyback sweep, the log rankings
  that explain it afterwards, stepped price rounding and the buyback caps.
- **Limiters** (`FailLimiter`, `BridgeRateLimit`). Compact structures that agree with
  the full history of events.
- **API keys** (`ApiKeyScopes`, `ApiKeys`, `ApiKeyFields`, `ApiKeyStore`). Memory and
  file agree although any write may fail.
- **Parsers, orders and allocators** (`Multipart`, `AddonVersions`, `Blueprints`,
  `PortPlan`, `Sorting`, `Wrappers`).

Where the source does not meet a promise, the project keeps the code as it is, gives
an input and proves the exact condition:

- a tick does not look at the status again before it attempts (line 171 of
  addonDeliveries.js): `GuardExact`, `RepeatedRequestRaces`;
- the check of a value knows fewer line breaks than the reader: `CarriedExactly`,
  `SeparatorSplits`;
- a write migrates again, so a drop of the migrated key comes back while its legacy
  lines are there: `LastEditReads`, `DropIsUndone`;
- an update of a struct takes the first member of a name, the reader the last:
  `UpdateReadsBack`, `RepeatedNameStale`;
- the file shows fewer flags and selectors than the profile: `NoDriftExactly`,
  `PlainSelectorDrifts`;
- the cap of a key comes from its dearest row: `CapWithinListed`, `CapAboveListed`;
- the classification lists at most 1000 rows, a sweep may buy 5000: `DryRunForetells`,
  `CapHidesPurchase`;
- the sweep's comments promise a snapshot of the claim, the log is built from a later
  classification without it (lines 632-640 and 1193-1219 of addonJobs.js):
  `NewcomerCalledLocked`, `NewcomersOnBoard`;
- a revoke takes one record of an id: `RevokeTakesOne`, `DuplicateSurvivesRevoke`;
- section 9 of Semantic Versioning 2.0.0 forbids leading zeros, the pattern admits
  them: `CompareFlips`, `LeadingZeroClash`;
- a part may hold the delimiter inside a line: `RoundTrip` and `MidLineDelimiter` of
  `Multipart`;
- a dangling shield may be shifted onto another placeable: `RoundTrip` and
  `ShieldCaptured` of `Blueprints`;
- twelve digits of hours carry seconds up to 3.6e11: `ExactPrefix`,
  `CooldownLostBeyond`.

## Model

| member | source | states |
|---|---|---|
| Text.SplitJoin | runtime/scripts/usersettings.py:1110-1128 | lines without any of the reader's line breaks, joined and terminated, are read back as the same lines |
| Text.RstripJoin | runtime/scripts/usersettings.py:1126-1134 | stripping the joined text equals dropping blank lines at the end and stripping the last line left |
| IniLine.EntryParses | runtime/scripts/usersettings.py:1343-1353 | a written entry splits back into its prefix, key and trimmed value, and is neither a header nor blank |
| IniLine.EntryReads | runtime/scripts/usersettings.py:1748-1767 | a reader finds a plain entry under its own key and no other entry |
| IniLine.ReadsArePlain | runtime/scripts/usersettings.py:1748-1767 | whatever a reader finds is a plain assignment of that key, and every such assignment is found |
| IniLine.AssignsExactly | runtime/scripts/usersettings.py:1343-1353 | a comment, a blank or a line without '=' assigns nothing; any other is cut at its first '=', a prefix character split off the key |
| ProfileLines.SetReads | runtime/scripts/usersettings.py:1525-1562 | setting a plain key makes it read as the value; every other key, and a plain key beside array entries, reads as before |
| ProfileLines.SetKeepsOthers | runtime/scripts/usersettings.py:1525-1562 | a set keeps all lines that do not assign prefix+key, in order |
| ProfileLines.SetEntryAt | runtime/scripts/usersettings.py:1525-1562 | setting an array entry that is there rewrites its first line alone |
| ProfileLines.SetPlainAt | runtime/scripts/usersettings.py:1525-1562 | setting a plain key rewrites its last assignment alone |
| ProfileLines.SetNewAt | runtime/scripts/usersettings.py:1554-1562 | without such a line a set adds one behind the last that is not blank |
| ProfileLines.RemoveReads | runtime/scripts/usersettings.py:1565-1584 | a removed key is unreadable; other keys, and the plain key when only array entries go, read as before |
| ProfileLines.RemoveExactly | runtime/scripts/usersettings.py:1565-1584 | a removal takes every line of the key with an admitted prefix and value, however often it is there, and no other |
| ProfileLines.NormalizeNonBlank | runtime/scripts/usersettings.py:1137-1166 | the blank-line clean-up keeps every other line, in order |
| ProfileLines.NormalizeCanonical | runtime/scripts/usersettings.py:1137-1166 | after it blank lines are empty, single and strictly inside the block |
| ProfileLines.NormalizeFixed | runtime/scripts/usersettings.py:1137-1166 | such lines, with or without a separator behind them, clean up to themselves |
| ProfileNormal.HeaderRoundTrip | runtime/scripts/usersettings.py:1262-1304 | a block header parses back to the scope, map, partition and section that printed it |
| ProfileNormal.ParsedTarget | runtime/scripts/usersettings.py:1262-1304 | whatever a known header parses to can be printed as a header |
| ProfileRoundTrip.ParsePrint | runtime/scripts/usersettings.py:1045-1060 | a printed document parses back to itself, up to the separators the printer adds |
| ProfileFixpoint.WriteIsNormal | runtime/scripts/usersettings.py:1114-1134 | a write of any profile leaves the print of a normal form: migrated, cleaned, pruned, sorted |
| ProfileFixpoint.WriteReadWrite | runtime/scripts/usersettings.py:1063-1134 | reading what a write left and writing it again repeats the file line for line |
| ProfileFixpoint.TextFixed | runtime/scripts/usersettings.py:1063-1134 | the same for texts: a written text is a fixed point of read and write exactly when newlines are its only line breaks |
| ProfileOrder.WrittenInOrder | runtime/scripts/usersettings.py:1126-1134 | a reader of a written profile finds the blocks by scope in their fixed order, then by map, then by partition, as numbers where they are numbers, then by section |
| ProfileEdits.RunsEndFixed | runtime/scripts/usersettings.py:1114-1134 | after any non-empty run of edits, each written and re-read, a further read and write leaves the text as it is exactly when newlines are its only line breaks |
| ProfileEdits.RunsAreFixed | runtime/scripts/usersettings.py:1114-1134 | they are when the last value set is free of the reader's breaks, whatever the edits before |
| ProfileReads.SetKeyReads | runtime/scripts/usersettings.py:1525-1562 | a set changes what its own key in its own block reads as and nothing else in the document |
| ProfileReads.RemoveKeyReads | runtime/scripts/usersettings.py:1565-1584 | a removal, of the plain key or of array entries, changes no other read |
| ProfileMigration.MigratedReads | runtime/scripts/usersettings.py:1196-1247 | where a scope states no new cooldown the hours of its last block with a convertible legacy line become it; a stated one wins, no other key changes |
| ProfileMigration.MigratedFrom | runtime/scripts/usersettings.py:1196-1247 | a scope without a native cooldown gets it from its own former block: from the first retired line there that can be told in hours, and from no other |
| ProfileMigration.MigrateTwice | runtime/scripts/usersettings.py:1196-1247 | migrating twice is migrating once |
| ProfileBreaks.WriteKeepsReads | runtime/scripts/usersettings.py:1114-1134 | a write and a read keep the value of every live key of the migrated profile, with or without retired lines, and leave no retired one |
| ProfileEdits.RunReads | runtime/scripts/usersettings.py:1483-1584 | from any file without a block twice, after a run of edits of live keys with carried values, every live key reads as the last edit that names it, others as in the starting file; only a first edit can be undone by the migration, as Outcome tells |
| ProfileEdits.LastEditReads | runtime/scripts/usersettings.py:1114-1134 | the last edit is read back exactly when it does not drop the migrated key while a convertible legacy line of that scope is still in the file |
| ProfileEdits.DropIsUndone | runtime/scripts/usersettings.py:1114-1134 | a file with one legacy line: the migrated key is dropped, written, and back on the next read |
| ProfileUndo.AddThenRemove | runtime/scripts/usersettings.py:1525-1584 | adding an absent array entry to a written file and removing it, each written and re-read, restores the exact text, also when the block was new |
| ProfileCarried.CarriedExactly | runtime/scripts/usersettings.py:1525-1532 | after a set, a write and a read the key reads as the value, and all other live keys as before, exactly when the value holds no break but in the white space at its end, or strips to nothing |
| ProfileSeparator.SeparatorSplits | runtime/scripts/usersettings.py:1525-1532 | the write-time check knows fewer breaks than the reader: a value with U+2028 is accepted and read back as two entries |
| ProfileStore.Profile.Parse | runtime/scripts/usersettings.py:1045-1060 | the parse loop builds the document of the text |
| ProfileStore.Profile.Get | runtime/scripts/usersettings.py:1483-1494 | the backward search finds the last plain assignment of the block |
| ProfileStore.Profile.Set | runtime/scripts/usersettings.py:1525-1562 | the in-place edit: refused values change nothing, others give exactly the edited document |
| ProfileStore.Profile.Remove | runtime/scripts/usersettings.py:1565-1584 | the in-place removal gives exactly the edited document |
| ProfileStore.Profile.NormalizeBlankLines | runtime/scripts/usersettings.py:1137-1166 | the in-place clean-up of every block |
| ProfileStore.Profile.StripRetired | runtime/scripts/usersettings.py:1176-1193 | retired lines go from every block, nothing else |
| ProfileStore.Profile.PruneEmpty | runtime/scripts/usersettings.py:1169-1173 | empty blocks go, nothing else |
| ProfileStore.Profile.MigrateCooldown | runtime/scripts/usersettings.py:1196-1247 | collecting the moves and then making them, in place, is the migration of MigratedReads |
| ProfileStore.Profile.Write | runtime/scripts/usersettings.py:1114-1134 | the write pipeline, in place, yields the written text |
| SettingsValues.StagesFollowRule | runtime/scripts/usersettings.py:1641-1688 | map sync, partition overlay and second sync give the most specific successor value, else the most specific retired one, else the default |
| SettingsValues.MapFollowsRule | runtime/scripts/usersettings.py:2216-2231 | the map-level values follow the same rule over the map scopes |
| SettingsValues.PairsReadEqual | runtime/scripts/usersettings.py:1671-1688 | both ids of a pair read equal exactly when a scope states one of them or their defaults agree |
| SettingsValues.ResolvePartition | runtime/scripts/usersettings.py:2278-2299 | the staged resolution with its loops computes the rule for every field |
| IniFile.ReadIniValue | runtime/scripts/usersettings.py:1748-1767 | the reader's loop returns the first value in the section's content |
| IniFile.ReadArrayContains | runtime/scripts/usersettings.py:1770-1790 | the membership loop |
| IniFile.ReadArrayKeyPresent | runtime/scripts/usersettings.py:1793-1820 | the presence loop |
| IniFile.RenderContent | runtime/scripts/usersettings.py:2792-2799 | a reader of the rendered file sees exactly the lines of its section |
| IniFile.RenderText | runtime/scripts/usersettings.py:2792-2799 | the rendered text gives its lines back |
| SettingsReadBack.CompiledFound | runtime/scripts/usersettings.py:2878-2953 | in the compiled sections a setting is found exactly when it is written, whatever unknown lines pass through |
| SettingsMeaning.ValuesFollowRule | runtime/scripts/usersettings.py:2278-2299 | the values that get compiled are those of the simple rule |
| SettingsMeaning.CompiledContent | runtime/scripts/usersettings.py:2756-2953 | a reader of the compiled text sees the lines of the compiled section |
| SettingsMeaning.ReadsWritten | runtime/scripts/usersettings.py:2878-2953 | reading a setting from the compiled text, default when absent, gives its value exactly when written, else the default |
| SettingsMeaning.MeaningPreserved | runtime/scripts/usersettings.py:2756-2953 | reading any scalar setting from the compiled text gives the layered value, up to truthy() for booleans, when it is trimmed; for other settings exactly then |
| SettingsParts.StatedReads | runtime/scripts/usersettings.py:2878-2953 | a trimmed setting reads from the compiled text as the partition states it, else the map, else the global block, else its default; a successor falls back on what the same scopes state under the retired name |
| SettingsParts.DefaultsLeftOut | runtime/scripts/usersettings.py:2802-2813 | a setting is missing in the file exactly when its value is the default, or for a boolean as true as the default, and selector mode does not force it out |
| SettingsParts.MirroredCooldown | runtime/scripts/usersettings.py:2345-2374 | the mirrored line reads as the converted native cooldown of the partition, else of the map, else the global one; without any of them there is no such line |
| SettingsParts.RetiredAbsent | runtime/scripts/usersettings.py:2915-2921 | a retired key that is no setting of its own is not in the file |
| SettingsParts.DataOfMostSpecific | runtime/scripts/usersettings.py:2922-2931 | the file's data struct is that of the partition, else of the map, else the global one, each scope's own key before its former one |
| SettingsPassed.StakingExactly | runtime/scripts/usersettings.py:1587-1623 | whatever the blocks hold, the file assigns to a staking setting just a clear and ten times its converted time, nothing when that is empty |
| SettingsPassed.UnknownStays | runtime/scripts/usersettings.py:2756-2789 | a line of a scope that takes part stays in the file unless it plainly assigns a key that the compiler writes or retires |
| SettingsPassed.UnknownReads | runtime/scripts/usersettings.py:2756-2789 | a key unknown to the compiler reads, to a first-match reader, as the global block gives it, else the map's, else the partition's |
| SettingsPassed.CompileRefuses | runtime/scripts/usersettings.py:2878-2953 | a compilation is refused exactly when the native cooldown of the most specific scope that states one, or a staking value, cannot be converted |
| SettingsCompiler.Sections.AddFields | runtime/scripts/usersettings.py:2878-2953 | the field loop over the growing sections |
| SettingsCompiler.Sections.PassUnknown | runtime/scripts/usersettings.py:2756-2789 | the unknown lines of each layer are appended in order |
| SettingsCompiler.CompileUserGame | runtime/scripts/usersettings.py:2878-2953 | the compiler with its in-place passes produces exactly the compiled text, or fails where the code raises |
| SettingsDrift.FlagAgrees | runtime/scripts/usersettings.py:4102-4118 | a flag reads back the same exactly when it is a recognised boolean, or is written out and still none when stripped |
| SettingsDrift.MembershipAgrees | runtime/scripts/usersettings.py:2248-2259 | being listed in a selector array is read the same from file and profile |
| SettingsDrift.ModeInFile | runtime/scripts/usersettings.py:2262-2275 | the file shows selector mode exactly when a '+' entry without a space or the partition's own selection is there |
| SettingsDrift.NoDriftExactly | runtime/scripts/usersettings.py:4308-4342 | the seven combat fields read from the fresh file equal the configured ones exactly when the four flags are kept and selector mode is shown |
| SettingsDrift.PlainSelectorDrifts | runtime/scripts/usersettings.py:4308-4342 | a plain, empty line of a selector array: the profile is in selector mode, the file is not |
| SettingsDrift.StateExactly | runtime/scripts/usersettings.py:4121-4252 | CONFLICT, PVP, PVE and UNKNOWN, each exactly when, from the flags alone |
| SettingsDrift.SourceExactly | runtime/scripts/usersettings.py:4121-4252 | which rule the answer is attributed to |
| SettingsDrift.UnrecognisedIsNothing | runtime/scripts/usersettings.py:4121-4252 | an unrecognised flag counts as neither true nor false, and the zone flag never counts |
| SettingsDrift.ListedIgnoresLegacy | runtime/scripts/usersettings.py:4121-4252 | the state of a listed partition does not depend on the legacy flags |
| SettingsDrift.ListedResolves | runtime/scripts/usersettings.py:4308-4342 | from the compiled text a partition that is only in the PvP array resolves to PVP, one only in the PvE array to PVE or, under the force flag, to CONFLICT, one in both to CONFLICT |
| SettingsDrift.SameStateAfterCompile | runtime/scripts/usersettings.py:4121-4252 | with recognised booleans and selector mode shown both give the same flags and resolve to the same combat state |
| UnrealStruct.SplitOfStruct | runtime/scripts/usersettings.py:1356-1388 | a parenthesised comma join of neutral, trimmed members splits back exactly when the last is not empty |
| UnrealStruct.SplitAgain | runtime/scripts/usersettings.py:1356-1388 | the same for the members of any text at all |
| UnrealTree.NeutralExactly | runtime/scripts/usersettings.py:1356-1388 | text made of plain characters, quotes with escapes and nested groups is one member exactly when it has no comma outside them |
| UnrealTree.TreesSplit | runtime/scripts/usersettings.py:1356-1388 | a struct of such members splits into exactly these, whatever commas they hold in quotes and groups |
| UnrealStruct.UpdateSplits | runtime/scripts/usersettings.py:1401-1414 | an update replaces one member in place, or adds it last, and leaves every other part as and where it was |
| UnrealStruct.UpdateKeepsOthers | runtime/scripts/usersettings.py:1391-1414 | every other name reads as before |
| UnrealStruct.UpdateReadsBack | runtime/scripts/usersettings.py:1391-1414 | update changes the first, readers take the last: the new value reads back exactly when the name occurs at most once |
| UnrealStruct.RepeatedNameStale | runtime/scripts/usersettings.py:1391-1414 | "(A=1,A=2)" with A set to 3 still reads 2 |
| UnrealStruct.SplitStruct | runtime/scripts/usersettings.py:1356-1388 | the character loop with depth, quote and escape |
| UnrealStruct.UpdateStruct | runtime/scripts/usersettings.py:1401-1414 | the update loop |
| Cooldown.CooldownExact | runtime/scripts/usersettings.py:2369-2374 | seconds to clamped hours with twelve digits and back, half up, is exact for every count to 3.6e11 seconds |
| Cooldown.CooldownLostBeyond | runtime/scripts/usersettings.py:1235-1236 | one second further it is not |
| Cooldown.ExactPrefix | runtime/scripts/usersettings.py:1235-1236 | all counts from zero to a bound come back exactly just when the bound is at most 3.6e11 |
| Deliveries.StepSafe | console/api/src/addonDeliveries.js:57-174 | every step, whatever fails or dies, keeps the invariant when a tick finds nothing queued that would attempt the record |
| Deliveries.AtMostOnce | console/api/src/addonDeliveries.js:98-174 | over every such run at most one deliver call per request is not answered by a deferral, exactly one behind a new delivered record, none behind a pending one; index, counts and limit are right |
| Deliveries.RunKeeps | console/api/src/addonDeliveries.js:98-174 | records are never lost, keep their details, and closed ones never change |
| Deliveries.OtherDetailsChangeNothing | console/api/src/addonDeliveries.js:61-71 | a request id that comes back with other details only leaves its queue |
| Deliveries.GuardExact | console/api/src/addonDeliveries.js:140-172 | from a safe state a tick that picks a record keeps every continuation to one call exactly when nothing queued would attempt the record |
| Deliveries.RepeatedRequestRaces | console/api/src/addonDeliveries.js:165-172 | such a queue is reachable: a repeated request and a tick deliver twice |
| DeliveryOutcomes.ReplyLeaves | console/api/src/addonDeliveries.js:103-119 | the record each answer leaves for each outcome of its writes: delivered, failed, or pending for half a minute; no other record changes |
| DeliveryOutcomes.StatusTellsAnswer | console/api/src/addonDeliveries.js:98-174 | over every guarded run a new delivered record had its last call answered by a success, a failed one by a failure or a success that could not be written, a pending one by a deferral half a minute before its next time; attempts count the calls |
| DeliveryOutcomes.DeferredRests | console/api/src/addonDeliveries.js:67-118 | over every guarded run whose clock does not go back no call follows a deferral of its request within half a minute |
| DeliveryOutcomes.LogGrows | console/api/src/addonDeliveries.js:98-119 | a call is made only by a start that is permitted, an answer is taken only for a call that is out |
| DeliveryOutcomes.CallsExactly | console/api/src/addonDeliveries.js:61-103 | with good writes the head of a queue calls deliver exactly if permitted and either from a tick, a due pending request with the same details, or a first request below the limit |
| DeliveryOutcomes.TickExactly | console/api/src/addonDeliveries.js:140-171 | a tick marks an unclaimed processing record uncertain, queues a due and permitted pending one, forgets closed ones, and does nothing else |
| DeliveryService.Service.Begin | console/api/src/addonDeliveries.js:61-103 | the head of a queue up to its deliver call is exactly one start step |
| DeliveryService.Service.Create | console/api/src/addonDeliveries.js:72-94 | the first record: count, limit, write, index |
| DeliveryService.Service.Answered | console/api/src/addonDeliveries.js:103-119 | each answer, with its failing writes, is exactly one reply step |
| DeliveryService.Service.LoadPendingKeys | console/api/src/addonDeliveries.js:176-186 | the first tick indexes every open record |
| DeliveryService.Service.Visit | console/api/src/addonDeliveries.js:144-171 | what a tick does about one key |
| Sweep.ClaimLoop | console/api/src/addonJobs.js:641-666 | the loop buys the claim and stops where it is full |
| Sweep.BoughtExactly | console/api/src/addonJobs.js:645-666 | a listing is bought exactly when the loop reaches it and it is not locked |
| Sweep.BoughtCheapest | console/api/src/addonJobs.js:645-666 | whatever is neither bought nor locked costs more than every purchase, or as much with a higher id, and then the sweep is full |
| Sweep.WalkExactly | console/api/src/addonJobs.js:648-651 | the board's order in prices and ids |
| Sweep.ApplySweepLeftoverRanking | console/api/src/addonJobs.js:1389-1410 | the one-pass ranking equals marking each open row by the purchases before it |
| Sweep.SweepExplained | console/api/src/addonJobs.js:1389-1410 | a leftover is called past the limit exactly when the loop never reached it, else locked, and then it was |
| Sweep.NewcomerCalledLocked | console/api/src/addonJobs.js:1193-1219 | a listing the loop never saw is called locked exactly when the sweep was not full or bought something that does not come before it |
| Sweep.NewcomersOnBoard | console/api/src/addonJobs.js:1193-1219 | two such boards: an empty sweep, and a full one with a cheaper newcomer |
| Sweep.ApplyDryRunMaxBuysRanking | console/api/src/addonJobs.js:1368-1382 | the rank map equals counting the open rows before |
| Sweep.DryRunForetells | console/api/src/addonJobs.js:1368-1382 | with no locks the kept rows are the purchases exactly when the classification cap hides none of them |
| Sweep.KeptExactly | console/api/src/addonJobs.js:1368-1382 | the dry run keeps the first max rows and marks the others past the limit, code 5 |
| Sweep.RankingInOrder | console/api/src/addonJobs.js:1339-1349 | either ranking returns a permutation of its rows by code, then price, then id |
| Sweep.CapHidesPurchase | console/api/src/addonJobs.js:1368-1382 | 1001 eligible listings and room for 5000: the last purchase is in no row |
| Pricing.RoundedNear | console/api/src/addonSeedJob.js:706-714 | from 1000 up a rounded price is within half a percent |
| Pricing.RoundedToStep | console/api/src/addonSeedJob.js:706-714 | a price is a multiple of its range's step and at most half a step from the value |
| Pricing.RoundMonotone | console/api/src/addonSeedJob.js:706-714 | a dearer value never rounds to a cheaper price, also across the steps |
| Pricing.RoundIdempotent | console/api/src/addonSeedJob.js:706-714 | rounding a rounded price changes nothing |
| Pricing.IndexHasLast | console/api/src/addonSeedJob.js:639-647 | the index holds the last price of each schematic and grade |
| Pricing.SchematicPriceMap | console/api/src/addonSeedJob.js:639-647 | the loop builds that index |
| Pricing.DiscountExactly | console/api/src/addonSeedJob.js:654-660 | a ready-made augment starts at half of what the last row of its schematic and grade costs, else at a twentieth of its own price; every other row at its own |
| Pricing.MultiplierReaches | console/api/src/addonSeedJob.js:143-151 | each category multiplier scales its own rows and leaves every other listed price alone |
| Pricing.ListedMonotone | console/api/src/addonSeedJob.js:654-675 | raising any multiplier never lowers a listed price |
| Pricing.BuybackCeilings | console/api/src/addonJobs.js:335-354 | one cap per template and grade, from its dearest listed row |
| Pricing.CapIsPercent | console/api/src/addonJobs.js:351-351 | the cap is the percentage rounded up, and at least one |
| Pricing.CapWithinListed | console/api/src/addonJobs.js:335-354 | the cap stays within a row's listed price exactly when the percentage of the dearest row does |
| Pricing.CapAboveListed | console/api/src/addonJobs.js:335-354 | one key listed at 100 and 200, 60 percent: a cap of 120 |
| Pricing.CapWithinHundred | console/api/src/addonJobs.js:335-354 | with one row per key that is exactly a percentage of at most 100 |
| FailLimiter.EvictionNeverShows | runtime/tls-front/main.go:529-556 | forgetting stale addresses above 10000 changes no answer of fail or blocked |
| FailLimiter.FailsInWindow | runtime/tls-front/main.go:529-556 | any stretch no longer than the window in which an address is never refused holds at most 2*(max-1) of its fails |
| FailLimiter.BoundIsReached | runtime/tls-front/main.go:529-556 | for every limit and window: max fails, max-1 at the end of the window and max-1 right behind it reach that bound |
| FailLimiter.BlockSurvivesFail | runtime/tls-front/main.go:544-555 | a fail while blocked keeps the block exactly when it falls into the window begun by the block, or blocks anew |
| FailLimiter.BlockLasts | runtime/tls-front/main.go:518-556 | after the fail at t that tripped the block last, an ask is answered true exactly before t + block, unless a fail more than a window after t came in between |
| FailLimiter.BlockEnds | runtime/tls-front/main.go:518-556 | with no fail in between an ask is answered true exactly before t + block |
| FailLimiter.NeverBlocked | runtime/tls-front/main.go:518-556 | an address whose fails were never answered true is never blocked |
| FailLimiter.Limiter.Evict | runtime/tls-front/main.go:536-542 | the loop deletes exactly the stale entries |
| FailLimiter.Limiter.IsBlocked | runtime/tls-front/main.go:518-526 | the ask, on the evicting map, is the answer of its step |
| FailLimiter.Limiter.RecordFail | runtime/tls-front/main.go:529-556 | the update in place |
| BridgeRateLimit.WindowBounds | console/api/src/bridgeRateLimit.js:28-54 | no window of 60 seconds ever holds more than 60 records of a key or 300 in all, for every history the class can have |
| BridgeRateLimit.RetryIsEnough | console/api/src/bridgeRateLimit.js:33-41 | a denial says 1 to 60 seconds, and after them the named window is below its limit |
| BridgeRateLimit.RetryIsNeeded | console/api/src/bridgeRateLimit.js:33-41 | a second less is not enough: the window that refused is still full |
| BridgeRateLimit.AllowedExactly | console/api/src/bridgeRateLimit.js:28-43 | a request passes exactly when fewer than 60 of its key and fewer than 300 in all were recorded within the last minute |
| BridgeRateLimit.Limiter.Check | console/api/src/bridgeRateLimit.js:28-43 | on pruned queues it decides as a count over the whole history would |
| BridgeRateLimit.Limiter.Pruned | console/api/src/bridgeRateLimit.js:13-26 | shifting the front gives exactly the recent times |
| BridgeRateLimit.Limiter.Record | console/api/src/bridgeRateLimit.js:44-53 | a record behind its own allowed check extends the history, which stays one that WindowBounds speaks of |
| ApiKeyScopes.NormalizeTwice | console/api/src/apiKeyScopes.js:177-210 | normalising a scope map twice is normalising it once |
| ApiKeyScopes.NormalizeKeepsGrants | console/api/src/apiKeyScopes.js:177-228 | normalising keeps every decision about a grantable action |
| ApiKeyScopes.AllowsExactly | console/api/src/apiKeyScopes.js:212-228 | for any scope map an action is allowed exactly when its namespace is named and not denied and the stored list, or the level with its exclusions, admits it |
| ApiKeyScopes.ReadNeverWrites | console/api/src/apiKeyScopes.js:226-227 | a read level never grants a writing action |
| ApiKeyScopes.NormalizeStores | console/api/src/apiKeyScopes.js:177-210 | what normalising stores under each namespace |
| ApiKeyScopes.DeniedStaysDenied | console/api/src/apiKeys.js:86-100 | no scope map reaches a denied namespace or a write action of a write-denied one |
| ApiKeys.StepFaithful | console/api/src/apiKeys.js:267-450 | every operation, its write failing or not, keeps memory equal to what a load of the file gives |
| ApiKeys.RestartInvisible | console/api/src/apiKeys.js:196-450 | over every history from any file, a load of the file gives exactly the keys in memory |
| ApiKeys.FailedChangesNothing | console/api/src/apiKeys.js:298-373 | a change whose write fails has not happened, in memory or in the buffer |
| ApiKeys.RevokeTakesOne | console/api/src/apiKeys.js:352-373 | a revoke that succeeds takes one record out of memory and file; the id is gone exactly when it was there once |
| ApiKeys.DuplicateSurvivesRevoke | console/api/src/apiKeys.js:352-373 | a file with one id twice: the key is still there after the revoke |
| ApiKeys.GoneStaysGone | console/api/src/apiKeys.js:267-450 | an id that is gone stays out of memory and file until a create draws it |
| ApiKeys.IdsStayUnique | console/api/src/apiKeys.js:267-309 | a store that starts without duplicate ids never gets any |
| ApiKeyFields.LoadKeeps | console/api/src/apiKeys.js:189-224 | a load keeps the valid records in order, reads four fields anew and leaves every other as stored |
| ApiKeyFields.RateLimitExactly | console/api/src/apiKeys.js:131-134 | a rate is a whole number from 1 to 10000, 60 where none is stored |
| ApiKeyFields.CreateStores | console/api/src/apiKeys.js:267-309 | a create appends one record with the first free draw, exactly when name, expiry, draws and write are good; all its fields |
| ApiKeyFields.UpdateStores | console/api/src/apiKeys.js:311-350 | an update replaces just the named fields of the first record of the id, exactly when all of the patch and the write are good |
| ApiKeyFields.UseReachesFile | console/api/src/apiKeys.js:406-450 | a recorded use is on the first record of its id, in memory and file, after the next good flush; nothing else of it changes |
| ApiKeyFields.FlushLeaves | console/api/src/apiKeys.js:419-450 | a flush changes no record without a buffered use and none behind the first of its id |
| ApiKeyStore.Store.constructor | console/api/src/apiKeys.js:196-224 | load: valid records normalised, others dropped |
| ApiKeyStore.Store.DrawId | console/api/src/apiKeys.js:276-280 | up to nine draws, the first free one |
| ApiKeyStore.Store.Create | console/api/src/apiKeys.js:267-309 | create with its rollback |
| ApiKeyStore.Store.Update | console/api/src/apiKeys.js:311-350 | update staged, merged and taken back field by field |
| ApiKeyStore.Store.Revoke | console/api/src/apiKeys.js:352-373 | revoke with its rollback of record and buffered use |
| ApiKeyStore.Store.ApplyBuffered | console/api/src/apiKeys.js:422-429 | the loop over the buffered uses |
| ApiKeyStore.Store.FlushLastUsed | console/api/src/apiKeys.js:419-450 | the flush; a failed write restores the records and keeps the buffer |
| Multipart.RoundTrip | console/api/src/httpSafety.js:50-73 | printed file parts read back as exactly those files, in order, precisely when no content holds the delimiter (section 5.1.1 of RFC 2046, section 4.2 of RFC 7578) |
| Multipart.AnyFormReadsBack | console/api/src/httpSafety.js:50-73 | a clean printed form of fields, files and nameless parts reads back as its files in order and, under each name, the last field's text |
| Multipart.SlicesLack | console/api/src/httpSafety.js:52-59 | no slice contains the delimiter |
| Multipart.MidLineDelimiter | console/api/src/httpSafety.js:52-59 | a delimiter inside a line, which RFC 2046 allows in a content, cuts it off |
| Multipart.NextSlice | console/api/src/httpSafety.js:53-59 | one round of the cursor |
| Multipart.ReadMultipartForm | console/api/src/httpSafety.js:50-73 | the cursor loop ends and reads exactly the slices of the body |
| AddonVersions.CompareAddonVersions | console/api/src/addons.js:479-503 | the comparison with its loops |
| AddonVersions.CompareZero | console/api/src/addons.js:479-503 | zero exactly when core and prerelease agree |
| AddonVersions.OlderExactly | console/api/src/addons.js:479-503 | older exactly by the precedence of section 11 of Semantic Versioning 2.0.0: core numbers, prerelease before release, then the first differing identifier or the shorter list |
| AddonVersions.SectionElevenChain | console/api/src/addons.js:479-503 | the example chain of that section, 1.0.0-alpha to 1.0.0 |
| AddonVersions.CompareFlips | console/api/src/addons.js:479-503 | swapping the arguments flips the answer exactly when the first differing identifiers are not two ways to write one number |
| AddonVersions.LeadingZeroClash | console/api/src/addons.js:498-498 | with a leading zero each of two versions is the older one |
| AddonVersions.OlderTransitive | console/api/src/addons.js:479-503 | older-than is transitive on versions without leading-zero identifiers (section 11 of Semantic Versioning 2.0.0) |
| AddonVersions.NewerIsAccepted | console/api/src/addons.js:358-361 | of conforming versions the catalogue's is accepted exactly when the installed one is older |
| AddonVersions.UpdatesClimb | console/api/src/addons.js:358-361 | any chain of accepted updates strictly climbs |
| Blueprints.ReserveIds | console/api/src/blueprints.js:134-144 | duplicates are found, else the named ids are reserved and mapped |
| Blueprints.ResolveImportIds | console/api/src/blueprints.js:130-156 | the id loop; it fails exactly on duplicates |
| Blueprints.ResolvedIds | console/api/src/blueprints.js:130-156 | imported ids are positive and distinct and keep the order of the named ones |
| Blueprints.ImportedRows | console/api/src/blueprints.js:224-320 | a row per instance and per placeable that is no claim console, ids positive, distinct and in order |
| Blueprints.ImportedGeometry | console/api/src/blueprints.js:91-121 | each piece and each kept placeable, at its place in order, has its kind, coordinates, axes and stability; the old layout's yaw comes from the third axis just when the whole file looks so |
| Blueprints.ImportRefuses | console/api/src/blueprints.js:224-250 | refused exactly when nothing is left or two pieces or two kept placeables name one id |
| Blueprints.ShieldStored | console/api/src/blueprints.js:193-206 | what a shield with a scale is stored under: its placeable's shifted id, else its number, else zero |
| Blueprints.ShieldsFollow | console/api/src/blueprints.js:193-206 | a shield that names a kept placeable points at its row |
| Blueprints.ShieldsOfConsolesGo | console/api/src/blueprints.js:225-235 | every stored shield row comes from a shield that names no removed console |
| Blueprints.ImportBlueprint | console/api/src/blueprints.js:208-323 | the import with its filters and loops |
| Blueprints.ExportExactly | console/api/src/blueprints.js:342-419 | an exported file holds every row that is no claim console, axes in the file's order, and the shields that point at none |
| Blueprints.RoundTrip | console/api/src/blueprints.js:342-419 | export then import gives the rows back, shifted away from zero, exactly when there are rows, none of the old axis layout, and no shield is left behind by a shift |
| Blueprints.ShieldCaptured | console/api/src/blueprints.js:197-198 | a shield left behind can end up at a placeable it never named |
| PortPlan.ValidateAllocations | runtime/scripts/multi-server-config.py:287-306 | the sorted sweep with its early break accepts exactly valid ranges of which no two share a port |
| PortPlan.ClearBehind | runtime/scripts/multi-server-config.py:297-302 | the inner loop |
| PortPlan.ValidateInstanceCapacity | runtime/scripts/multi-server-config.py:320-324 | accepts exactly when the whole plan up to the instance is disjoint |
| PortPlan.HostsNeverShare | runtime/scripts/multi-server-config.py:226-324 | two hosts configured from the same defaults never share a port |

## Left out

- ProfileStore.Profile.MigrateCooldown: the float parse of the old seconds is a parameter of the schema; what it accepts is not modelled, Cooldown models the arithmetic.
- Cooldown.CooldownExact: exact rationals stand for Python floats and Decimals.
- Pricing.ListedMonotone: exact arithmetic stands for JavaScript numbers; NaN and infinities do not occur.
- ProfileEdits.RunReads: edits of retired keys are left open; the settings commands edit fields of the schema, and none of those is retired.
- ProfileText.IsDigits: `str.isdigit` and `str.lower` are modelled for ASCII letters and digits only.
- Deliveries.AtMostOnce: unreadable record files, the tick's order and its limit of fifty, and the cached permission answers are left open (any key may be visited, any answer given); it holds for runs in which a tick finds no attempting operation queued, GuardExact shows that this is needed.
- Sweep.SweepExplained: the eligibility rules, the caps of the price plan and the SQL text are parameters or absent; log prices are natural numbers.
- Multipart.RoundTrip: reading names out of header text, decoding field text and finding the boundary in the content type are parameters; the exact condition is for file parts, AnyFormReadsBack covers fields one way.
- AddonVersions.UpdatesClimb: the version pattern and build metadata are not modelled; `localeCompare` is any total order.
- ApiKeys.RestartInvisible: names, dates and `Number()` are parameters; secrets, hashing and authentication are not part of this model; a record is a value, so a request that holds the live object is not modelled; absent and undefined fields are one.
- ApiKeyStore.Store.FlushLastUsed: the rollback restores the old list at once instead of record by record.
- Blueprints.RoundTrip: names, inventory slots, database errors and batching are not part of this model; rows have complete transforms.
- FailLimiter.FailsInWindow: time is a number that does not go back; the mutex makes calls atomic.
- BridgeRateLimit.WindowBounds: a record always follows its own allowed check.
- PortPlan.HostsNeverShare: parsing the defaults from other files and writing the environment file are not part of this model.
- Landsraad data members and the Coriolis region migration: keyed edits of one struct value, covered by UnrealStruct.
- The engine twin of the compiler, compiled_userengine_ini: the same passes over another table.
- Field catalogues, route actions and building types: arbitrary finite tables with distinct keys.
- Files are values whose replacement is atomic and may fail; HTTP, databases, locks, permissions and Docker are not part of this model.
