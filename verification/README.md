# Verified models of the processing engine and its neighbours

This project models, in Dafny, the parts of a time-series database server that have the
most state: the processing engine, which runs plugins on triggers (replacing plugin
directories, registering, feeding, stopping and cleaning up triggers), the line builder and
the cache that plugins are given, the catalog's repositories and tokens, the probe answered
during startup, the ordered shutdown, and the arithmetic of the load generator and of the
restart check. `dafny verify dfyconfig.toml` checks everything.

How the model relates to the code:

- Objects that are updated in place are classes; code that only computes is functions. The
  trigger protocol, where many tasks run at once, is a state machine whose steps may come in
  any order.
- What the code cannot control is an input: the fate of each file system call, the result of
  each plugin attempt, the pieces in which bytes arrive, the clock, what the catalog answers,
  which mailboxes are alive and which loops acknowledge. Statements hold for all of them.
- A statement about whole runs is the contract of a method that starts from a new object and
  performs an arbitrary list of operations, compared with an independent definition, or a
  lemma over an arbitrary list of steps.

The modules:

| file | what it models | main results |
|---|---|---|
| `PluginDirectory.dfy` | replacing a plugin directory by renames, any step failing or crashing, cleanups going on beside it | `ReplacePluginDirectory`, `ReplaceRepeatedly`, `Overtaken` |
| `LineProtocol.dfy`, `LineSplits.dfy`, `LineBuilding.dfy` | printing lines, a reader for them, and when a text determines its line | `ReadsBackExactly`, `DeterminedExactly`, `BuildLine` |
| `PluginCache.dfy` | the expiring caches of plugins | `Replay` |
| `Repository.dfy`, `Tokens.dfy` | the catalog's repositories and tokens | `Replay`, `ReplayTokens`, `TakenHashStaysGone` |
| `TriggerRegistry.dfy`, `PluginChannels.dfy`, `CatalogEvents.dfy` | the registry of running triggers, following the catalog | `HandleAll`, `ShutdownAllForDb` |
| `TriggerProtocol.dfy` | trigger loops, stops and acknowledgements, interleaved | `RunIsSafe`, `EveryStopIsAnswered`, `CanBeStopped` |
| `WalTrigger.dfy` | the loop of a synchronous WAL trigger | `RunWalFlushPlugin` |
| `ScheduleTrigger.dfy` | the ticks of `every:` triggers | `RunEvery`, `TicksAreMultiples` |
| `StartupProbe.dfy` | reading and answering a probe | `AnswerProbe` |
| `ShutdownCoordinator.dfy` | ordered shutdown | `RunSteps`, `FinishShutdown` |
| `Churn.dfy` | the expected state of the restart check | `RunChurn`, `KeepsApartExactly`, `ExactExactly` |
| `LoadGenerator.dfy` | the tag values of the load generator | `WriteSamples`, `WritersNeverCollide` |

Where the code does not do what its names or comments say, the model follows the code:

- Replacing a plugin directory is described as atomic. Between the two renames the plugin path
  is empty; what holds is that the old or the new version survives at the plugin path or at the
  old path in every state. If the second rename and the rename back both fail, the plugin path
  stays empty (`MoveIntoPlace`).
- A replacement that fails while writing does not wait for the cleanup it starts. A call is
  overtaken by one only if it did not wait, an earlier call failed, and none in between crashed or
  waited; every other call puts exactly the new files in place. One that is overtaken may report
  success with some or none of them in place, whatever the files are (`ReplaceRepeatedly`,
  `Overtaken`).
- `LineBuilder` does not escape backslashes in a measurement. The reader modelled here undoes
  printing exactly if the line has no tags or its measurement does not end in a backslash
  (`ReadsBackExactly`). No other line has the same text exactly if the printed measurement and
  tags can be split at one place only (`DeterminedExactly`). Neither condition implies the other:
  measurement `m,k=v` without tags reads back but prints like measurement `m\` with the tag
  `k=v` (`ReadsBackYetCollides`), while measurement `m\` with the tag value `a b` does not read
  back although no other line has its text (`SpaceTellsThemApart`).
- A request trigger is registered under its path and stopped under its name, so a stop finds
  its own registration, and removes it, exactly if the two are the same (`StopFindsOwnSlot`).
- A WAL loop that disables itself returns to its mailbox after acknowledging the shutdown and
  may run the plugin again (`DisabledWalLoopMayRunAgain`).
- A stop removes whatever is registered under the name when the acknowledgement arrives, which
  may be a newer registration (`StopMayRemoveNewerRegistration`).
- `add_token` writes the hash index before an insertion that can be refused, which can leave
  index and tokens in disagreement (`AddToken` states exactly when).
- An `every:` period below one millisecond is a division by zero (`RunEvery`).
- The restart check says that the row id keeps rows apart for any run size. It does so for every
  run of N rows exactly if N is at most a minute's worth of nanoseconds and one
  (`KeepsApartExactly`), and what it expects is what a reader finds exactly if N is at most a
  minute's worth (`ExactExactly`). An empty round is refused by the server
  (`influxdb3_write/src/write_buffer/mod.rs`, lines 558 to 560) and so never recorded.
- Triggers are registered by the name of their database. A hard delete therefore also stops the
  triggers of a database created again under the name of the deleted one; what it takes from a
  slot was there at the soft delete exactly if nothing started in the slot since
  (`HardDeleteTakes`, `NewDatabaseLosesItsTrigger`).
- The store's time of last cleanup is never advanced, so after the first interval every reading
  of a plugin's `cache` attribute cleans up; this is not observable (`Replay`).

## Model

| member | source | states |
|---|---|---|
| PluginDirectory.SiblingsAreDistinct | influxdb3_processing_engine/src/lib.rs:1109-1113 | The plugin, temp and old paths are three different paths for every plugin name |
| PluginDirectory.BuiltHoldsLastTexts | influxdb3_processing_engine/src/lib.rs:1128-1159 | The directory that is built holds for each path the text given last for it, and no other path |
| PluginDirectory.Disk.Yield | influxdb3_processing_engine/src/lib.rs:1141-1143 | A cleanup going on only takes away from the temp path, and does nothing if there is none |
| PluginDirectory.Disk.WriteOne | influxdb3_processing_engine/src/lib.rs:1128-1159 | One file takes three steps and adds to what the cleanups have left; exactly a failure of the second or third starts a cleanup |
| PluginDirectory.Disk.RemoveDirAll | influxdb3_processing_engine/src/lib.rs:1115-1120 | A recursive delete, successful or not, touches nothing but its path in any state it passes through |
| PluginDirectory.Disk.Rename | influxdb3_processing_engine/src/lib.rs:1169-1187 | A rename happens wholly or not at all, whether it reports success, fails or crashes |
| PluginDirectory.Disk.WriteTemp | influxdb3_processing_engine/src/lib.rs:1115-1159 | Building the new directory touches the temp path only and ends at the first step that does not succeed; when done it holds exactly the files, or some of them if a cleanup was going on |
| PluginDirectory.Disk.MoveAside | influxdb3_processing_engine/src/lib.rs:1161-1180 | Moving the live directory away keeps the surviving version in every state; exactly a failed rename starts a cleanup |
| PluginDirectory.Disk.RollBack | influxdb3_processing_engine/src/lib.rs:1184-1189 | The rollback keeps the surviving version; it leaves the plugin path empty exactly if there is nothing to put back or that fails, and something at the temp path only if that is a plain file or deleting it did not succeed, with no cleanup going on exactly then; it crashes exactly if one of its steps does |
| PluginDirectory.Disk.MoveIntoPlace | influxdb3_processing_engine/src/lib.rs:1182-1196 | The surviving version changes at one moment; what a failed swap leaves at the plugin and at the temp path is decided by the two steps after it |
| PluginDirectory.Disk.ReplacePluginDirectory | influxdb3_processing_engine/src/lib.rs:1109-1206 | There is one commit point before which the old and from which on the new version survives, exactly the new files if no cleanup was going on at the start; success means it is in place and neither temp nor old is left. With no cleanup going on and no plain file in its way the first step that does not succeed decides the outcome: which one ends the call, whether a cleanup is started, and after a failed swap whether the old version is back and the temp directory gone |
| PluginDirectory.Disk.SwapAndClear | influxdb3_processing_engine/src/lib.rs:1182-1204 | The swap and what comes after it: its fate and those of the two steps behind it decide result, plugin path and temp path |
| PluginDirectory.EndedBeforeSwap | influxdb3_processing_engine/src/lib.rs:1115-1180 | A call that ends before its swap ends at the first step that does not succeed, without a commit |
| PluginDirectory.EveryStateHoldsAVersion | influxdb3_processing_engine/src/lib.rs:1109-1206 | In every state of a chain of replacements the surviving version is the first one or one that a call put in place |
| PluginDirectory.ReplaceNext | influxdb3_processing_engine/src/lib.rs:1109-1206 | One more replacement, however it ends and whether or not it waited for cleanups, leaves every state of the disk accounted for |
| PluginDirectory.ReplaceRepeatedly | influxdb3_processing_engine/src/lib.rs:1109-1206 | Over every run with any step failing or crashing and cleanups going on beside it, some version survives in every state and no other path is touched; a call puts exactly its files in place, and comes to what the fates of its steps decide, unless it did not wait, an earlier one failed and none in between crashed or waited; all succeed if no step fails, each waits and only directories are in the way |
| PluginDirectory.Overtaken | influxdb3_processing_engine/src/lib.rs:1138-1158 | For all files and every start without a temp directory: a call fails while writing, and the next one, overtaken by the cleanup, reports success with none of the files in place |
| LineProtocol.EscapeValueIsOnePass | influxdb3_py_api/src/system_py.rs:532-538 | The four chained replacements for tag values equal one pass that puts a backslash before each special character |
| LineProtocol.EscapeStringIsOnePass | influxdb3_py_api/src/system_py.rs:570-572 | The two chained replacements for string fields equal one pass |
| LineProtocol.EscapeMeasurementIsOnePass | influxdb3_py_api/src/system_py.rs:528-530 | The two chained replacements for measurements equal one pass |
| LineProtocol.EscapesByCharacter | influxdb3_py_api/src/system_py.rs:528-572 | What one more character adds to an escaped measurement, value or string: itself, behind a backslash if it is one of those named |
| LineProtocol.ValidKey | influxdb3_py_api/src/system_py.rs:517-526 | A key is accepted exactly if it is not empty and none of its characters is a space, a comma or an equals sign |
| LineProtocol.DecimalByPlace | influxdb3_py_api/src/system_py.rs:546-559 | A printed integer has a minus sign exactly if negative and digits that add up to it by their places, without leading zeros |
| LineProtocol.TagPrints | influxdb3_py_api/src/system_py.rs:592-598 | One more tag adds a comma, its key, an equals sign and its escaped value in front of the fields |
| LineProtocol.FirstFieldPrints | influxdb3_py_api/src/system_py.rs:586-608 | A line of one field is the escaped measurement, a space, the escaped key, an equals sign and the text |
| LineProtocol.FieldPrints | influxdb3_py_api/src/system_py.rs:603-608 | One more field adds a comma, its escaped key, an equals sign and its text |
| LineProtocol.TimePrints | influxdb3_py_api/src/system_py.rs:610-611 | A timestamp adds a space and the number |
| LineProtocol.ReadEscapedBack | influxdb3_py_api/src/system_py.rs:532-538 | An escaped text is read back in full, up to the stop character behind it |
| LineProtocol.ReadTokenBack | influxdb3_py_api/src/system_py.rs:546-579 | A field value, quoted or bare, is read back to where it ends |
| LineProtocol.ReadTagsBack | influxdb3_py_api/src/system_py.rs:592-597 | All tags, in order, are read back from their printed form |
| LineProtocol.ReadFieldsBack | influxdb3_py_api/src/system_py.rs:603-607 | All fields, in order, are read back from their printed form |
| LineProtocol.ReadDecimalBack | influxdb3_py_api/src/system_py.rs:610-611 | Every integer is read back from its decimal form |
| LineProtocol.ReadTailBack | influxdb3_py_api/src/system_py.rs:603-611 | Fields and timestamp are read back from the end of a line |
| LineProtocol.ReadPastMeasurement | influxdb3_py_api/src/system_py.rs:588-597 | Reading passes over a printed measurement unless its last backslash meets a comma |
| LineProtocol.BackslashSwallowsComma | influxdb3_py_api/src/system_py.rs:586-598 | With tags, a measurement that ends in a backslash is never read back |
| LineProtocol.ReadsBackWithTags | influxdb3_py_api/src/system_py.rs:586-613 | With tags, reading undoes printing exactly if the measurement does not end in a backslash |
| LineProtocol.ReadsBackWithoutTags | influxdb3_py_api/src/system_py.rs:586-613 | Without tags, reading always undoes printing |
| LineProtocol.ReadsBackExactly | influxdb3_py_api/src/system_py.rs:508-613 | For every valid line, the reader undoes printing if and only if it has no tags or no backslash at the end of its measurement |
| LineProtocol.PrintIsInjective | influxdb3_py_api/src/system_py.rs:508-613 | Two such lines with the same text are the same line |
| LineProtocol.PrintIsInjectiveWithoutBackslash | influxdb3_py_api/src/system_py.rs:508-613 | In particular all lines whose measurements have no backslash are told apart by their text |
| LineSplits.NoFieldInTags | influxdb3_py_api/src/system_py.rs:592-607 | No space in printed tags is followed by what could be a field |
| LineSplits.SameHead | influxdb3_py_api/src/system_py.rs:586-613 | Lines with the same text have the same printed measurement and tags, the same fields and the same timestamp |
| LineSplits.EscapedIsGood | influxdb3_py_api/src/system_py.rs:528-530 | A printed measurement has no space and a backslash before every comma |
| LineSplits.GoodIsEscaped | influxdb3_py_api/src/system_py.rs:528-530 | Every such text is the printed form of a measurement |
| LineSplits.SameSplitSameLine | influxdb3_py_api/src/system_py.rs:586-613 | Lines with the same text whose tags begin at the same place are the same |
| LineSplits.EverySplitIsALine | influxdb3_py_api/src/system_py.rs:586-613 | Every place where measurement and tags can be split gives a valid line with the same text |
| LineSplits.DeterminedExactly | influxdb3_py_api/src/system_py.rs:508-613 | No other line has the same text if and only if the printed measurement and tags can be split at one place only, for valid lines and for those with different tag keys |
| LineSplits.PlainLineIsDetermined | influxdb3_py_api/src/system_py.rs:508-613 | So for every line with no comma in its measurement and no tags or no backslash before them |
| LineSplits.SpaceTellsThemApart | influxdb3_py_api/src/system_py.rs:508-613 | A text may determine its line although it does not read back: one tag, its value with a space and no comma |
| LineBuilding.RenderReadsBack | influxdb3_py_api/src/system_py.rs:546-579 | The printed field value tells both its type and its value |
| LineBuilding.RenderIsText | influxdb3_py_api/src/system_py.rs:546-579 | The text of each kind of value: sign, digits by place and suffix of an integer, a quoted string with backslashes and quotes escaped, one letter for a boolean |
| LineBuilding.SetItemSetsOne | influxdb3_py_api/src/system_py.rs:540-579 | Assigning changes one key's value; a new key goes last and an old one keeps its place |
| LineBuilding.SetItemKeepsDistinct | influxdb3_py_api/src/system_py.rs:540-579 | Assigning keeps keys different |
| LineBuilding.AssignedHoldsLast | influxdb3_py_api/src/system_py.rs:540-579 | After any assignments each key has the value assigned to it last |
| LineBuilding.LineBuilder.constructor | influxdb3_py_api/src/system_py.rs:509-515 | A new builder holds the measurement and nothing else |
| LineBuilding.LineBuilder.Tag | influxdb3_py_api/src/system_py.rs:517-544 | Accepted exactly if the key is not empty and has no space, comma or equals sign; then the one tag has the value, otherwise nothing changes |
| LineBuilding.LineBuilder.Field | influxdb3_py_api/src/system_py.rs:546-579 | Refused exactly for such a key or a negative unsigned value; otherwise the one field has the text of its kind, a boolean `t` or `f` |
| LineBuilding.LineBuilder.TimeNs | influxdb3_py_api/src/system_py.rs:581-584 | The timestamp is the given one |
| LineBuilding.LineBuilder.Build | influxdb3_py_api/src/system_py.rs:586-613 | Refused exactly without fields; otherwise the text is the printed line, and reads back as the contents if and only if the comma in front of the tags stands |
| LineBuilding.RequestedStep | influxdb3_py_api/src/system_py.rs:540-584 | One more call changes the line asked for as that call says |
| LineBuilding.RequestedIsAsked | influxdb3_py_api/src/system_py.rs:517-579 | After any calls each tag and field has the value given to it last by a call that was not refused for its key or sign, and no other is there |
| LineBuilding.BuildLine | influxdb3_py_api/src/system_py.rs:508-613 | For every sequence of calls, bad ones included, the text is that of the line with the last values given, whose keys are different; it reads back if and only if there are no tags or no backslash ends the measurement |
| LineBuilding.EscapeInTwo | influxdb3_py_api/src/system_py.rs:528-534 | Escaping a value is escaping it for a measurement after escaping only backslashes and equals signs |
| LineBuilding.TrailingBackslashCollides | influxdb3_py_api/src/system_py.rs:508-613 | One family of lines that their texts do not determine: tags, a measurement ending in a backslash and no space in the first tag value |
| LineBuilding.ReadsBackYetCollides | influxdb3_py_api/src/system_py.rs:508-613 | A line may read back although another one has the same text |
| PluginCache.ExpiringCache.Insert | influxdb3_py_api/src/system_py.rs:1145-1166 | Sets one entry, with its own expiry or the default one, and keeps both indexes in agreement |
| PluginCache.ExpiringCache.Remove | influxdb3_py_api/src/system_py.rs:1179-1187 | Removes exactly the key; the bucket it must be in exists |
| PluginCache.ExpiringCache.Get | influxdb3_py_api/src/system_py.rs:1168-1177 | Gives the value unless it has expired, and then forgets it |
| PluginCache.ExpiringCache.Cleanup | influxdb3_py_api/src/system_py.rs:1189-1201 | Removes exactly the entries whose expiry is past, although it walks buckets and not entries |
| PluginCache.CacheStore.Cleanup | influxdb3_py_api/src/system_py.rs:1249-1258 | Runs once the interval has passed and every time from then on, and loses stale entries and empty namespaces only |
| PluginCache.CacheStore.Put | influxdb3_py_api/src/system_py.rs:1260-1275 | Stores one entry and changes no other; it expires after the lifetime given, without one never, or in a test namespace after half an hour |
| PluginCache.CacheStore.Get | influxdb3_py_api/src/system_py.rs:1277-1281 | Gives the stored value unless expired; other entries stay |
| PluginCache.CacheStore.Delete | influxdb3_py_api/src/system_py.rs:1283-1289 | Removes one entry and tells whether there was one |
| PluginCache.CacheStore.DropTriggerCache | influxdb3_py_api/src/system_py.rs:1290-1297 | Removes one trigger's namespace and nothing else |
| PluginCache.CacheStore.DropAllTriggerCachesForDb | influxdb3_py_api/src/system_py.rs:1299-1302 | Removes the namespaces of all triggers of a database and nothing else |
| PluginCache.Perform | influxdb3_py_api/src/system_py.rs:1241-1303 | One operation of the store is one operation of a plain map of puts, and a get is answered as that map would |
| PluginCache.PlainAnswersLastPut | influxdb3_py_api/src/system_py.rs:1112-1176 | The plain map answers the value put last and not taken away since while it lives: before the end of the lifetime given, without one for ever, in a test namespace for half an hour |
| PluginCache.Replay | influxdb3_py_api/src/system_py.rs:1104-1303 | Over every run with a clock that does not go back, each get answers the value of the last put, not deleted or dropped since, exactly while it lives by the lifetime given or that of its namespace: cleanup is unobservable |
| CatalogRepository.RemoveLeft | influxdb3_catalog/src/catalog.rs:231 | Removing an identifier keeps the two directions of the name map inverse |
| CatalogRepository.Bind | influxdb3_catalog/src/catalog.rs:206-226 | Binding a pair unbinds whatever either side was bound to, and keeps the map a bijection |
| CatalogRepository.Repository.constructor | influxdb3_catalog/src/catalog.rs:105-111 | A new repository is empty, consistent and starts numbering at zero |
| CatalogRepository.Repository.GetAndIncrementNextId | influxdb3_catalog/src/catalog.rs:113-117 | Gives the next identifier and moves past it, or panics, exactly at the maximum |
| CatalogRepository.Repository.IdExists | influxdb3_catalog/src/catalog.rs:178-187 | In a consistent repository the assertion does not fire and the answer is whether the identifier is stored |
| CatalogRepository.Repository.Insert | influxdb3_catalog/src/catalog.rs:201-217 | Refused exactly if identifier and name are both taken; a success keeps consistency exactly if the name was free or the identifier's own |
| CatalogRepository.Repository.Update | influxdb3_catalog/src/catalog.rs:220-228 | Refused exactly for an unknown identifier; a success keeps consistency exactly if the name was free or the identifier's own |
| CatalogRepository.Repository.Overwrite | influxdb3_catalog/src/catalog.rs:205-227 | Storing an item keeps identifiers, names and items in agreement if and only if its name is unbound or bound to the same identifier |
| CatalogRepository.AgreeAfterStore | influxdb3_catalog/src/catalog.rs:205-227 | The same for the two maps as values |
| CatalogRepository.Repository.Remove | influxdb3_catalog/src/catalog.rs:230-233 | Removes one item and its name and keeps consistency |
| CatalogRepository.Repository.LookupEqualsScan | influxdb3_catalog/src/catalog.rs:127-146 | In a consistent repository looking up a name equals a scan over the items, and names are unique |
| CatalogRepository.Perform | influxdb3_catalog/src/catalog.rs:113-233 | One operation does to the two maps and the next identifier, and answers, what it says; if admissible, as on a plain list |
| CatalogRepository.Replay | influxdb3_catalog/src/catalog.rs:89-246 | Over every run, an allocation gives the next identifier or panics exactly at the maximum; the next one is the least above all those allocated, or inserted below the maximum; none is allocated that was allocated or inserted before, and every answer is that of the two maps; over every admissible run each answer is that of a plain list |
| CatalogTokens.LookupEqualsScan | influxdb3_catalog/src/catalog.rs:348-354 | With index and tokens in agreement, looking up a hash equals a scan, and hashes are unique |
| CatalogTokens.IndexAfterStore | influxdb3_catalog/src/catalog.rs:356-381 | Storing a token keeps index and tokens in agreement if and only if its hash is unused or its own |
| CatalogTokens.IndexAfterRefusal | influxdb3_catalog/src/catalog.rs:356-361 | Indexing a token that is then refused keeps the agreement if and only if the hash is the one stored already |
| CatalogTokens.IndexAfterDrop | influxdb3_catalog/src/catalog.rs:383-391 | Deleting a token with its hash keeps the agreement |
| CatalogTokens.TokenRepository.AddToken | influxdb3_catalog/src/catalog.rs:356-361 | States exactly when a token is refused, and exactly when names and hashes still agree with the tokens afterwards |
| CatalogTokens.TokenRepository.UpdateAdminTokenHash | influxdb3_catalog/src/catalog.rs:363-381 | Fails exactly for a missing token; otherwise only that token changes, and the index agrees exactly if no other token has the hash |
| CatalogTokens.TokenRepository.DeleteToken | influxdb3_catalog/src/catalog.rs:383-391 | Fails exactly for an unknown name; otherwise removes that token and keeps everything in agreement |
| CatalogTokens.PerformToken | influxdb3_catalog/src/catalog.rs:348-391 | An allowed operation acts as on a plain list of tokens |
| CatalogTokens.ReplayTokens | influxdb3_catalog/src/catalog.rs:319-392 | Over every run of allowed operations, looking up a hash gives exactly the one stored token that carries it |
| CatalogTokens.ReplacedHashIsGone | influxdb3_catalog/src/catalog.rs:363-381 | Right after a hash was replaced it resolves to nothing |
| CatalogTokens.DeletedHashIsGone | influxdb3_catalog/src/catalog.rs:383-391 | Right after a token was deleted its hash resolves to nothing |
| CatalogTokens.AllowedRunsAreDistinct | influxdb3_catalog/src/catalog.rs:356-391 | Over every run of allowed operations no two tokens share an identifier or a hash |
| CatalogTokens.StaysGone | influxdb3_catalog/src/catalog.rs:356-391 | A hash that resolves to nothing does so until an operation gives it to a token |
| CatalogTokens.TakenHashStaysGone | influxdb3_catalog/src/catalog.rs:363-391 | Over every run, a hash that was replaced or whose token was deleted resolves to nothing until an operation gives it to a token again |
| CatalogTokens.TokenIsFound | influxdb3_catalog/src/catalog.rs:348-391 | Over every run of allowed operations a token stays as it is, and its hash leads to it, while no operation is about it |
| CatalogTokens.RehashedTokenIsFound | influxdb3_catalog/src/catalog.rs:363-381 | So the new hash of a re-hashed token leads to it under its old name, marked with the time and the identifier of the re-hashing |
| CatalogTokens.AddedTokenIsFound | influxdb3_catalog/src/catalog.rs:356-361 | And the hash of an added token leads to it as it was added |
| PluginChannelsModel.PluginChannels.AddWalTrigger | influxdb3_processing_engine/src/lib.rs:306-310 | Registers one mailbox under database and trigger |
| PluginChannelsModel.PluginChannels.AddScheduleTrigger | influxdb3_processing_engine/src/lib.rs:312-328 | Registers mailbox and cancellation token together |
| PluginChannelsModel.PluginChannels.AddRequestTrigger | influxdb3_processing_engine/src/lib.rs:330-334 | Registers one mailbox under its path |
| PluginChannelsModel.PluginChannels.SendShutdown | influxdb3_processing_engine/src/lib.rs:146-208 | States when a sender is missing, closed or reached; a schedule trigger's own run is cancelled right before |
| PluginChannelsModel.PluginChannels.RemoveTrigger | influxdb3_processing_engine/src/lib.rs:210-236 | Removes one registration, a schedule trigger's token with its mailbox |
| PluginChannelsModel.PluginChannels.ShutdownWal | influxdb3_processing_engine/src/lib.rs:241-254 | Exactly the open mailboxes of the database's WAL triggers get a shutdown |
| PluginChannelsModel.PluginChannels.ShutdownSchedule | influxdb3_processing_engine/src/lib.rs:256-278 | Exactly its schedule triggers have their runs cancelled, mailbox open or not, and exactly the open mailboxes among them get a shutdown, each after the cancellation of its own run |
| PluginChannelsModel.PluginChannels.ShutdownRequests | influxdb3_processing_engine/src/lib.rs:280-292 | Exactly the open mailboxes behind the paths get one |
| PluginChannelsModel.PluginChannels.ShutdownAllForDb | influxdb3_processing_engine/src/lib.rs:238-295 | Exactly the open mailboxes of the database's triggers and of the paths get a shutdown, and exactly the runs of its schedule triggers are cancelled, before it |
| PluginChannelsModel.PluginChannels.RemoveAllForDb | influxdb3_processing_engine/src/lib.rs:297-304 | Removes all registrations of the database and of the paths and no other |
| CatalogEvents.RegisterKeepsGood | influxdb3_processing_engine/src/lib.rs:306-334 | Registering keeps every schedule mailbox with the token of its own registration |
| CatalogEvents.RemoveKeepsGood | influxdb3_processing_engine/src/lib.rs:210-236 | So does removing a trigger |
| CatalogEvents.RemoveDbKeepsGood | influxdb3_processing_engine/src/lib.rs:297-304 | So does removing a database, of which no trace is left |
| CatalogEvents.Manager.RunTrigger | influxdb3_processing_engine/src/lib.rs:650-746 | Registers the trigger under a new mailbox exactly if it is found, is this node's and its code can be read |
| CatalogEvents.StopChannel | influxdb3_processing_engine/src/lib.rs:766-792 | Sends the shutdown if there is a live mailbox and removes the entry only after an acknowledgement |
| CatalogEvents.Manager.StopTrigger | influxdb3_processing_engine/src/lib.rs:749-796 | The entry goes only if the loop behind it acknowledged; the trigger's cache goes as soon as a shutdown could be sent |
| CatalogEvents.Manager.ClearDatabase | influxdb3_processing_engine/src/lib.rs:1420-1471 | Nothing is left of the database: no mailbox, token, request path or trigger cache |
| CatalogEvents.Manager.OnSoftDelete | influxdb3_processing_engine/src/lib.rs:1349-1415 | Either the information for the hard delete is kept, or everything is cleaned up at once |
| CatalogEvents.Manager.OnHardDelete | influxdb3_processing_engine/src/lib.rs:1420-1471 | The database recorded by the soft delete is cleaned up, and only it |
| CatalogEvents.Manager.OnTriggerEvent | influxdb3_processing_engine/src/lib.rs:1297-1348 | Starts and stops exactly the triggers the event asks for, and drops the cache of one that got a shutdown |
| CatalogEvents.Manager.Handle | influxdb3_processing_engine/src/lib.rs:1287-1477 | The whole effect of one event on registry and pending information; a database whose deletion it completes has no registration and no trigger cache left |
| CatalogEvents.StopFindsOwnSlot | influxdb3_processing_engine/src/lib.rs:192-204 | Stopping a trigger that was just registered and acknowledges takes its registration away if and only if it is no request trigger or its path is its name |
| CatalogEvents.RegisteredMore | influxdb3_processing_engine/src/lib.rs:1287-1477 | An event changes each slot of the registry as the events of that slot alone say |
| CatalogEvents.EffectsAreSent | influxdb3_processing_engine/src/lib.rs:146-295 | An event sends a shutdown to exactly the open mailboxes in the slots it asks to stop, and cancels the runs of exactly the schedule triggers among them, right before |
| CatalogEvents.PendingMore | influxdb3_processing_engine/src/lib.rs:1349-1471 | An event keeps the pending map exactly the deletions still to be completed |
| CatalogEvents.HardDeleteTakes | influxdb3_processing_engine/src/lib.rs:1420-1471 | A hard delete empties the slots of the recorded database; what it takes was there at an earlier event if and only if nothing started in the slot since |
| CatalogEvents.NewDatabaseLosesItsTrigger | influxdb3_processing_engine/src/lib.rs:1349-1471 | A run in which a database created again under the same name loses its trigger |
| CatalogEvents.CachesAreExplained | influxdb3_processing_engine/src/lib.rs:749-796 | A stop takes the trigger's cache exactly if a shutdown could be sent; the end of a database takes those of all its triggers |
| CatalogEvents.StartIsOutright | influxdb3_processing_engine/src/lib.rs:1297-1326 | After an enable, or an enabled create, of a trigger that is found, this node's and readable, its slot holds a mailbox that no slot has held before, and nothing else changes |
| CatalogEvents.StopIsOutright | influxdb3_processing_engine/src/lib.rs:1327-1348 | After a disable or a forced delete of a trigger that is found, its mailbox, if open, has got a shutdown and, if it acknowledges, left the slot; a schedule run was cancelled in any case, and nothing else changes |
| CatalogEvents.DbStopIsOutright | influxdb3_processing_engine/src/lib.rs:1349-1471 | A deletion sends shutdowns to exactly the open mailboxes of the database and of the paths seen; when it is completed their slots are empty and the trigger caches gone |
| CatalogEvents.EventIsOutright | influxdb3_processing_engine/src/lib.rs:1287-1477 | What every event of every run did, from its own fields: these three, and nothing at all for a disabled create, an unforced delete, a trigger not found or a hard delete without a soft one |
| CatalogEvents.HandleAll | influxdb3_processing_engine/src/lib.rs:1287-1477 | After every event of every run: pending information is exactly that of soft deletes not completed, each slot holds the mailbox of its last start unless stopped or cleared, each schedule mailbox with the token of its own registration, exactly the open mailboxes asked to stop got a shutdown, a completed deletion has left no trace, and the event did what its fields say |
| TriggerProtocol.AckKeeps | influxdb3_processing_engine/src/plugins.rs:361-365 | Acknowledging a shutdown keeps the protocol's invariant |
| TriggerProtocol.FinishKeeps | influxdb3_processing_engine/src/plugins.rs:372-435 | So does the end of a run, with success, an error or a request to be disabled |
| TriggerProtocol.DrainKeeps | influxdb3_processing_engine/src/plugins.rs:387-399 | So does skipping work until the shutdown comes |
| TriggerProtocol.TickKeeps | influxdb3_processing_engine/src/plugins.rs:545-640 | So does a tick of a schedule loop |
| TriggerProtocol.ReceiveKeeps | influxdb3_processing_engine/src/plugins.rs:745-773 | So does taking a message from a mailbox |
| TriggerProtocol.RegisterKeeps | influxdb3_processing_engine/src/lib.rs:306-334 | So does a registration, also over an older one |
| TriggerProtocol.BeginStopKeeps | influxdb3_processing_engine/src/lib.rs:146-179 | So does finding the mailbox of a trigger to be stopped and cancelling its run, if it is a schedule trigger |
| TriggerProtocol.SendStopKeeps | influxdb3_processing_engine/src/lib.rs:180-204 | So does sending the shutdown, which loops may overtake and a full mailbox holds up |
| TriggerProtocol.EndStopKeeps | influxdb3_processing_engine/src/lib.rs:775-796 | So does the removal after the answer |
| TriggerProtocol.StepKeeps | influxdb3_processing_engine/src/plugins.rs:349-776 | Every step of every task keeps the invariant |
| TriggerProtocol.RunIsSafe | influxdb3_processing_engine/src/plugins.rs:349-776 | In every interleaving: each shutdown is acknowledged at most once and by the loop it was sent to, a loop that acknowledged starts no further run unless it is a WAL loop that disabled itself, schedule runs are cancelled before their shutdown, every token is that of its sender's registration, and a stop removes an entry only after that acknowledgement, the acknowledged one exactly if the trigger was not registered again meanwhile |
| TriggerProtocol.EveryStopIsAnswered | influxdb3_processing_engine/src/plugins.rs:349-776 | In every interleaving each shutdown sent is in its loop's mailbox, or acknowledged, or its loop ended after it was sent for a failed run, for want of something to run at or by an earlier shutdown |
| TriggerProtocol.EndsOnlySo | influxdb3_processing_engine/src/plugins.rs:349-776 | A loop ends without a shutdown only with a failed run that a WAL loop waits for, at a tick without database or next time, or with an empty mailbox without sender |
| TriggerProtocol.EndsExactly | influxdb3_processing_engine/src/plugins.rs:349-776 | And exactly then; it disables itself exactly after a run that asks for it, unless it is a request loop |
| TriggerProtocol.CanBeAnswered | influxdb3_processing_engine/src/plugins.rs:359-776 | In every state the first shutdown in the mailbox of a loop that is not gone can be acknowledged by steps of that loop alone, which change nothing else |
| TriggerProtocol.CanBeStopped | influxdb3_processing_engine/src/lib.rs:749-796 | In every reachable state every kind of trigger can be stopped if its loop is not gone and no stop is under way: the stop, steps of the loop and the end of the stop log just a cancellation, for a schedule trigger, the shutdown, its acknowledgement and the removal, and empty this slot and no other |
| TriggerProtocol.RegisteredTriggerRuns | influxdb3_processing_engine/src/lib.rs:650-746 | In every reachable state without a stop under way a trigger that is registered is found at its slot, no other slot changes, and its loop runs when called by a message or a tick and then waits again |
| TriggerProtocol.ClearedDbIsGone | influxdb3_processing_engine/src/lib.rs:297-304 | A cleared database leaves no trace and no other slot changes |
| TriggerProtocol.RunsAgainAfterAck | influxdb3_processing_engine/src/plugins.rs:380-402 | Every self-disabled WAL loop skips the work before the shutdown, acknowledges and runs again exactly if work is behind it, or nothing is and asynchronous runs go on |
| TriggerProtocol.DisabledWalLoopMayRunAgain | influxdb3_processing_engine/src/plugins.rs:380-402 | There is such a run from the start |
| TriggerProtocol.StopMayRemoveNewerRegistration | influxdb3_processing_engine/src/lib.rs:749-796 | There is a run in which a stop removes a registration whose loop was never asked to stop |
| WalTrigger.SettledIsPrefix | influxdb3_processing_engine/src/plugins.rs:791-848 | Writes are settled from the first on, none skipped and none out of order |
| WalTrigger.AttemptedAgain | influxdb3_processing_engine/src/plugins.rs:496-526 | A write is attempted again only after failing under `Retry`, and then it is the next attempt |
| WalTrigger.OrderlyConcat | influxdb3_processing_engine/src/plugins.rs:359-402 | Orderly attempts on one delivery, all settled, and on the next are orderly on both |
| WalTrigger.TryWrite | influxdb3_processing_engine/src/plugins.rs:799-843 | The retry loop for one write: failures and then a settling attempt, or a stop exactly after a failure under `Disable` or a panic |
| WalTrigger.ProcessWalContents | influxdb3_processing_engine/src/plugins.rs:778-851 | The database's writes of a delivery are attempted in order; it ends early exactly for a failure under `Disable`, a panic or a missing database or table |
| WalTrigger.DrainUntilShutdown | influxdb3_processing_engine/src/plugins.rs:387-399 | Exactly the deliveries before the next shutdown are skipped, and that one is acknowledged |
| WalTrigger.TakeUp | influxdb3_processing_engine/src/plugins.rs:359-440 | One event leaves the loop up to date or ends it for a stated reason, every delivery before it being settled |
| WalTrigger.RunUntilDisabled | influxdb3_processing_engine/src/plugins.rs:349-440 | The attempts follow exactly the order of the delivered writes; a loop that ends by shutdown or for want of events has settled all of them, one that gives up has settled all deliveries but the last and gave up there exactly for the reason stated |
| WalTrigger.AttemptsOfAWrite | influxdb3_processing_engine/src/plugins.rs:496-526 | Each write has failures and then one success under `Retry`, and a single attempt otherwise |
| WalTrigger.StretchIsOutright | influxdb3_processing_engine/src/plugins.rs:778-851 | Read off the events: only writes of the database are attempted, in the order of files and writes, none twice but after a failure under `Retry`, and all are done with but for those of the last event of a stretch that gives up |
| WalTrigger.NextStretch | influxdb3_processing_engine/src/plugins.rs:380-402 | After disabling itself the loop takes up work again behind the next shutdown, with the results not used yet |
| WalTrigger.RunWalFlushPlugin | influxdb3_processing_engine/src/plugins.rs:349-440 | The whole life of the loop: stretches that skip no write and give up exactly for a stated reason, each but the last ended by disabling and followed by a drained mailbox; in each the writes of the database are attempted in order and done with; all attempts together had the results in order, and the loop still goes on only if it used them all |
| ScheduleTrigger.FirstTickIsNext | influxdb3_processing_engine/src/plugins.rs:985-998 | The first tick is in the future, and within one period if and only if the time is not before the epoch or a multiple of the period |
| ScheduleTrigger.ScheduleTriggerRunner.AdvanceTime | influxdb3_processing_engine/src/plugins.rs:1069-1080 | Moves the next tick by exactly one period |
| ScheduleTrigger.RunEvery | influxdb3_processing_engine/src/plugins.rs:538-563 | However long runs take, the k-th run is handed the k-th tick after the first and begins at that time or when the run before it is over, whichever is later; periods over a year or under a millisecond are the two failures |
| ScheduleTrigger.TicksAreMultiples | influxdb3_processing_engine/src/plugins.rs:944-998 | For whole milliseconds the k-th tick is (floor(now / d) + 1 + k) * d, the first strictly after now and within d |
| ScheduleTrigger.DivTwice | influxdb3_processing_engine/src/plugins.rs:985-998 | Computing in milliseconds loses nothing against computing in nanoseconds |
| StartupProbe.FirstLineInPrefix | influxdb3_server/src/startup_probe.rs:201-207 | The request line is the same in every prefix that holds a newline |
| StartupProbe.AnswerProbe | influxdb3_server/src/startup_probe.rs:189-226 | The answer depends on the bytes alone and not on how they arrive; the buffer of 4096 bytes is never overrun |
| StartupProbe.QueryIsIgnored | influxdb3_server/src/startup_probe.rs:207-224 | A GET with any query is answered by its path alone |
| StartupProbe.RequestLineIsAnswered | influxdb3_server/src/startup_probe.rs:207-224 | For every request line of printable words: health for a GET of one of the three health paths, metrics for a GET of the metrics path if there are any, unavailable otherwise |
| StartupProbe.BareWordIsUnavailable | influxdb3_server/src/startup_probe.rs:207-224 | A line without a target is answered as unavailable |
| StartupProbe.WhiteSpaceIsSkipped | influxdb3_server/src/startup_probe.rs:207 | Words are separated by exactly the white space characters of Unicode, in their UTF-8 form |
| StartupProbe.OnlyTheFirstLineCounts | influxdb3_server/src/startup_probe.rs:193-224 | A request line (section 3 of RFC 9112) that fits the buffer is answered whatever follows it |
| StartupProbe.OnlyTheFirstLineCountsToo | influxdb3_server/src/startup_probe.rs:193-224 | The same for a line that ends in a newline alone or not at all |
| ShutdownCoordinator.ShutdownManager.RegisterToken | influxdb3_shutdown/src/lib.rs:87-91 | One more token is outstanding |
| ShutdownCoordinator.ShutdownManager.CompleteToken | influxdb3_shutdown/src/lib.rs:164-168 | Signals at the first call only; what is outstanding goes down then and only then |
| ShutdownCoordinator.ShutdownManager.Drop | influxdb3_shutdown/src/lib.rs:174-178 | A token that goes out of scope has signalled exactly once, completed before or not |
| ShutdownCoordinator.ShutdownManager.TryEndWait | influxdb3_shutdown/src/lib.rs:97-101 | The wait ends exactly when no tracked task is left, and then nothing is outstanding |
| ShutdownCoordinator.ShutdownManager.FinishJoin | influxdb3_shutdown/src/lib.rs:97-101 | The frontend is cancelled only by a join whose wait is over |
| ShutdownCoordinator.OutstandingUpdate | influxdb3_shutdown/src/lib.rs:164-178 | Changing one token changes the number outstanding by that token alone |
| ShutdownCoordinator.NoneOutstanding | influxdb3_shutdown/src/lib.rs:97-101 | Nothing is outstanding if and only if every token has signalled |
| ShutdownCoordinator.FinishShutdown | influxdb3_shutdown/src/lib.rs:97-101 | From every reachable state with nothing outstanding, a waiting join gets to cancel the frontend |
| ShutdownCoordinator.Perform | influxdb3_shutdown/src/lib.rs:87-178 | One step does to the manager, and shows, exactly what the steps before it say |
| ShutdownCoordinator.EndedTasksSignalled | influxdb3_shutdown/src/lib.rs:87-91 | A tracked task ends only after its token was completed or dropped |
| ShutdownCoordinator.SignalsAreAsked | influxdb3_shutdown/src/lib.rs:164-178 | Tokens are numbered as they are registered, and each signals at the first step that completes or drops it, and at no other |
| ShutdownCoordinator.RunIsSafe | influxdb3_shutdown/src/lib.rs:87-178 | What the steps alone say is safe: each token signals at the first step that completes or drops it and at no other, a wait needs the signals of all tokens, the frontend needs a wait |
| ShutdownCoordinator.RunSteps | influxdb3_shutdown/src/lib.rs:87-178 | In every interleaving each step does what the steps before it say; each token signals exactly at the first step that completes or drops it, a wait ends only when every token registered until then has signalled, the frontend is cancelled only after that, and the backend exactly if a shutdown was triggered |
| Churn.InItsHour | e2e/restart_check.py:96-106 | A row falls into its intended hour if and only if its minute and its id together stay below an hour, so always for ids below a minute's worth |
| Churn.ObservedRound | e2e/restart_check.py:102-119 | Adding a round's rows one by one gives what the bulk update records: count, sum, minimum, maximum and hours |
| Churn.BaseIsOnMinute | e2e/restart_check.py:96-106 | Every time is a whole minute of the window plus the row id |
| Churn.HoursInTurn | e2e/restart_check.py:92-106 | Each table goes through the hours of the window in turn, and on to the next minute when it has been in all of them |
| Churn.NumberedTimesDiffer | e2e/restart_check.py:102-106 | With ids within a minute's worth, no two rows share a time |
| Churn.SavedRowsNumbered | e2e/restart_check.py:100-123 | The rows of the saved rounds of every run are numbered from zero |
| Churn.RowsFollowTheStart | e2e/restart_check.py:96-106 | The first row is at the start of the window and none is earlier than its id after it |
| Churn.SavedTimesDiffer | e2e/restart_check.py:96-106 | Up to a minute's worth of rows and one, no two share a time |
| Churn.RecordIsExact | e2e/restart_check.py:109-119 | After a round the expected state is exact if and only if the round had rows, or its table already covers what an empty round records |
| Churn.EmptyRecord | e2e/restart_check.py:109-119 | States exactly when recording an empty round changes nothing |
| Churn.RewritesAll | e2e/restart_check.py:86-125 | Writing a round again covers all its rows if and only if it has no fewer rows and spreads them over the same hosts |
| Churn.TimesCollideInALongRun | e2e/restart_check.py:96-106 | A run of any number of rows above a minute's worth and one, with rows in every round, in which two rows are of the same series and time |
| Churn.KeepsApartExactly | e2e/restart_check.py:96-106 | No two rows of a run of N rows are of the same series and time, whatever the window and the rounds, if and only if N is at most a minute's worth of nanoseconds and one |
| Churn.ExpectedIsExact | e2e/restart_check.py:86-123 | With ids within a minute's worth, what the saved rounds leave as expected is what a reader finds |
| Churn.SpillsOver | e2e/restart_check.py:96-119 | A run of any number of rows above a minute's worth in which a row falls into an hour that is not recorded |
| Churn.ExactExactly | e2e/restart_check.py:86-123 | What is expected after a run of N rows is what a reader finds, whatever the window and the rounds, if and only if N is at most a minute's worth of nanoseconds |
| Churn.Churner.WriteRound | e2e/restart_check.py:91-107 | Writes exactly the rows of the round, by their ids; a round without rows is refused |
| Churn.Churner.Record | e2e/restart_check.py:109-122 | Updates one table in bulk and moves to the next round and id |
| Churn.Churner.Try | e2e/restart_check.py:90-123 | A round not saved leaves its rows and nothing else, an empty one nothing; the next try starts from the saved state |
| Churn.RunChurn | e2e/restart_check.py:86-131 | Over every run, with any rounds lost before their save: the saved state is the one the recorded rounds determine; with ids within a minute's worth it is exactly what a reader finds, no two rows share a time, and rounds tried again alike leave no stray row |
| LoadGenerator.MaxCardinality | influxdb3_load_generator/src/specification.rs:55-61 | The result bounds every tag's cardinality and is one of them, or one without tags |
| LoadGenerator.RangesPartition | influxdb3_load_generator/src/specification.rs:92-106 | Every id belongs to exactly one writer's range; the ranges start at one, cover the cardinality and go past it by less than the number of writers |
| LoadGenerator.RangeIsUsed | influxdb3_load_generator/src/line_protocol_generator.rs:400 | The test for a range holds exactly for a positive cardinality |
| LoadGenerator.NextId | influxdb3_load_generator/src/line_protocol_generator.rs:400-410 | Starting again after the last id gives min + k mod size for the k-th line |
| LoadGenerator.Tag.WriteTo | influxdb3_load_generator/src/line_protocol_generator.rs:374-413 | Prints the k-th text of the cycle in the k-th line |
| LoadGenerator.TextIsMadeOf | influxdb3_load_generator/src/line_protocol_generator.rs:374-413 | What is printed for a tag is a comma, the key, from the second copy on with its number, an equals sign, the value and the ids wanted, each number by its digits |
| LoadGenerator.NameReadsBack | influxdb3_load_generator/src/line_protocol_generator.rs:380-384 | The name, key and number of the copy, reads back up to the first equals sign for a key without one |
| LoadGenerator.CreateTags | influxdb3_load_generator/src/line_protocol_generator.rs:69-111 | One tag with a cursor of its own for each copy, in order |
| LoadGenerator.CopiesAreInOrder | influxdb3_load_generator/src/line_protocol_generator.rs:99-110 | The copies of each tag are numbered from one and follow those of the tags before it |
| LoadGenerator.WriteLine | influxdb3_load_generator/src/line_protocol_generator.rs:314-316 | Every tag of a line prints its own next text |
| LoadGenerator.LinesPerSample | influxdb3_load_generator/src/line_protocol_generator.rs:65-67 | The default is the writer's share of the largest cardinality |
| LoadGenerator.WriteSamples | influxdb3_load_generator/src/line_protocol_generator.rs:290-330 | Over any number of samples every line prints, for each tag, the text of its place in that tag's cycle |
| LoadGenerator.SampleCoversTheRange | influxdb3_load_generator/src/line_protocol_generator.rs:400-410 | In a sample as long as the range, each id is at exactly one line |
| LoadGenerator.SamplePrintsEveryIdOnce | influxdb3_load_generator/src/line_protocol_generator.rs:290-330 | In the output, each id of the largest range is printed in exactly one line of every sample |
| LoadGenerator.DefaultSamplesPrintEveryIdOnce | influxdb3_load_generator/src/line_protocol_generator.rs:65-67 | With the default number of lines, each id of a tag with the largest cardinality is printed in exactly one line of every sample |
| LoadGenerator.IdInRange | influxdb3_load_generator/src/line_protocol_generator.rs:400-410 | Every printed id lies in the writer's own range |
| LoadGenerator.WritersNeverCollide | influxdb3_load_generator/src/line_protocol_generator.rs:374-413 | Two writers never print the same value for a tag, although writer, copy and id are printed without anything between them |

## Left out

- Compaction, shared inventory, leases, WAL tailing and older catalog versions: not part of this model.
- Running Python, virtual environments, package managers, HTTP, TLS, object stores and query planning: outside code and I/O.
- The path check for plugin files: it depends on how the operating system resolves links; paths are taken as resolved siblings.
- Permission checks: inclusion of masks over lists of permissions.
- Ordered map and set serialisation: lists written and read in order.
- Float fields: the printed float is taken as a text without separators, quotes or a type suffix.
- Keys with line breaks: like the code, the model refuses only an empty key and keys with a space, comma or equals sign.
- Cache lifetimes that are not finite numbers: the conversion to a duration is not modelled.
- Cron schedules: only `every:` schedules are modelled.
- Asynchronous WAL triggers: `WalTrigger` covers the synchronous mode; in `TriggerProtocol` runs may also be asynchronous, without an order among them.
- Fairness and timing: steps may be delayed without bound, so it is stated that a shutdown can be answered (`CanBeAnswered`, `FinishShutdown`) and not that it will be.
- PluginCache.Replay: states nothing for a clock that goes back, since an entry cleaned up under a later time cannot come back.
- TriggerProtocol.RunIsSafe: does not follow the contents of the work in a mailbox, because `WalTrigger` does.
- CatalogEvents.HandleAll: events are handled one at a time, as in the code; a stop started by a plugin that disables itself at the same time is in `TriggerProtocol`.
- The nested maps from database to trigger to sender are modelled as maps from the pair; that a database with no triggers left also loses its inner map is not visible then.
- PluginDirectory.Disk.Yield: a cleanup works on the temp path; that a system may go on deleting inside a directory that was renamed meanwhile is not modelled.
- Integer widths: identifiers are bounded by the repository's maximum; times, counts and row ids are unbounded.
- Finding a plugin's trigger in the catalog before its directory is replaced, and building the HTTP responses of the probe.
- Decoding a probe's bytes: malformed UTF-8 stays as it is instead of being replaced, which changes neither where words end nor whether they equal a known path.
- Rows of a churn round whose write is refused half-way: a round not saved is taken to have written all its rows.
- Escaping of keys and values given in the load generator's specification, and its measurement names.
- Random field values, write summaries and line timestamps of the load generator.
