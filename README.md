# csres in Dafny

csres is a Windows utility. It switches a monitor's display resolution while a configured
game or application runs, and it switches it back when the application stops. A rule in
the JSON configuration names
- a process (for example `cs2.exe`),
- a target resolution `WxH@F`,
- a monitor device name (`""` means the primary monitor),
- optionally, a restore resolution.

A poll loop scans the process table and diffs the running rules against the previously
active ones. A start forces the rule's resolution on its monitor. A stop restores the
default resolution once no other active application uses the monitor. The Fyne
configuration window does the following:
- lists the rules as text entries;
- decodes an entry back into a rule to delete or edit it;
- offers monitor and resolution dropdowns;
- saves the settings;
- starts and stops monitoring. Stopping restores the resolutions captured when the
  monitor was created.

The model gives each Go file a module of its own:

- `Config` (config.go, plus `createDefaultConfig` from main.go): the `Resolution`,
  `AppConfig` and `Config` records. Also:
  - loading, which normalises the poll interval;
  - the error paths of loading and saving;
  - the default configuration.

  JSON encoding and decoding are function parameters.
- `Process` (process.go): the snapshot's name filtering and the case-insensitive process
  search. Also the map from running process name to rule, in which the last rule wins.
  A process snapshot is an `Option<seq<string>>` input.
- `Display` (display.go): the `DisplayManager` class. It holds
  - a live resolution per device,
  - an oracle for the result codes of the change calls,
  - a log of the change calls made,
  - the abstract answers of the adapter, mode and WMI enumerations.

  On top of it sit:
  - the bounded retry of `SetResolution`;
  - the de-duplication of modes;
  - the WMI name filter with its regular-expression group;
  - the assembly of the monitor list, with the WMI name queue that never gives up its
    last name.
- `GuiHelpers` (gui_helpers.go): the `WxH@FHz` parser; the list-entry decoder
  `parseAppInfo`, including its parenthesis-matching scan; the conversion of a monitor
  display name back to a device name.
- `GuiMonitor` (gui_monitor.go): the monitor dropdown's options and map, and the display
  name of a device.
- `Monitor` (main.go): the `ResolutionMonitor` class with its maps `originalRes`,
  `currentAppRes` and `activeApps`. Also construction, the start and stop handlers, one
  poll tick (`checkRunningApps`) and `shutdown`.
- `Gui` (gui.go): the `GuiApp` class with the rule list and the monitor it drives. Also:
  - the list-entry encoder;
  - the delete and edit filters;
  - the poll-interval check;
  - the dropdown selection rule;
  - `startMonitoring` / `stopMonitoring`.

`Strings` holds the subset of Go's `strings` and `strconv` the code uses (`Index`,
`LastIndex`, `Split`, `TrimSpace` with Unicode white space, `TrimSuffix`, `ParseUint`,
`Atoi`) and `Wrappers` holds `Option` and `Result`.

Go ranges over maps in no fixed order. `Monitor.MapOrder` produces the keys in some
order, and the loops over `runningApps`, `activeApps` and `currentAppRes` visit them in
that order. Their contracts hold for every order.

Where the code and what the program documents about itself disagree, the model follows
the code:
- `shutdown` restores the configured default resolution, not the captured original
  resolution, and it leaves both maps as they are (main.go:273-291).
- A stop restores `DefaultResolution`, not the rule's `restore_resolution`. When the live
  resolution already equals the default, no call is made and the `currentAppRes` entry is
  kept (main.go:241-262).
- A start that finds the target already in place records nothing in `currentAppRes`
  (main.go:194-209).
- Two applications that share a monitor and stop in the same tick each see the other
  still active. Neither restores the monitor (`Monitor.SharedStopIsQuiet`).
- `stopMonitoring` passes over every forced monitor that has no captured original
  resolution (gui.go:803-807).
- When several rules share a process name, the scan keeps the last rule, and so the start
  uses the last rule's monitor (`Monitor.StartUsesLastRule`,
  `Monitor.StartModesAreLastRules`). The stop looks up the first rule's monitor
  (process.go:117, main.go:218-223).
- A decoded list entry never carries a restore resolution, unless the monitor's display
  name itself holds "[Restore: …]". The entry puts `[Restore: …]` after the closing
  parenthesis, and the decoder only looks inside it (`Gui.EntryRoundTrip`).
- Two monitors with the same caption are told apart only by the position and resolution
  that the conversion back to a device name strips. The later one converts to the
  earlier one's device (`GuiHelpers.DuplicateLabelsResolveToFirst`).

main.go reads `Config.DefaultResolution` and `Config.DefaultMonitor` and calls
`ChangeResolutionForMonitor(res, monitor)`. config.go declares neither field, and
display.go only has `SetResolution(monitor, res)`. To close the gap, the model's `Config`
has the two fields, and the call is `SetResolution` with its arguments swapped.

## Model

| member | source | states |
|---|---|---|
| Config.Normalize | config.go:45-55 | A poll interval of at most 0 becomes 2, and a positive one is kept. Every other field is returned exactly as decoded. |
| Config.LoadConfig | config.go:34-56 | A read failure gives ReadFailed and a decode failure gives ParseFailed. The load succeeds exactly when both steps succeed, and then it returns the normalised decoded value. |
| Config.SaveConfig | config.go:59-70 | A marshal failure writes nothing and reports MarshalFailed. Otherwise the encoded bytes are written, and the result is an error exactly when the write fails, reported as WriteFailed. |
| Config.SaveThenLoad | config.go:34-70 | Saving a configuration with a positive poll interval and loading it back gives the same configuration, when the codec round-trips. |
| Config.CreateDefaultConfig | main.go:328-350 | What is written is the encoding of the default configuration. The save succeeds exactly when encoding and writing do. |
| Config.DefaultConfigIsNormal | main.go:329-347 | The default configuration is unchanged by normalisation. It has one rule, for the primary monitor, without a restore resolution. |
| Process.GetRunningProcesses | process.go:68-104 | A failed snapshot is an error. Otherwise the result is the snapshot's non-empty names, in order. |
| Process.NonEmptyNamesMembers | process.go:89-101 | A name is kept exactly when it is in the snapshot and not empty. |
| Process.NonEmptyNamesOrder | process.go:89-101 | Filtering commutes with concatenation, so snapshot order is kept. |
| Process.IsProcessRunning | process.go:51-65 | A failed snapshot is an error, not false. Otherwise the result is true exactly when some kept name equals the target after both are lower-cased. |
| Process.EmptyNameNeverRuns | process.go:57-64 | A rule with an empty process name is never found running. |
| Process.RunningRulesKeys | process.go:110-119 | A key is present exactly when some rule has that process name as written and that process is running. |
| Process.RunningRulesLastWins | process.go:116-118 | The stored rule is the last rule in configuration order with that process name. |
| Process.RunningRulesNames | process.go:116-118 | Every stored rule carries its key as process name. |
| Process.MonitorProcesses | process.go:107-122 | With a snapshot, the result is the map of running rules. Without one, the result is an error and no map, unless there are no rules. |
| Display.IsResolutionEqual | display.go:359-361 | True exactly when width, height and frequency all agree. |
| Display.IsResolutionEqualIsEquivalence | display.go:359-361 | The comparison is reflexive, symmetric and transitive. |
| Display.DedupMembers | display.go:265-276 | A mode is in the de-duplicated list exactly when it was enumerated. |
| Display.DedupDistinct | display.go:265-276 | The de-duplicated list has no repeated mode. |
| Display.DedupPrefix | display.go:248-277 | De-duplicating a prefix of the enumeration gives a prefix of the result. |
| Display.DedupOrder | display.go:248-277 | A mode first enumerated before another comes before it in the result. |
| Display.DisplayManager.CurrentResolution | display.go:197-229 | A name that cannot be converted to UTF-16 is an error. The query succeeds exactly when the device has a live mode, and it returns that mode. |
| Display.DisplayManager.AttemptsMade | display.go:302-322 | One to three attempts are made. Every attempt before the last fails. The last succeeds when the change succeeds, and otherwise all three attempts fail. |
| Display.DisplayManager.SetResolution | display.go:283-323 | A name that cannot be converted to UTF-16 fails before any change call. Otherwise one call per attempt is logged. On success the live mode becomes the target. After three failures the live mode is unchanged and the result is ChangeFailed(3). |
| Display.DisplayManager.GetAvailableResolutions | display.go:232-280 | A name that cannot be converted to UTF-16 is an error. Otherwise the result is the de-duplicated list of modes enumerated before the first failing index. |
| Display.GroupFrom | display.go:346-351 | None exactly when `\(([^)]+)\)` matches nowhere from the start index on. Otherwise the result is the group of the leftmost match, with no match earlier. |
| Display.NoGroupAt | display.go:346-351 | No match starts at an index unless it holds '(' and the next ')' is not right after it. |
| Display.GroupAtFirstClose | display.go:346-351 | A '(' with a later ')' not right after it starts a match whose group is the text in between. |
| Display.DisplayManager.GetMonitorNamesFromWmi | display.go:326-356 | A failed query gives no names. Otherwise the result is the filtered, extracted names in query order. |
| Display.WmiNamesMembers | display.go:338-353 | A name is listed exactly when some entity passes the "Monitor"/"MONITOR" filter and the leftmost match of `\(([^)]+)\)` in its name has that group. |
| Display.WmiNamesOrder | display.go:338-353 | Extraction commutes with concatenation, so query order is kept. |
| Display.PickMonitorName | display.go:134-175 | The inner loop of the monitor enumeration computes what `PickName` specifies. |
| Display.DisplayManager.GetAvailableMonitors | display.go:104-189 | An enumeration error gives no list. Otherwise the result is the monitors assembled from the adapters and the WMI names, or from the adapters alone when WMI gives nothing. |
| Display.AssembleShape | display.go:132-184 | There is one monitor per adapter with state bit 0x1, in order, with the adapter's device name. It is primary exactly when bit 0x4 is set. |
| Display.PickNameTakesHead | display.go:157-167 | While WMI names remain, an adapter with an active monitor takes the first. The queue shrinks only when more than one name is left. |
| Display.PickNameNoActive | display.go:134-175 | An adapter without an active monitor keeps its own string and leaves the queue alone. |
| Display.PickNameWithoutWmi | display.go:169-174 | Without WMI names, the name is the first active monitor string other than "" and "Generic PnP Monitor", or else the adapter's string. |
| Display.AssembleHandsOutNames | display.go:110-185 | The k-th monitor with an active child gets the WMI name at the count of earlier such monitors, capped at the last name. |
| GuiHelpers.ParseResolutionString | gui_helpers.go:103-114 | A text without exactly one "@" fails with NotOneAt. One whose part before the "@" lacks exactly one "x" fails with NotOneX. |
| GuiHelpers.ParseResolutionStringShape | gui_helpers.go:103-138 | Any three decimal uint32 fields around "x" and "@", with an optional "Hz", parse to those three values. |
| GuiHelpers.ParseResolutionStringAccepted | gui_helpers.go:103-138 | Every accepted text has that shape. |
| GuiHelpers.ParseFormatResolution | gui_helpers.go:103-138 | Parsing the "%dx%d@%dHz" text of a resolution gives that resolution back. |
| GuiHelpers.FirstLabelMatch | gui_helpers.go:166-180 | Gives the device of the first monitor whose caption equals the cleaned name, or none exactly when no monitor matches. |
| GuiHelpers.CleanName | gui_helpers.go:155-164 | Computes `CleanDisplayName`: the text before the last " - ", then before the last " [". |
| GuiHelpers.FindLabel | gui_helpers.go:166-180 | The search loop computes `FirstLabelMatch`. |
| GuiHelpers.GetDeviceNameFromDisplayName | gui_helpers.go:141-187 | Computes the conversion that `DeviceNameFromDisplayName` specifies. |
| GuiHelpers.DeviceNameFallbacks | gui_helpers.go:142-153 | "Primary Monitor" converts to "". When the enumeration fails, every other name comes back unchanged. |
| GuiHelpers.DeviceNameUnmatched | gui_helpers.go:182-186 | A name that matches no monitor and has nothing to strip comes back unchanged. |
| GuiHelpers.DuplicateLabelsResolveToFirst | gui_helpers.go:166-180 | When two monitors share a caption, the later one's name converts to the first one's device. |
| GuiHelpers.CloseParen | gui_helpers.go:40-52 | The position found, if any, holds a ')' at or after the start. |
| GuiHelpers.CloseParenDepth | gui_helpers.go:40-52 | The position found is the first at which the depth (count of '(' less count of ')') drops to 0. No position is found exactly when the depth stays at 1 or more to the end. |
| GuiHelpers.MatchingParen | gui_helpers.go:39-55 | The counting scan computes `CloseParen`. |
| GuiHelpers.RestoreTag | gui_helpers.go:58-72 | A monitor segment without "[Restore: " is kept whole, with no restore resolution. |
| GuiHelpers.ParsedAppInfoProperties | gui_helpers.go:15-92 | Without " - " the entry is refused. The process name is the text before the first " - ". The monitor name is trimmed and never "Primary Monitor". A device name after the NUL takes precedence. |
| GuiHelpers.SplitEntry | gui_helpers.go:14-20 | Computes the visible text and the device name after the NUL. |
| GuiHelpers.FindPieces | gui_helpers.go:31-56 | Computes `Pieces`, whose outcomes `PiecesOutcomes` states. |
| GuiHelpers.PiecesOutcomes | gui_helpers.go:31-56 | NoParen exactly when there is no " (". Unbalanced exactly when the depth after the first " (" never drops to 0. Otherwise the text before the first " (" is followed by " (", a balanced segment and ')'. |
| GuiHelpers.ParsedAppInfoRefusals | gui_helpers.go:29-53 | With a " - " but no " (" after it, the entry is refused with NoParen. When the group after that " (" is never closed, it is refused with Unbalanced. |
| GuiHelpers.DecodeAppPieces | gui_helpers.go:58-99 | Computes the rule from the pieces. A bad resolution is an error. |
| GuiHelpers.ParseText | gui_helpers.go:22-99 | Computes the decoding of the visible text. |
| GuiHelpers.ParseAppInfo | gui_helpers.go:10-100 | Computes `ParsedAppInfo`, whose properties and round trip are proved separately. |
| GuiMonitor.BuildOptionName | gui_monitor.go:35-48 | Builds the device string, then " (Primary)" for the primary monitor, then " [i+1]" when there is more than one monitor, then " - WxH@FHz" when the query succeeds. |
| GuiMonitor.GetMonitorOptions | gui_monitor.go:9-56 | "Primary Monitor" always comes first and maps to "". When the enumeration fails it is the only option. Otherwise one option follows per named monitor. |
| GuiMonitor.ListedOptionsMembers | gui_monitor.go:32-52 | An option is listed exactly when some monitor with a non-empty device name builds it. |
| GuiMonitor.ListedOptionsCount | gui_monitor.go:32-52 | There is at most one option per monitor, and exactly one when every device name is non-empty. |
| GuiMonitor.OptionMapLookup | gui_monitor.go:50-51 | A monitor's option maps to its device name, unless a later monitor builds the same option. |
| GuiMonitor.OptionMapKeys | gui_monitor.go:10-13 | The map's keys are exactly "Primary Monitor" and the listed options. |
| GuiMonitor.GetMonitorDisplayName | gui_monitor.go:59-96 | Computes the display name that `MonitorDisplayName` specifies. |
| GuiMonitor.MonitorDisplayNameFallbacks | gui_monitor.go:60-71 | "" gives "Primary Monitor". When the enumeration fails or the device is unknown, the device name comes back unchanged. |
| GuiMonitor.DisplayNameIsOption | gui_monitor.go:74-93 | The display name of a device equals the option the dropdown lists for it, and the dropdown's map sends it back to that device. |
| GuiMonitor.CleanOptionName | gui_helpers.go:155-164 | Stripping an option's resolution and position tags gives back its caption. |
| GuiMonitor.OptionNameNotPrimary | gui_monitor.go:35-48 | An option built from a caption other than "Primary Monitor" is never "Primary Monitor". |
| GuiMonitor.DeviceNameOfDisplayName | gui_helpers.go:141-180 | Converting a device's display name back gives the device, provided its caption is plain and no earlier monitor shares it. |
| Monitor.RuleMonitor | main.go:217-223 | The monitor of the first rule with that process name, or "" when there is none. |
| Monitor.CaptureOriginals | main.go:49-68 | "" holds the primary resolution. Every other key is a monitor with a non-empty device name whose query succeeded, and it holds that answer. |
| Monitor.NewResolutionMonitor | main.go:32-87 | A load failure, an enumeration failure or a failed primary query aborts construction, each with its cause. Otherwise the monitor holds the loaded configuration and empty maps, and `originalRes` holds what `CaptureOriginals` states. |
| Monitor.ResolutionMonitor.SetConfig | gui.go:693-696 | Replaces the configuration and keeps the maps. |
| Monitor.ResolutionMonitor.HandleAppStart | main.go:186-212 | Records a start carrying the rule it was given. A failed query returns its error and changes nothing. A live mode equal to the target makes no call. Otherwise the change is attempted, and only on success is `currentAppRes[monitor]` set to the target. |
| Monitor.ResolutionMonitor.MonitorStillInUse | main.go:225-232 | True exactly when another active application uses the monitor. |
| Monitor.ResolutionMonitor.HandleAppStop | main.go:215-266 | The restore is skipped while another active application uses the monitor of the first rule for the process. It goes to that monitor, or to DefaultMonitor when that is "". A live mode equal to the default makes no call and keeps the entry. The entry is deleted only after a successful change. |
| Monitor.ResolutionMonitor.StartStep | main.go:163-167 | One start with the given rule, its error dropped. The calls made are repeats of the rule's mode on the rule's monitor. Afterwards the live mode of the device that monitor addresses and `currentAppRes[monitor]` are each as before or hold the rule's mode. |
| Monitor.ResolutionMonitor.StopStep | main.go:173-177 | One stop, its error dropped. The calls made are repeats of DefaultResolution on the name's restore monitor: its first rule's monitor, or DefaultMonitor. Afterwards that monitor's device is as before or holds DefaultResolution, and `currentAppRes` is as before or has lost that monitor. Nothing changes while another active application uses the monitor. |
| Monitor.ResolutionMonitor.StartPhase | main.go:161-169 | Exactly one start for every newly running name, each with that name's rule from the scan. Every call made forces a started rule's mode on its monitor. Every new or changed `currentAppRes` entry is a started rule's monitor with its mode, and no entry is removed. No device disappears, and every device whose mode changed holds a started rule's mode on the device its monitor addresses. No display change when nothing starts. |
| Monitor.ResolutionMonitor.StopPhase | main.go:171-179 | Exactly one stop for every name no longer running. Every call made restores DefaultResolution on a stopped name's restore monitor. No entry of `currentAppRes` is added or changed, and one leaves only as a stopped name's restore monitor. Every device whose mode changed is one such monitor's and holds DefaultResolution. No display change on a quiet tick. |
| Monitor.TickEvents | main.go:161-179 | The starts followed by the stops are the handler calls one tick makes. |
| Monitor.ResolutionMonitor.HandleTick | main.go:161-179 | The start handler runs exactly for new names, each with its scanned rule, and the stop handler exactly for vanished names, each once, starts before stops. Every call, every change to `currentAppRes` and every changed device mode belongs to one of those starts or stops, as in the two phases. A quiet tick changes no display. |
| Monitor.ResolutionMonitor.CheckRunningApps | main.go:155-183 | A failed scan returns the error and leaves every map and the display unchanged. A successful scan handles the diff: each start gets the scan's rule, and every call, `currentAppRes` change and changed device mode belongs to a start or a stop of that diff. Then `activeApps` is replaced by the scan, whatever the handlers returned. |
| Monitor.StartUsesLastRule | main.go:162-165 | After a successful scan, every start of the tick is given the last configured rule with that process name. |
| Monitor.StartModesAreLastRules | main.go:162-165 | After a successful scan, every monitor and mode the tick may force is that of the last configured rule for a newly running process name. |
| Monitor.SharedStopIsQuiet | main.go:172-179 | When the only two applications that stop share their rules' monitor, each sees the other still active and the tick is quiet. |
| Monitor.ResolutionMonitor.Shutdown | main.go:269-292 | A change to DefaultResolution is attempted on every key of `currentAppRes` and on nothing else, failures are passed over, and no error is returned. Afterwards every device whose live mode changed is one a key of `currentAppRes` addresses and holds DefaultResolution. Every other device keeps its mode. |
| Gui.AppEntriesShape | gui.go:308-335 | There is exactly one entry per rule, in configuration order. |
| Gui.ListEntries | gui.go:313-334 | The append loop computes `AppEntries`. |
| Gui.FormatEntry | gui.go:314-331 | Computes one list entry: the caption, a NUL, then the raw monitor name. |
| Gui.EntryRoundTrip | gui_helpers.go:10-100 | Decoding the entry of a rule gives back its process name, resolution and monitor name, and a restore resolution of none. The conditions: the process name holds no NUL, and no " - " even with a space appended. The display name holds no NUL and no "[Restore: ", and its parentheses are balanced. The raw monitor name is empty with display name "Primary Monitor", or else it holds no NUL or surrounding space and is not "Primary Monitor". |
| Gui.IsMatchMeaning | gui.go:380-401 | The filter's test amounts to an equal process name, an equal resolution and an equal normalised monitor name. |
| Gui.RuleMatches | gui.go:380-401 | Computes the filter's test. |
| Gui.KeptRulesMembers | gui.go:375-406 | A rule is kept exactly when it does not match, so every matching duplicate goes. |
| Gui.KeptRulesOrder | gui.go:375-406 | Filtering commutes with concatenation, so configuration order is kept. |
| Gui.KeptRulesIdempotent | gui.go:375-406 | Filtering a second time changes nothing. |
| Gui.RemoveMatching | gui.go:375-406 | The filter loop computes `KeptRules`. |
| Gui.EditOriginal | gui.go:427-443 | The copy kept for an edit has the rule's process name, resolution and restore resolution, and a trimmed monitor name that is never "Primary Monitor". A rule already in that form is copied unchanged. |
| Gui.EditOriginalOfDecoded | gui.go:427-443 | The copy kept for an edit of a rule decoded from a list entry is that rule itself. |
| Gui.SavedRulesShape | gui.go:644-685 | The new rule comes last. On an add the old rules come first, unchanged. On an edit exactly the rules not matching the original remain. |
| Gui.Deletion | gui.go:362-412 | A deletion without an error always has a saved configuration. |
| Gui.DeletionCases | gui.go:362-412 | The entry's error comes first, then the load's, then the save's. Otherwise exactly the matching rules are dropped, and the rest of the configuration is kept. |
| Gui.DeleteRule | gui.go:362-412 | Computes `Deletion`. |
| Gui.BestInUnique | gui.go:522-535 | At most one option is the highest-frequency match, ties going to the first seen. |
| Gui.BestExists | gui.go:522-535 | Some option is the best match whenever one has the same size and a positive frequency. |
| Gui.ListModes | gui.go:479-502 | The target options are the modes in reverse order, each mapped to its mode. The restore options add "Current (…)" in front when the query succeeded. |
| Gui.ExactOption | gui.go:513-520 | Found exactly when the rule's resolution is among the modes. |
| Gui.HighestFrequency | gui.go:522-540 | Gives the option of the first mode with the rule's size and the highest positive frequency, and "" exactly when there is none. |
| Gui.PickTarget | gui.go:507-548 | An exact match wins, then the highest-frequency match, then the first option. A rule without width takes the first option. |
| Gui.UpdateResolutionOptions | gui.go:472-554 | An enumeration error is passed on. Otherwise the dropdowns get the options above, the target selection rule, and a restore selection of the first option. |
| Gui.SettingsReloadUnchanged | gui.go:704-721 | An accepted interval survives the next load unchanged. Every decimal integer from 1 to 2^63 - 1 is accepted and reads back as itself. |
| Gui.GuiApp.UpdateAppList | gui.go:308-335 | The list becomes exactly the entries of the configuration's rules. |
| Gui.GuiApp.ReloadConfig | gui.go:271-305 | A load error leaves the list alone. Otherwise the list shows the loaded rules. |
| Gui.GuiApp.DeleteApplication | gui.go:355-423 | The outcome is `Deletion`. On success the resolution monitor receives the saved configuration, and its maps are kept. |
| Gui.GuiApp.SaveApplication | gui.go:622-700 | An empty process name is refused before loading. A load error saves nothing. Otherwise the saved rules are `SavedRules` with the new rule, which always has a restore resolution, and only a successful save reaches the resolution monitor. |
| Gui.GuiApp.SaveSettings | gui.go:703-741 | An interval that is not an integer of at least 1 is refused before loading. Then come the load error and the startup-entry error. Otherwise the four settings are written over the loaded configuration and saved. |
| Gui.GuiApp.StartMonitoring | gui.go:760-781 | When already running, or when a monitor exists, nothing is created. Otherwise a new monitor is created, and a failure leaves monitoring off with the cause. |
| Gui.GuiApp.StopMonitoring | gui.go:784-820 | When not running, nothing changes. Otherwise a change back to the captured resolution is attempted on each forced monitor that has one, only those are attempted, and both maps are emptied. Every device whose live mode changed is one such monitor's, and holds that monitor's captured resolution. Every other device keeps its mode. |

## Left out

- The Fyne window, tray menu, dialogs and widgets (gui.go:65-305, 426-619 apart from the
  selection rule and the edit copy (`Gui.EditOriginal`)): only the rules extracted from
  them are modelled. The monitor dropdown's
  callback that re-runs the selection (gui.go:556-590) is not modelled.
- The Windows startup entry (gui_startup.go): its success is the `startupOk` input of
  `SaveSettings`.
- The configuration file watcher (watcher.go), the tickers, signal handling and goroutines
  (main.go:90-152, gui.go:823-849): these are timing and concurrency. A tick is one call of
  `CheckRunningApps`. The UI callbacks write `resMonitor.config` while the ticker
  goroutine reads it, and that data race is not modelled.
- A failure to create the configuration watcher in `NewResolutionMonitor` (main.go:71-74)
  is not modelled. The watcher is not part of this model.
- Win32 marshalling (`DEVMODE`, `DISPLAY_DEVICE`), Toolhelp32 and WMI: all of them are
  abstract inputs of `DisplayManager` and `Snapshot`. A UTF-16 conversion failure is
  modelled as a NUL character in the name.
- Display.DisplayManager.SetResolution: puts width, height and frequency in force, while
  the real call asks for less. The `Fields` mask at display.go:286 is `0x00180000`, which
  is DM_PELSWIDTH | DM_PELSHEIGHT only. DM_DISPLAYFREQUENCY (`0x00400000`) is missing,
  although the comment beside it names it. So the real call never requests the frequency,
  and the model does not capture which refresh rate Windows then picks.
- JSON encoding and decoding: `encode` and `decode` are function parameters.
- Logging. `strings.ToLower` is modelled as ASCII lower-casing.
- Process.MonitorProcesses: one snapshot is taken per scan instead of one per rule, so a
  process that starts or stops between two rules' checks is not modelled.
- Gui.UpdateResolutionOptions: the selection is stated through `FormatResolution`, which is
  injective, instead of a lookup of the option text in the resolution map.
- Gui.GuiApp.DeleteApplication, Gui.GuiApp.SaveApplication: the reload that follows a save
  is the separate `ReloadConfig`, not part of these methods.
- createDefaultConfig's call from `loadConfig` when the file is missing (gui.go:272-278) is
  not modelled. It is `CreateDefaultConfig` on its own.
