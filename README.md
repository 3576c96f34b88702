# gmmk_sleep — a Dafny model of the keyboard-lighting service and its device picker

gmmk_sleep is a small Windows tray service for a GMMK keyboard. It polls the host's
input-idle timer against the display power-down timeout. Whenever the host switches
between *active* and *idle*, it sends one 256-byte HID feature report that switches the
keyboard's lighting mode. If a send fails, it marks the keyboard disconnected, counts
the failures, probes for a reconnection, and backs off after more than ten failures.
A settings window lists the attached keyboards. It lets the user pick one and writes
that keyboard's vendor and product identifiers, as hexadecimal text, to the
configuration that the service reads at start-up.

This project models that logic and proves its properties. Windows, hidapi, Tk and the
threads are replaced by inputs.

| file | module | models |
|---|---|---|
| `wrappers.dfy` | `Wrappers` | `Option` and `Result` |
| `hex.dfy` | `Hex` | `0x{:04X}` formatting and `int(s, 16)` parsing, with their round trip |
| `report.dfy` | `Report` | the 256-byte feature report |
| `activity.dfy` | `Activity` | `is_system_active` |
| `display_timeout.dfy` | `DisplayTimeout` | `get_display_timeout` and the powercfg text extractor |
| `hid.dfy` | `Hid` | enumerated device records and `hid.enumerate(vid, pid)` filtering |
| `device_locator.dfy` | `DeviceLocator` | `find_device_path` and `send_report` |
| `polling.dfy` | `Polling` | `main_loop`: one step as a function, the loop as a method |
| `identity.dfy` | `Identity` | `load_ids` |
| `device_picker.dfy` | `DevicePicker` | the settings window's list, highlight, save and load logic |

The polling loop's variables (`last_state`, `device_connected`, `reconnect_attempts`)
are locals of `main_loop`. The model therefore states the loop as the method
`Polling.MainLoop`, which has a `while` loop. The method is proved equal to the
functional specification `Run`/`Trace`, built from `Step`. Properties of runs are
lemmas about `Run` and `Trace`.

The settings window mutates its own fields. It is modelled as the class
`DevicePicker.SettingsWindow`.

Two places where the code does not do what its own comments and messages say:
- An exception in the power-API path is meant to fall back to `powercfg` ("attempting powercfg
  fallback"). The fallback is never reached. See the first finding below.
- The tick count is read as unsigned 32-bit "to handle values > 2^31". The difference
  is still not wrap-around-correct. See the second finding below.

How often a disconnected keyboard is probed follows from the code: a failed probe does
not change the failure count. So while the activity state stays unchanged, a probe goes
out in every iteration when the count is a multiple of five, and never otherwise.
`Polling.DueProbeRepeatsEveryIteration` and `Polling.UnchangedOffCycleNeverProbes`
state this.

## Model

| member | source | states |
|---|---|---|
| `Report.BuildReport` | main.py:212-213 | the report is exactly 256 bytes: 0x07, 0x01, then 0x01 (active) or 0x02 (idle), then 0x01, then 252 zeros |
| `Report.DecodeBuild` | main.py:237-238 | a built report decodes back to the activity state it was built for |
| `Report.DecodeOnlyBuilt` | main.py:212-213 | the only byte strings that decode are the two built reports, so the format is unambiguous |
| `Activity.IsSystemActive` | main.py:151-157 | the idle time is the plain integer difference of the two 32-bit tick values; a negative difference classifies as active, and without a rollover the result is `idle < timeout` |
| `Activity.IdleTime` | main.py:148-153 | unsigned 32-bit subtraction: below 2^32, and equal to the plain difference when there was no rollover |
| `Activity.IsSystemActiveWrapped` | main.py:153-157 | the wrap-around classifier agrees with the one as written whenever the counter did not roll over |
| `Activity.WrappedIdleIsElapsed` | main.py:148-157 | with wrap-around subtraction, the idle time equals the real elapsed time across a rollover, so the classification is `elapsed < timeout` |
| `Activity.RolloverMisclassified` | main.py:153-157 | as written, 965536 ms after an input at tick 0xFFFF0000 with the 900000 ms timeout, the host is still called active |
| `DisplayTimeout.GetDisplayTimeout` | main.py:85-132 | a read value of s seconds gives s·1000 ms; no value gives exactly 900000 ms; an exception in the primary path ends in NameError, because the handler formats the unbound `e` |
| `DisplayTimeout.GetDisplayTimeoutWithFallback` | main.py:107-132 | with the handler fixed, the result is always a whole number of seconds in ms: the primary value, else powercfg's value for the current power line, else 900000 |
| `DisplayTimeout.FallbackAgreesWhenNoException` | main.py:88-106 | the fixed resolver returns what the one as written returns whenever the latter does not raise |
| `DisplayTimeout.FallbackUnreachable` | main.py:107-122 | a primary-path exception is fatal as written, although powercfg output `AC Setting Index: 0x258` on mains would give 600000 ms |
| `DisplayTimeout.HexRunEnd` | main.py:119 | the greedy `[0-9a-fA-F]+` stops at the first character that is not a hex digit |
| `DisplayTimeout.MatchPositions` | main.py:119 | the match positions are pattern matches, in increasing order, each starting at or after the end of the previous match |
| `DisplayTimeout.MatchPositionsCover` | main.py:119 | no match is skipped: every position where the pattern could start lies inside one of the reported matches |
| `DisplayTimeout.NoMatchNoPositions` | main.py:119 | no match is reported exactly when the pattern occurs at no position |
| `DisplayTimeout.FindSettingIndices` | main.py:119 | the pairs `re.findall` returns are, in order, the branch ("AC" or "DC") and the "0x" literal with its greedy hex run, one for each position of `MatchPositions`; none is found exactly when the pattern occurs nowhere |
| `DisplayTimeout.MatchesToDict` | main.py:119 | `dict(pairs)` is empty exactly when there are no pairs, and the last pair's key maps to the last pair's value |
| `DisplayTimeout.DictHasKey` | main.py:119-120 | `dict(matches)` has a key exactly when some match has it |
| `DisplayTimeout.DictValuesFrom` | main.py:119-120 | every value in `dict(matches)` comes from one of the matches |
| `DisplayTimeout.DictKeepsLast` | main.py:119-120 | the value kept for a key is that of the last match with that key |
| `DisplayTimeout.PowercfgTimeout` | main.py:115-122 | a timeout is extracted exactly when the "AC" key (on mains) or the "DC" key (on battery) is present |
| `DisplayTimeout.PowercfgLastLineWins` | main.py:119-122 | the extracted timeout is the hex value of the last matching line for the current power line |
| `DisplayTimeout.PowercfgLastMatch` | main.py:119-122 | the extracted timeout is the hex number of the last match in the text whose branch is that of the current power line |
| `DisplayTimeout.PowercfgNoLine` | main.py:119-121 | with no matching line for the current power line, no timeout is extracted |
| `DisplayTimeout.SampleMatches` | main.py:119 | the line `AC Setting Index: 0x258` holds exactly one match, at its start, with the hex run "258" |
| `DisplayTimeout.SampleOutputTimeout` | main.py:119-122 | the line `AC Setting Index: 0x258` on mains gives 600 seconds |
| `Hid.Enumerate` | main.py:161 | `hid.enumerate(vid, pid)` keeps exactly the devices matching the identifiers (0 matches any) |
| `Hid.EnumerateAppend` | main.py:161-167 | enumeration keeps the host's order: a device appended to the host's list is appended to the result exactly when it matches the identifiers |
| `DeviceLocator.FirstSelectable` | main.py:162-167 | the scan returns the first index matching the filter, or none when no device matches |
| `DeviceLocator.FindDevicePath` | main.py:160-168 | returns the path of the first device with interface 2 and usage page 0xFF01, and None exactly when there is none |
| `DeviceLocator.Truthy` | main.py:173-181 | `not device_path` holds for None and for the empty path; a non-empty path counts as found |
| `DeviceLocator.SelectPath` | main.py:171-183 | an exact match with a non-empty path is used; otherwise the first interface-2 device of the second enumeration; otherwise no path; an empty path counts as missing |
| `DeviceLocator.SendReport` | main.py:171-194 | the send fails without device I/O when no path is found, and succeeds exactly when a path is found and the write succeeds |
| `DeviceLocator.LocateStable` | main.py:160-183 | over one enumeration: the first exact match, else the first interface-2 device, else nothing |
| `DeviceLocator.UnknownIdentityNotFound` | main.py:161-183 | when no device carries the configured identity, the send fails with no device found, whatever the I/O would do |
| `Polling.InitialState` | main.py:199-201 | the loop starts from the first sample, connected, with no failures, which satisfies the invariant |
| `Polling.Step` | main.py:207-244 | a sent report is the report for the current state; the extra wait only follows a failed send after a change; the committed state changes only on a successful send; the failure count grows only in the change branch, by one |
| `Polling.Run` | main.py:206-246 | the state after a run of iterations; the failure count grows by at most one per iteration |
| `Polling.Trace` | main.py:206-246 | one output per iteration, and every report sent in iteration k is the report for that iteration's activity state |
| `Polling.MainLoop` | main.py:197-247 | the loop's variables and per-iteration effects are exactly those of `Run`/`Trace`, and the final state satisfies `connected <==> attempts == 0` |
| `Polling.StepPreservesInvariant` | main.py:215-244 | every iteration preserves `device_connected <==> reconnect_attempts == 0` |
| `Polling.ConnectivityFollowsSends` | main.py:216-243 | `device_connected` becomes false only after a failed send and true only after a successful one |
| `Polling.ChangeBranch` | main.py:210-229 | on a change: success commits the state, connected, 0 attempts; failure keeps the state, disconnected, attempts + 1; the extra wait happens exactly when the send failed and attempts + 1 > 10 |
| `Polling.NoChangeBranch` | main.py:230-244 | without a change: a probe exactly when disconnected and attempts % 5 == 0; never an extra wait; a failed probe changes nothing; a successful one reconnects |
| `Polling.RunPreservesInvariant` | main.py:200-246 | the invariant holds after any number of iterations |
| `Polling.TraceAt` | main.py:206-246 | iteration k's effects are those of one step from the state after k iterations |
| `Polling.SteadyConnectedIsQuiet` | main.py:230-234 | connected, with samples all equal to the committed state: no transmissions and no state change |
| `Polling.UnchangedOffCycleNeverProbes` | main.py:225-234 | disconnected with attempts % 5 != 0 and the state unchanged: never a probe, and the state stays stuck |
| `Polling.DueProbeRepeatsEveryIteration` | main.py:234-244 | disconnected with attempts % 5 == 0, the state unchanged and probes failing: a probe in every iteration, with no state change |
| `Polling.ConsecutiveFailures` | main.py:221-229 | n failed changes leave the state, disconnect, add n attempts; iteration k waits extra exactly when the count it reaches exceeds 10 |
| `Polling.ElevenFailuresOneExtraWait` | main.py:225-229 | starting connected, 11 consecutive failures give exactly one extra wait, in the 11th iteration |
| `Polling.ActivityScenario` | main.py:206-220 | active, active, idle, idle, active with all sends succeeding sends exactly two reports, in iterations 2 and 4 |
| `Identity.ReadId` | main.py:52-53 | a missing key is a KeyError for that key; text `int(s, 16)` rejects is a ValueError for that key; otherwise the value is the text's hex value |
| `Identity.LoadIds` | main.py:48-54 | start-up succeeds exactly when both identifiers parse, and returns them; a vendor error is reported first, and otherwise the product identifier's own error |
| `Identity.LoadSampleConfig` | main.py:52-53 | `{"VENDOR_ID": "0x046D", "PRODUCT_ID": "0xC52B"}` loads exactly 0x046D and 0xC52B |
| `Hex.DigitValue` | settings_gui.py:186-187 | a hexadecimal digit of either case has a value below 16 |
| `Hex.DigitValueIgnoresCase` | settings_gui.py:186-187 | a lower-case digit 'a' to 'f' has the same value as its upper-case counterpart, as in `int(s, 16)` and `[0-9a-fA-F]` |
| `Hex.UpperDigit` | settings_gui.py:245-246 | the upper-case digit printed for a value reads back as that value |
| `Hex.ToHexDigits` | settings_gui.py:245-246 | `X` formatting gives at least one upper-case hexadecimal digit, with no leading zero unless the value is 0 |
| `Hex.HexValueOfDigits` | settings_gui.py:245-246 | the digits printed for n read back as n |
| `Hex.FormatHex` | settings_gui.py:244-247 | `0x{:04X}` is "0x" followed by max(4, digit count) upper-case hexadecimal digits |
| `Hex.ParseHex` | settings_gui.py:186-187 | `int(s, 16)` succeeds exactly when, after an optional 0x/0X prefix, one or more hexadecimal digits remain |
| `Hex.StripPrefix` | settings_gui.py:186-187 | the 0x/0X prefix is removed, or the text is left as it is |
| `Hex.LeadingZerosIgnored` | settings_gui.py:244-247 | zero padding does not change the value read back |
| `Hex.ParsedValue` | settings_gui.py:186-187 | hexadecimal digits, bare or after a "0x" or "0X" prefix, read as the value of those digits |
| `Hex.PrefixedValue` | settings_gui.py:186-187 | "0x" followed by hexadecimal digits reads as the value of those digits |
| `Hex.LowerCaseSample` | settings_gui.py:186-187 | "0x046d", "0x046D", "0X046D" and the bare "046D" all read as 0x046D |
| `Hex.FormatParseRoundTrip` | settings_gui.py:244-247 | parsing what `0x{:04X}` writes gives back the original identifier |
| `Hex.FormatHexInjective` | settings_gui.py:244-247 | distinct identifiers are written as distinct strings |
| `Hex.SixteenBitWidth` | settings_gui.py:245-246 | a 16-bit identifier is always written with exactly four digits |
| `DevicePicker.ContainsFrom` | settings_gui.py:147 | `pattern in text` holds exactly when the pattern occurs at some position |
| `DevicePicker.Lower` | settings_gui.py:147 | `product.lower()`: same length, no upper-case letter left, and only upper-case letters changed, each to its lower-case letter |
| `DevicePicker.IsKeyboard` | settings_gui.py:144-151 | a device is kept exactly when it has usage page 0x01 and usage 0x06, or usage page 0xFF01 and "keyboard" occurs in its lower-cased product name |
| `DevicePicker.FirstIndices` | settings_gui.py:153-165 | the listed positions are exactly the first keyboards of each (vendor, product), in increasing (enumeration) order |
| `DevicePicker.KeyboardList` | settings_gui.py:133-165 | every listed device is a keyboard taken from the enumeration |
| `DevicePicker.ListStep` | settings_gui.py:150-165 | one more entry extends the list by itself exactly when it is the first keyboard with its identity |
| `DevicePicker.SeenStep` | settings_gui.py:153-159 | an entry is appended exactly when it is a keyboard whose identity is not in `seen_devices`, which then gains it |
| `DevicePicker.KeyboardListNoDuplicates` | settings_gui.py:153-159 | no two listed devices share a (vendor, product) |
| `DevicePicker.EarliestSameKey` | settings_gui.py:153-165 | the earliest keyboard with a given identity is a listed entry |
| `DevicePicker.KeyboardListCovers` | settings_gui.py:133-165 | every enumerated keyboard's (vendor, product) is represented in the list |
| `DevicePicker.DisplayRows` | settings_gui.py:161-165 | one list-box row per listed device, in the order of the list |
| `DevicePicker.DisplayRowColumns` | settings_gui.py:162 | with 16-bit identifiers a row starts "VID: ", then the vendor as `0x{:04X}`, " \| PID: ", then the product as `0x{:04X}` |
| `DevicePicker.DisplayRowIdentifies` | settings_gui.py:162 | two devices with 16-bit identifiers and equal rows have the same (vendor, product) |
| `DevicePicker.ListedRowsDistinct` | settings_gui.py:153-165 | with 16-bit identifiers, no two rows of the list are equal |
| `DevicePicker.IsConfigured` | settings_gui.py:198-205 | an unset identifier matches no device; otherwise a device matches exactly when its (vendor, product) is the configured pair |
| `DevicePicker.FindConfiguredDevice` | settings_gui.py:196-210 | finds the smallest index matching the configured vendor and product; none when an identifier is unset or nothing matches |
| `DevicePicker.SaveSettings` | settings_gui.py:212-260 | no selection, or a selected row at or past the device count, is rejected without a write; for a valid selection, declining cancels, and a confirmed save is written exactly when the write succeeds; a save writes exactly VENDOR_ID and PRODUCT_ID as `0x{:04X}` of the selected device |
| `DevicePicker.PlaceholderNotSaved` | settings_gui.py:167-168 | with no keyboard listed, selecting the placeholder row cannot save |
| `DevicePicker.ReadSettingId` | settings_gui.py:182-187 | a missing identifier defaults to "0x0000", that is 0; a present one is parsed with `int(s, 16)` |
| `DevicePicker.DefaultIdIsZero` | settings_gui.py:182-183 | the default "0x0000" reads as 0 |
| `DevicePicker.SaveThenLoad` | settings_gui.py:244-247 | the window and the service both read a saved file back as the selected device's identity |
| `DevicePicker.SettingsWindow.constructor` | settings_gui.py:38-45 | the identifiers start unset and take the values read from the settings, the product one only when the vendor one parsed; the list is `KeyboardList` of the enumeration, with its rows or the placeholder row, and the configured device is selected; a failed enumeration leaves list, rows and selection empty |
| `DevicePicker.SettingsWindow.LoadCurrentSettings` | settings_gui.py:176-194 | the vendor identifier is stored before the product identifier is parsed; an unreadable file changes nothing |
| `DevicePicker.SettingsWindow.HighlightCurrentDevice` | settings_gui.py:196-210 | selects the first row of the configured device, and otherwise leaves the selection as it was |
| `DevicePicker.SettingsWindow.LoadDevices` | settings_gui.py:124-174 | lists `KeyboardList` of the enumeration with one row each; an empty list shows only the placeholder row; a failed enumeration leaves everything empty |

## Left out

- Windows power and input APIs (`GetSystemPowerStatus`, `PowerGetActiveScheme`, `PowerRead*ValueIndex`, `LocalFree`, `GetTickCount`, `GetLastInputInfo`) are foreign calls. Their results are inputs: the primary path's outcome, the power-line flag, and the tick values.
- The `powercfg` subprocess is external. Its standard output is an input string, or None when it could not be run.
- hidapi is external. Enumerations are input sequences of device records, and opening the device and writing the report is an oracle boolean. `send_report` receives only the two enumerations (the report contents do not affect where it is sent). The polling loop receives the send result directly, as `Sample.sendOk`.
- JSON and file I/O are left out. `load_ids` and the window get the decoded object as a string map. Reading JSON values that are not strings is not modelled.
- Threads, the stop event, the tray icon and the settings thread are left out. The end of the sample sequence stands for the stop event.
- `time.sleep(2)` is left out. `time.sleep(5)` is the output flag `extraWait`.
- The start of `main_loop` is not part of `Polling.MainLoop`. `Polling.MainLoop` takes the first sample as a boolean. The `get_display_timeout` call (modelled on its own) and the discarded `find_device_path` call are left out of it.
- Tk widgets, message boxes, the confirmation dialog and the row background colour are left out. The confirmation answer is an input. The list box is reduced to its rows and its selection.
- The window geometry computation is left out because it uses floating point.
- `print` logging is left out.
- `DevicePicker.Lower` lower-cases ASCII letters only and keeps the length. Python's Unicode `str.lower()` changes other letters too and can lengthen a string ('İ' becomes two characters); that is not modelled.
- `DevicePicker.IsKeyboard` lower-cases ASCII letters only. Python's Unicode `str.lower()` on other characters is not modelled. A product string that hidapi reports as None is not modelled either.
- `Hex.ParseHex` does not model the surrounding whitespace, sign or underscores that Python's `int(s, 16)` also accepts.

## Findings

| source | as written | input that shows it | evidently intended | confidence | as-written member | corrected member |
|---|---|---|---|---|---|---|
| main.py:107-108 | the `except Exception:` handler formats the unbound name `e`, so it raises NameError before the powercfg fallback | the primary power-API path raises any exception | fall back to powercfg, then to the 15-minute default, never raising | high, not executed | `DisplayTimeout.FallbackUnreachable` | `DisplayTimeout.GetDisplayTimeoutWithFallback` |
| main.py:148-153 | `idle_time = current_tick - last_input.dwTime` on two unsigned 32-bit values, without reduction modulo 2^32 | last input at tick 0xFFFF0000, current tick 900000, timeout 900000 ms: the host is classified active after 965536 ms idle | the idle time computed modulo 2^32, correct across a rollover | medium, not executed | `Activity.RolloverMisclassified` | `Activity.WrappedIdleIsElapsed` |
