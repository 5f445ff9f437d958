# wifi-tui, modelled in Dafny

wifi-tui is a terminal program for managing Wi-Fi through NetworkManager. It
has two views: the networks in range and the saved connection profiles. From
them the user can connect, disconnect and forget networks. A background
worker runs `nmcli` (and `iw`) and reports back to the UI thread. The UI thread
keeps one `App` state: a reducer over key presses, 250 ms ticks and task
results.

This project models three parts of the program:

- **The nmcli adapter.** The terse-output line parser; the error classifier
  and its password rule; and how the output of each command is turned into a
  device name, a ranked network list, a profile list, a connection status or
  a success message.
- **The App reducer.** It is written twice:
  - `AppModel`: pure transition functions over a `State` value;
  - `AppObject.App`: a class whose methods update its fields in place, each
    proved to follow the matching function.
- **The pure helpers of the UI.** Column padding, security label, signal bars
  and colour, busy text, modal geometry, password mask and message colour.

Modules:

- `Wrappers`: Option and Result.
- `Text`: substring search, trimming, whitespace splitting, `u8` parsing and
  UTF-8 width.
- `Terse`: `parse_terse_line`, with a reference definition and its inverse.
- `Messages`: the fixed texts of the error classifier.
- `Nmcli`: the adapter.
- `Events`: tasks and their results.
- `AppModel` and `AppObject`: the reducer, as functions and as a class.
- `Ui`: the UI helpers.

Sending a task is modelled as appending it to the object's `outbox`. Running a
command is a parameter: an `Outcome` that either holds the exit status, the
stdout lines and stderr, or says the command could not be started.

## Model

| member | source | states |
|---|---|---|
| Terse.ParseTerseLine | src/nmcli.rs:285-310 | The character loop yields exactly `Fields(line)`. `\:` puts a literal colon in the current field. A bare `:` closes the field. Any other character, a lone backslash included, is kept. The last field is always pushed, so an empty line gives one empty field. |
| Terse.FieldCount | src/nmcli.rs:285-310 | The number of fields is one more than the number of separating colons, i.e. colons not escaped by a backslash. |
| Terse.FieldsOfJoin | src/nmcli.rs:285-310 | Round trip: escape each field's colons, join with `:`, parse, and the fields come back. This needs at least one field, and every field but the last must not end in a backslash. |
| Terse.BasicExample | src/nmcli.rs:341-344 | `*:MyWifi:85:WPA2` parses to the four fields the source's test expects. |
| Terse.EscapedColonExample | src/nmcli.rs:347-350 | `*:My\:Wifi:85:WPA2` parses to `*`, `My:Wifi`, `85`, `WPA2`: the escaped colon stays inside the SSID. |
| Terse.EmptyFieldExample | src/nmcli.rs:353-356 | `*::85:WPA2` parses to `*`, `""`, `85`, `WPA2`: the empty field is kept, not dropped. |
| Nmcli.FriendlyError | src/nmcli.rs:329-330 | An empty diagnostic becomes "An unknown error occurred.". |
| Nmcli.FirstMatch | src/nmcli.rs:313-334 | Gives the first rule from `from` onwards whose condition holds of the message. No earlier rule holds, and `None` means that no rule holds. |
| Nmcli.FriendlyErrorIsFirstMatch | src/nmcli.rs:313-334 | The if-chain is exactly first-match over the ordered table of the eight rules. The rules are tried in order, and unmatched non-empty text passes through unchanged. |
| Nmcli.PasswordTextsNeedPassword | src/nmcli.rs:280-282 | Both "Password required…" and "Incorrect password…" trigger the password prompt. |
| Nmcli.FixedTextsNeedingPassword | src/nmcli.rs:280-334 | Of the eight friendly texts, exactly the two password texts make `error_needs_password` true. |
| Nmcli.NeedsPasswordAfterClassification | src/nmcli.rs:280-334 | After classification, a password is asked for iff one of these holds: the first matching rule is "secrets were required" or "passwords or encryption keys are required"; or no rule matches and the raw text itself contains one of the two phrases. |
| Nmcli.EmptyErrorNeedsNoPassword | src/nmcli.rs:329-330 | An empty diagnostic gives the unknown-error text and never a password prompt. |
| Nmcli.DetectWifiDevice | src/nmcli.rs:27-41 | A command that fails to start gives the classified I/O error. Otherwise the result is the device of the first row whose type is `wifi`, and it is `Ok` iff such a row exists. With none, the result is the no-adapter text. The exit status is ignored. |
| Nmcli.ScanRow | src/nmcli.rs:66-85 | A row is kept iff it has at least four fields and a non-empty SSID. The signal is the `u8` parse of field 2, with 0 when it does not parse. The row is in use iff field 0 trims to `*`. |
| Nmcli.ScanRowsSound | src/nmcli.rs:65-85 | Every kept row comes from some line of the listing. |
| Nmcli.ScanRowsComplete | src/nmcli.rs:65-85 | Every line that yields a row contributes that row. |
| Nmcli.Dedup | src/nmcli.rs:87-94 | Every entry of the `best` map is stored under its own SSID. |
| Nmcli.DedupDomain | src/nmcli.rs:87-94 | The keys of `best` are exactly the SSIDs of the rows, and every survivor is one of the rows. |
| Nmcli.DedupLastInUseWins | src/nmcli.rs:87-94 | A row that is in use survives unless a later row for the same SSID is also in use. |
| Nmcli.DedupStrongestWins | src/nmcli.rs:87-94 | When no row for an SSID is in use, the survivor has the maximum signal, and it is the first row that reaches it. |
| Nmcli.TwoRowsForOneSsid | src/nmcli.rs:87-94 | For two rows of one SSID, spells out the winner for every combination of in-use flags and signals. |
| Nmcli.RankSortedMeaning | src/nmcli.rs:97-103 | In a list sorted by the comparator, in-use networks come first. Among networks with the same in-use flag, signals never increase. |
| Nmcli.InsertRanked | src/nmcli.rs:97-103 | Inserting into a ranked list keeps it ranked, and the result is the old list with the new network inserted at one position. |
| Nmcli.RankNetworks | src/nmcli.rs:97-103 | The values of `best` are collected and sorted. Every value appears exactly once, no SSID appears twice, and the list is sorted for the comparator. |
| Nmcli.ScanNetworks | src/nmcli.rs:44-106 | A command that could not start gives the classified I/O error, and a failed one gives the classified, trimmed stderr. On success the result is the de-duplicated rows of the output, each once and in rank order. |
| Nmcli.SavedRow | src/nmcli.rs:202-209 | A row is kept iff it has at least three fields and its type contains "wireless". It is active iff field 2 is `yes`. |
| Nmcli.SavedRowsSound | src/nmcli.rs:202-210 | Every listed profile comes from a wireless line. |
| Nmcli.SavedRowsComplete | src/nmcli.rs:202-210 | Every wireless line is listed. |
| Nmcli.SavedNetworks | src/nmcli.rs:182-213 | The same two error cases as for scanning. On success the result holds the wireless profiles in line order. |
| Nmcli.BeforeSlash | src/nmcli.rs:148 | The address is the prefix before the first `/` and contains no `/`. |
| Nmcli.BitrateWords | src/nmcli.rs:160-171 | The speed text consists of exactly the first two words after `tx bitrate:`. |
| Nmcli.FindCurrentRow | src/nmcli.rs:126-134 | The SSID is found iff some row is the current (in-use) row. The SSID and signal both come from the first such row. |
| Nmcli.FindAddress | src/nmcli.rs:144-152 | The address is found iff some row starts with `IP4.ADDRESS`. It is the first such row's value, cut before the `/`. |
| Nmcli.FindBitrate | src/nmcli.rs:160-174 | The speed is found iff some line, trimmed, starts with `tx bitrate:`. It is taken from the first such line. |
| Nmcli.GetStatus | src/nmcli.rs:109-179 | No SSID means the all-empty status. Otherwise SSID and signal come from the first current row, and the address and speed come from the first matching lines of the other two commands. The address and speed are only looked for once an SSID is known. A command that cannot start contributes nothing. |
| Nmcli.ConnectArgsThreeWay | src/nmcli.rs:217-239 | A non-empty password gives exactly `device wifi connect <ssid> password <pw>`. An empty one gives exactly `device wifi connect <ssid>`. None gives exactly `connection up <ssid>`. |
| Nmcli.CommandResult | src/nmcli.rs:241-246 | The result is `Ok` iff the command started and exited successfully, and then it holds the fixed success text. Otherwise it is the classified I/O error or the classified, trimmed stderr. |
| Text.ParseDecimal | src/nmcli.rs:76 | The `u8` parser reads back every decimal number from 0 to 255. |
| Text.Utf8LenVsChars | src/ui.rs:369 | A string's UTF-8 length is at least its character count, with equality iff the string is ASCII. |
| AppModel.Initial | src/app.rs:58-85 | The initial state satisfies the invariant: the spinner is in range and every selection is inside its list. |
| AppModel.KeyKeepsInv | src/app.rs:88-122 | Every key press keeps the invariant. |
| AppModel.AvailableKeyKeepsInv | src/app.rs:124-160 | Keys in the available view keep the invariant; navigation never leaves the list. |
| AppModel.SavedKeyKeepsInv | src/app.rs:162-204 | Keys in the saved view keep the invariant. |
| AppModel.ModalKeyKeepsInv | src/app.rs:206-259 | Keys in any modal keep the invariant. |
| AppModel.TickKeepsInv | src/app.rs:262-269 | Ticks keep the spinner frame below four and the invariant. |
| AppModel.ClampIndexInside | src/app.rs:287-289 | A replaced list keeps its selection inside it when non-empty, and a selection that still fits is not moved. |
| AppModel.ResultKeepsInv | src/app.rs:281-345 | Every task result keeps the invariant. |
| AppModel.CtrlCAlwaysQuits | src/app.rs:89-93 | Ctrl+C stops the program whatever is on screen and changes nothing else. |
| AppModel.ModalCapturesKeys | src/app.rs:95-99 | While a modal is open, `q`, Tab, `r` and the arrows do not quit, switch view, move a selection or change a list. They never start a refresh: the worker is never set to scanning, and at most one connect, disconnect or forget task is sent. |
| AppModel.AnyKeyDismissesMessage | src/app.rs:254-257 | Any key closes a message box and nothing else happens. |
| AppModel.ConfirmDisconnectAnswers | src/app.rs:231-240 | `y`/`Y` sends exactly one disconnect for the device and marks the worker as disconnecting. Any other key only closes the dialog. |
| AppModel.ConfirmForgetAnswers | src/app.rs:241-253 | `y`/`Y` sends exactly one forget for the named profile. Any other key only closes the dialog. |
| AppModel.PasswordKeys | src/app.rs:208-230 | In the prompt, printable keys (even `q`) are typed, Backspace deletes the last character (nothing on an empty password), Tab toggles visibility, and Esc closes the prompt and clears the password. Each key changes only those fields. |
| AppModel.BackspaceUndoesTyping | src/app.rs:220-228 | Backspace is the inverse of typing any one character: the whole state comes back. |
| AppModel.TypingAppends | src/app.rs:226-228 | Typing a text appends it to the password and changes nothing else. |
| AppModel.TypedPasswordIsSent | src/app.rs:213-219 | Typing a password into an empty prompt and pressing Enter closes the prompt and sends one connect with exactly that password for the target SSID. |
| AppModel.BusyIgnoresActions | src/app.rs:112-116 | With the worker busy and no modal open, Enter, `r`, `d` and `f` change nothing. |
| AppModel.BusySendsNothing | src/app.rs:88-204 | With the worker busy and no modal open, no key sends a task or changes the worker state. |
| AppModel.EnterOnAvailable | src/app.rs:136-152 | With or without Control held: on an in-use network, Enter only shows "Already connected…". Otherwise it sends one connect with an empty password and marks the worker as connecting. |
| AppModel.EnterOnSaved | src/app.rs:174-187 | Enter, with or without Control held, on a saved profile reconnects it by name, with no password (or shows "Already connected…" if it is active). |
| AppModel.DisconnectNeedsConnection | src/app.rs:153-157 | `d` opens the disconnect dialog iff the worker is idle and an SSID is connected. |
| AppModel.TabTwiceIsIdentity | src/app.rs:106-111 | Tab and BackTab switch the view, and doing so twice restores the state. |
| AppModel.FirstTickRefreshes | src/app.rs:82 | The first tick after start-up starts a refresh at once. |
| AppModel.TickSpec | src/app.rs:262-269 | A tick advances the spinner and the counter. It starts a refresh exactly when the counter reaches 120 while idle. |
| AppModel.QuietUntilDue | src/app.rs:262-269 | While idle and below the threshold, ticks send nothing and only count. |
| AppModel.RefreshEvery120Ticks | src/app.rs:55 | Left idle after a refresh, the next one comes exactly 120 ticks (30 s) later. |
| AppModel.CompletionsReturnToIdle | src/app.rs:285-330 | Every completion returns the worker to idle. Each shows a message, except a successful scan and a failed connect. |
| AppModel.RefreshesKeepActivity | src/app.rs:331-343 | Status and saved-list updates never change the worker state, the view or the modal. |
| AppModel.SavedErrorIgnored | src/app.rs:341-343 | A failed saved-list refresh leaves the state unchanged. |
| AppModel.SuccessRefreshesOnNextTick | src/app.rs:296-300 | A successful connect, disconnect or forget shows its text, and the very next tick starts a refresh. |
| AppModel.ConnectErrorPrompts | src/app.rs:301-312 | A failed connect opens a fresh, hidden prompt for that SSID exactly when the error asks for a password. Otherwise the error is shown. |
| AppModel.MissingSecretsPrompt | src/app.rs:301-312 | nmcli's "secrets were required" leads, through the friendly text, to the password prompt. |
| AppModel.WrongPasswordPrompt | src/app.rs:301-312 | nmcli's "passwords or encryption keys are required" reopens the prompt. |
| AppModel.ScanResultSelection | src/app.rs:285-291 | A scan result replaces the list and returns to idle. The selection stays if it fits and otherwise moves to the last row. |
| AppModel.RefreshThenDisconnect | src/app.rs:231-236 | Tasks may overlap: a disconnect confirmed while a tick-driven scan runs is sent anyway and overrides the busy status. |
| AppObject.App.constructor | src/app.rs:58-85 | The new object holds the initial state. |
| AppObject.App.SendTask | src/event.rs:120-122 | The task joins the end of the outbox and nothing else changes. |
| AppObject.App.HandleKey | src/app.rs:88-122 | The fields become `OnKey` of the old fields, and the invariant is kept. |
| AppObject.App.HandleAvailableKey | src/app.rs:124-160 | The fields become `OnAvailableKey` of the old fields, and the invariant is kept. |
| AppObject.App.HandleSavedKey | src/app.rs:162-204 | The fields become `OnSavedKey` of the old fields, and the invariant is kept. |
| AppObject.App.HandleModalKey | src/app.rs:206-259 | The fields become `OnModalKey` of the old fields, and the invariant is kept. |
| AppObject.App.HandlePasswordKey | src/app.rs:208-230 | The password arm updates the fields as `OnModalKey` for the prompt does. |
| AppObject.App.HandleTick | src/app.rs:262-269 | The fields become `OnTick` of the old fields, and the invariant is kept. |
| AppObject.App.StartScan | src/app.rs:272-278 | The worker is busy scanning, the counter is reset, and scan, status and saved tasks are sent in that order. |
| AppObject.App.HandleTaskResult | src/app.rs:281-345 | The fields become `OnTaskResult` of the old fields, and the invariant is kept. |
| AppObject.App.ShowOutcome | src/app.rs:292-330 | The worker is idle and the text is in a message box. After a success the counter is set so that the next tick refreshes. |
| AppObject.App.HandleConnectError | src/app.rs:301-312 | The failed-connect arm updates the fields as `OnTaskResult` does. |
| Ui.PadRight | src/ui.rs:478 | Keeps the string as a prefix and fills it with spaces up to the width. |
| Ui.TruncatePad | src/ui.rs:475-483 | The result is always exactly `maxLen` characters. A fitting string is kept and padded with spaces. A longer one keeps its first `maxLen - 1` characters followed by `…`. |
| Ui.TruncatePadIdempotent | src/ui.rs:475-483 | Fitting a column twice is the same as once. |
| Ui.TruncatePadOnlyPads | src/ui.rs:475-479 | A fitting string with no trailing whitespace comes back when the padding is trimmed. |
| Ui.SimplifySecurity | src/ui.rs:486-496 | A string containing both WPA3 and WPA2 becomes `WPA3`. Otherwise one containing `802.1X` becomes `Enterprise`. Any other string is unchanged. The label never names both WPA3 and WPA2, and a non-empty one stays non-empty. |
| Ui.SimplifySecurityIdempotent | src/ui.rs:486-496 | Simplifying twice is the same as once. |
| Ui.SecurityLabel | src/ui.rs:167-173 | An empty or `--` security is shown as `Open`. Otherwise the simplified string is shown, and it is never empty. |
| Ui.SignalBars | src/ui.rs:498-506 | Always four cells. Cell i is the i-th bar glyph when fewer than `BarCount` bars precede it, and a space otherwise. `BarCount` is `min(signal/20, 4)` up to 100 and 0 above. |
| Ui.BarsMonotone | src/ui.rs:498-506 | Up to 100, a stronger signal never shows fewer bars. |
| Ui.SignalColor | src/ui.rs:508-514 | Green exactly for 80–100, yellow exactly for 50–79, red for everything else (including values above 100). |
| Ui.ColorAgreesWithBars | src/ui.rs:498-514 | Green iff all four bars are shown, red shows at most two bars, and yellow shows two or three. |
| Ui.BgStatusText | src/ui.rs:98-106 | None iff idle. Otherwise the text is the spinner frame, a space, the activity's word (Scanning, Connecting, Disconnecting or Forgetting) and `...`. |
| Ui.BgStatusTextDistinct | src/ui.rs:98-106 | The four busy states show four different texts. |
| Ui.StatusTextDrawable | src/ui.rs:98-106 | In every state satisfying the invariant, the spinner index is valid, so the text exists exactly when busy. |
| Ui.ModalRect | src/ui.rs:335-344 | The box is at most 50 columns wide and fits horizontally inside the area. It keeps a 2-column margin when the area is at least 4 wide, and is exactly 50 wide from 54 columns. It is centred to within one cell, is 7 rows tall for the password prompt and 6 otherwise, and fits vertically when the area is tall enough. |
| Ui.PasswordMaskAsWritten | src/ui.rs:366-370 | Visible shows the password. Hidden shows only dots, exactly one per UTF-8 byte of the password, so at least one per character. |
| Ui.PasswordMaskCountsBytes | src/ui.rs:366-370 | The hidden mask of `é` is two dots long, though the password has one character. |
| Ui.PasswordMask | src/ui.rs:366-370 | Visible shows the password. Hidden shows exactly one dot per character. |
| Ui.PasswordMaskAgreesOnAscii | src/ui.rs:366-370 | The mask as written and the corrected one agree iff the password is shown or is ASCII. |
| Ui.TypingAddsOneDot | src/ui.rs:366-370 | Typing any character adds exactly one dot to the corrected hidden mask. |
| Ui.MessageColor | src/ui.rs:439-448 | Green iff the text starts with Connected, Disconnected or Forgot. Yellow iff it starts with none of those but with Already. Red iff it starts with none of the four. |
| Ui.SuccessMessagesGreen | src/ui.rs:439-448 | The success texts of connect, disconnect and forget are all shown in green. |
| Ui.AlreadyConnectedYellow | src/ui.rs:439-448 | "Already connected to this network." is shown in yellow. |
| Ui.ClassifiedErrorsRed | src/ui.rs:439-448 | Every text the classifier produces from a matched rule is shown in red. |

## Left out

- The event loop of src/event.rs (input thread, tick thread, worker thread, channels, `try_recv`) is not modelled. The UI side of `send_task` is an outbox. The worker's dispatch from a `Task` to its `TaskResult` (src/event.rs:81-101) is not modelled either. Only the two message types are, and the Nmcli functions model what each command's output becomes.
- Running processes is not modelled. Each command's result is an `Outcome`: whether it started, its exit status, its stdout already split into lines, and its stderr. `from_utf8_lossy` and `str::lines` are not modelled.
- The `nmcli device wifi rescan` call made before scanning is not modelled: its result is ignored by the source.
- `HashMap` iteration order is not modelled. `RankNetworks` is proved for any insertion order, and ties between equally ranked networks may be ordered differently from `sort_by`.
- Nmcli.Connect, Nmcli.Disconnect and Nmcli.Forget carry no contract of their own. Each is `CommandResult` with its fixed success text, so `Nmcli.CommandResult` and `Ui.SuccessMessagesGreen` state what they promise.
- ratatui drawing is not modelled: layout, widgets, the help bar, the status line and the row format. Only the pure helpers listed above are. `Rect::new`'s clipping to the frame is not modelled.
- Key modifiers other than Control (held with `c`) are ignored, and keys the application does not distinguish are `Other`.
- AppModel.OnTick: does not model the `u32` wrap-around of `ticks_since_scan`, which would take about 34 years of ticks without a completed refresh.
- Ui.TruncatePad: requires a width of at least one when the string does not fit. The source would panic there (`max_len - 1` underflows), and both of its callers (src/ui.rs:181 and 241) pass 28.
- In the source, an emptied list leaves the selection index where it was (src/app.rs:287-289 and 337-339). The model follows the code and does not reset the index to zero. `AppModel.Inv` therefore only bounds an index while its list is non-empty.
- Confirming a dialog or submitting a password does not check that the worker is idle (src/app.rs:213-219 and 231-253). The model follows the code, as `AppModel.RefreshThenDisconnect` shows.

## Findings

| source | as written | input that shows it | evidently intended | confidence | as-written member | corrected member |
|---|---|---|---|---|---|---|
| src/ui.rs:366-370 | the hidden password shows `"●".repeat(app.password.len())`, and `len()` counts UTF-8 bytes | password `é` (one character, two bytes) shows two dots | one dot per typed character | not executed | Ui.PasswordMaskCountsBytes | Ui.PasswordMask |
