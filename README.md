# Browser integrity report: a Dafny model

`script.js` is the client side of a browser "system check" page. When the start button is clicked it
builds a report table with one Pending row per entry of the registry `ALL_CHECKS`. It then runs every
check concurrently. As each check settles, the check's `{ status, data }` verdict is written into its
row: Clear for `"pass"`, Flagged for anything else. Listeners counting focus losses and clipboard actions
run for the whole life of the page.

This project models the part of that behaviour that does not depend on the browser:

- `Registry`: the seventeen registry entries, exactly as listed. It proves that their row ids are
  distinct and that the media check is registered twice.
- `Table`: the report table as a value. `Declare` is `createPendingRow` and `Update` is `updateRow`.
- `Dispatch`: `initializeReportUI` and the callback `runSystemCheck` attaches to each check's promise,
  as functions.
  - A run is the initial declarations followed by the completions of all checks, in any order that is a
    permutation of the registry.
  - It proves what a run leaves in every row, and when the order does not matter.
- `Page`: the page as a class (`ReportPage`) whose fields the methods update in place. Each method is
  proved equal to the function that describes it.
- `Signals`: the four module-level counters, as a value and as a class with one method per listener.
  It proves that they never decrease.
- `Rules`: the decision rules of the checks named below, with each browser reading taken as a parameter.
- `Text`: the string operations the rules use. These are ASCII `toLowerCase`, `includes`/`some`,
  `Number.prototype.toString(radix)` for non-negative integers, and `join('\n')`.
- `Hex`: the last step of `sha256`, turning the digest bytes into lowercase hex, with a decoder. It
  proves the round trip in both directions.

Browser readings, the settle order of the checks, and how each check settled are all inputs to the
model. The model covers:

- the decision rules for WebGL, automation flags, hardware concurrency, media devices, screen
  properties, window focus, clipboard, network information, and the timezone comparison of the
  VPN/proxy check;
- the hex step of `sha256`.

## Model

| member | source | states |
|---|---|---|
| `Hex.PadStart` | script.js:23-23 | `padStart` gives the target length, or the string's own length when that is already longer |
| `Hex.PadStartShape` | script.js:23-23 | the padded string keeps the original as its suffix and pads only with the pad character |
| `Hex.HexByte` | script.js:23-23 | `b.toString(16).padStart(2, '0')` is exactly the high nibble's digit followed by the low nibble's digit |
| `Hex.HexByteShape` | script.js:23-23 | each byte becomes exactly two lowercase hex digits |
| `Hex.HexString` | script.js:22-23 | the hex string has twice as many characters as there are bytes, all lowercase hex digits |
| `Hex.ParseHexString` | script.js:22-23 | decoding the hex string of any byte sequence gives back those bytes |
| `Hex.HexStringOfParse` | script.js:22-23 | any string that decodes to some bytes is exactly the hex string of those bytes, so the encoding is injective and has one spelling |
| `Text.LowerChar` | script.js:122-122 | lowercasing turns each capital A–Z into its small letter (32 code points higher), never returns a capital and leaves every other character unchanged |
| `Text.LowerCharMatches` | script.js:122-122 | a character lowercases to a small letter exactly when it is that letter or its capital, so the keyword tests ignore case |
| `Text.ToLower` | script.js:122-122 | `toLowerCase` keeps the length and lowercases each character in place |
| `Text.ToLowerIdempotent` | script.js:122-122 | lowercasing twice is lowercasing once |
| `Text.OccursAtTail` | script.js:122-122 | a keyword occurs at some position of `s` exactly when it is a prefix of `s` or occurs in the rest of `s` |
| `Text.Includes` | script.js:122-122 | `s.includes(k)` holds exactly when `k` occurs at some position of `s` |
| `Text.IncludesAny` | script.js:122-122 | `keywords.some(k => s.includes(k))` holds exactly when some keyword of the list occurs in `s` |
| `Text.DigitChar` | script.js:23-23 | each digit below 36 has a character whose digit value is that digit |
| `Text.DivideByRadix` | script.js:23-23 | dividing by the radix strictly shrinks a number of at least one radix and splits it into quotient and digit |
| `Text.NumberToString` | script.js:23-23 | `n.toString(radix)` is never empty, uses only digits below the radix, has no leading zero unless it is `"0"`, and has one character exactly when `n` is below the radix |
| `Text.ParseNumberToString` | script.js:23-23 | reading the digits of `n.toString(radix)` back gives `n` |
| `Text.Decimal` | script.js:149-149 | the decimal text interpolated into a message reads back as the number, consists of digits only, and starts with `0` only for zero |
| `Text.DecimalDigit` | script.js:327-327 | a number below ten is written as its single digit |
| `Text.JoinLines` | script.js:259-259 | joining no lines gives the empty string and joining one line gives that line |
| `Text.JoinLinesAppend` | script.js:259-259 | joining two non-empty lists of lines is joining each with one newline between them, so the lines appear in order separated by single newlines |
| `Registry.UniqueIdsAppend` | script.js:29-58 | two registries with distinct ids and no id in common concatenate to a registry with distinct ids |
| `Registry.FirstPartUnique` | script.js:31-43 | the first ten entries have pairwise distinct row ids |
| `Registry.SecondPartUnique` | script.js:46-56 | the last seven entries have pairwise distinct row ids |
| `Registry.PartsDisjoint` | script.js:29-58 | no row id of the first ten entries is also a row id of the last seven |
| `Registry.AllChecksUniqueIds` | script.js:29-58 | no two entries of `ALL_CHECKS` share a row id |
| `Registry.MediaRegisteredTwice` | script.js:41-42 | the registry has 17 entries, and `checkMediaDevices` is run by exactly the two entries whose ids are the two media row ids |
| `Table.Empty` | script.js:69-71 | a page on which `createPendingRow` has not run yet is consistent and has no rows |
| `Table.Declare` | script.js:69-85 | `createPendingRow` changes nothing when the table body is missing or the id has a row; otherwise it appends exactly one Pending row with that table and name and leaves the other rows as they were |
| `Table.DeclareValid` | script.js:69-85 | a declaration keeps every row listed once in append order and inside a table body that exists |
| `Table.DeclareIdempotent` | script.js:71-71 | once an id has been declared into an existing table body, declaring it again under any table or name changes nothing |
| `Table.StateOf` | script.js:97-99 | the status cell is Clear exactly for `"pass"` and Flagged for any other string, with `data` as its detail |
| `Table.Update` | script.js:93-105 | `updateRow` on an id without a row is a no-op; otherwise only that row changes, keeping its table and name, Clear exactly when the status is `"pass"` and with `data` as detail |
| `Table.UpdateLastWins` | script.js:93-105 | of two updates of the same row, the second one decides the row |
| `Table.UpdatesCommute` | script.js:93-105 | updates of two different rows can be done in either order |
| `Dispatch.MediaResultFromMediaCheck` | script.js:278-281 | the object `checkMediaDevices` returns carries both media sub-keys |
| `Dispatch.MediaResultWritesBoth` | script.js:491-497 | whichever media entry receives it, a result of `checkMediaDevices` writes both media rows, each with its own sub-result, so both media rows are written by both media entries |
| `Dispatch.DeclareEntry` | script.js:452-460 | one step of the loop never changes which table bodies exist, and the microphones entry declares nothing |
| `Dispatch.DeclareEntryValid` | script.js:452-460 | one step of the loop keeps the table consistent |
| `Dispatch.DeclareTwice` | script.js:455-456 | two declarations of distinct ids into one table body add both ids as Pending rows, or none when the body is missing, and keep the other rows |
| `Dispatch.DeclareEntryRows` | script.js:454-459 | the cameras entry declares the two media rows, the microphones entry declares none, and any other entry declares its own row; existing rows stay and new rows are Pending |
| `Dispatch.InitTable` | script.js:451-461 | `initializeReportUI` never changes which table bodies exist |
| `Dispatch.InitTablePrefix` | script.js:452-460 | the `forEach` handles one more entry by one more declaration step |
| `Dispatch.InitTableValid` | script.js:451-461 | initialization keeps rows, append order and table bodies consistent |
| `Dispatch.InitTableKeys` | script.js:451-461 | initialization adds exactly the ids the entries declare |
| `Dispatch.InitTableKeeps` | script.js:451-461 | initialization leaves the rows that already exist as they were |
| `Dispatch.InitTablePending` | script.js:451-461 | every row initialization adds is Pending |
| `Dispatch.InitTableRows` | script.js:451-461 | initialization adds exactly the ids the entries declare, as Pending rows, and leaves existing rows alone |
| `Dispatch.CheckIdsSnoc` | script.js:29-58 | the ids of a registry are the ids of all but its last entry plus the last entry's id |
| `Dispatch.DeclaredIdsAllTables` | script.js:451-461 | when every table body exists, the declared ids are the registry's ids, with the microphones row present exactly when the cameras entry is registered |
| `Dispatch.InitRegistry` | script.js:451-461 | on a page with every table body, a registry holding both media entries yields exactly its ids as rows, all Pending |
| `Dispatch.InitAllChecks` | script.js:451-461 | after `initializeReportUI`, the rows are exactly the ids of `ALL_CHECKS`, all Pending, and the table is consistent |
| `Dispatch.Writes` | script.js:487-505 | the rows a settled entry writes: only its own row unless it is a media entry, only media rows if it is one; no written state is Pending |
| `Dispatch.Overwrite` | script.js:93-105 | writing states into rows keeps the table bodies, the append order and the set of row ids |
| `Dispatch.UpdateOverwrites` | script.js:93-105 | `updateRow` writes one state into one existing row |
| `Dispatch.UpdateIfPresentOverwrites` | script.js:490-495 | a media sub-key that is present writes its row, and a missing one writes nothing |
| `Dispatch.OverwriteTwice` | script.js:490-495 | two writes in a row are one combined write in which the second one wins |
| `Dispatch.UpdateIfPresent` | script.js:492-497 | a present sub-key sets its row's state from the sub-result, a missing one changes nothing, and no other row changes |
| `Dispatch.Complete` | script.js:487-505 | a callback never adds, removes or reorders rows or table bodies |
| `Dispatch.CompleteWrites` | script.js:487-505 | each callback does exactly what `Writes` says to the rows that exist, and nothing else |
| `Dispatch.CompleteRules` | script.js:487-505 | a throw flags only the entry's own row with "Error during check."; a non-media entry touches only its own row; a media entry touches only media rows, and a missing sub-key leaves that row as it was |
| `Dispatch.ApplyAll` | script.js:507-507 | a run of callbacks keeps table bodies, append order, row ids, and each row's table and name |
| `Dispatch.ApplyAllPrefix` | script.js:487-507 | one more settled check applies one more callback |
| `Dispatch.OverwriteValid` | script.js:93-105 | writing row states keeps the table consistent |
| `Dispatch.ApplyAllValid` | script.js:507-507 | a run keeps the table consistent |
| `Dispatch.LastWriteWins` | script.js:41-42 | the last completion that writes a row decides it |
| `Dispatch.RowAfterRun` | script.js:487-507 | a row nobody writes keeps its state; a row somebody writes is no longer Pending; a row whose writers agree ends in the state they give it, whatever the order |
| `Dispatch.OrderIndependent` | script.js:487-507 | two runs made of the same completions give the same table when no two completions disagree about a row |
| `Dispatch.PermuteMembers` | script.js:507-507 | a settle order that lists every check once runs exactly the registry's completions |
| `Dispatch.Settled` | script.js:487-487 | there is one completion per registry entry, pairing entry `k` with how it settled |
| `Dispatch.RunOf` | script.js:487-507 | the `i`-th callback to run is the completion of the entry `order[i]`, with that entry's outcome |
| `Dispatch.WritersOf` | script.js:489-498 | a non-media entry writes only its own row and a media entry only media rows |
| `Dispatch.SettledCompatible` | script.js:487-507 | with distinct ids, the completions of a registry agree pairwise once the media entries agree with each other |
| `Dispatch.SameMediaOutcomeAgrees` | script.js:41-42 | when both media entries settle the same way they agree about every row, including when both throw |
| `Dispatch.RunOrderIndependent` | script.js:487-507 | for `ALL_CHECKS`, any two settle orders give the same table unless the two media entries disagree about a media row |
| `Dispatch.DisagreeingMediaResultsDependOnOrder` | script.js:41-42 | two results of `checkMediaDevices`, reaching the two media entries, that report different camera states give different tables in the two orders: the last write wins |
| `Dispatch.OwnRowAgreed` | script.js:497-499 | with distinct ids, every completion of a run that writes a non-media entry's row gives it the same state, because only that entry writes it |
| `Dispatch.OwnRowAfterRun` | script.js:497-499 | with distinct ids, a non-media row ends in the state its own check's outcome gives it, in any settle order |
| `Dispatch.RunOwnRows` | script.js:487-507 | after a run, in any settle order, every non-media row is in the state its own outcome gives it, so it is resolved |
| `Dispatch.InitRegistryHasEntries` | script.js:451-461 | after initialization every registry entry's id has a row |
| `Dispatch.AllChecksRunnable` | script.js:29-58 | `ALL_CHECKS` has distinct ids and registers both media ids |
| `Dispatch.UnwrittenInRun` | script.js:487-507 | no outcome writes a row exactly when no completion of the run writes it, whatever the order |
| `Dispatch.PendingAfterRun` | script.js:490-495 | a Pending row stays Pending through a run exactly when no check's outcome writes it, so a missing media sub-key keeps the row Pending |
| `Dispatch.PendingRowsAfterRun` | script.js:451-507 | starting from Pending rows, the rows a run leaves Pending are exactly those no outcome writes |
| `Dispatch.EveryIdWritten` | script.js:487-505 | every id of the registry is written by some outcome: an entry writes its own row even when it throws, and a media result writes both media rows |
| `Dispatch.NoRowPendingFrom` | script.js:487-507 | from Pending rows of the registry's ids, a run leaves no row Pending when the media entries settle as the media check can |
| `Dispatch.NoRowPendingAfterRun` | script.js:451-507 | after initialization and a run in any settle order, no row of a registry holding both media entries is still Pending |
| `Dispatch.NoRowPending` | script.js:479-507 | once `Promise.all` has resolved, no row of the report built from `ALL_CHECKS` is Pending, in any settle order |
| `Page.ReportPage.constructor` | script.js:69-71 | a freshly loaded page holds the given table bodies and no rows |
| `Page.ReportPage.CreatePendingRow` | script.js:69-85 | the page afterwards is `Declare` of the page before |
| `Page.ReportPage.UpdateRow` | script.js:93-105 | the page afterwards is `Update` of the page before |
| `Page.ReportPage.InitializeReportUI` | script.js:451-461 | the loop over `ALL_CHECKS` leaves the page as `InitTable` describes |
| `Page.ReportPage.OnSettled` | script.js:488-504 | one callback leaves the page as `Complete` describes |
| `Page.ReportPage.SettleInOrder` | script.js:507-507 | the callbacks delivered in settle order leave the page as `ApplyAll` describes |
| `Page.ReportPage.RunSystemCheck` | script.js:479-507 | the page afterwards is the initial declarations followed by every completion in the given settle order |
| `Signals.Step` | script.js:466-474 | each listener adds exactly one to its own counter and changes no other counter; a visibility change to visible changes nothing |
| `Signals.Replay` | script.js:466-474 | each counter ends at its start value plus the number of its own events (blurs and switches to hidden for focus loss), whatever their order |
| `Signals.ReplayAppend` | script.js:7-10 | events delivered in two batches count the same as in one: nothing resets the counters |
| `Signals.ReplayMonotone` | script.js:466-474 | no sequence of events decreases any counter |
| `Signals.ReplayLater` | script.js:466-474 | a later snapshot of the counters is at least an earlier one |
| `Signals.FlaggedStaysFlagged` | script.js:323-339 | a flagged window-focus or clipboard verdict stays flagged after any further events |
| `Signals.FocusLossScenario` | script.js:466-470 | two blurs, a switch to visible and a switch to hidden count three focus losses, which the focus check flags with the text "Window lost focus 3 time(s)." |
| `Signals.FocusLossText` | script.js:327-327 | the focus check reports three losses as "Window lost focus 3 time(s)." |
| `Signals.ClipboardScenario` | script.js:334-335 | five clipboard actions pass and six are flagged |
| `Signals.SignalCounters.constructor` | script.js:7-10 | all four counters start at zero |
| `Signals.SignalCounters.OnBlur` | script.js:467-467 | a blur adds one to the focus-loss counter only |
| `Signals.SignalCounters.OnVisibilityChange` | script.js:468-470 | becoming hidden adds one to the focus-loss counter; becoming visible changes nothing |
| `Signals.SignalCounters.OnCopy` | script.js:471-471 | a copy adds one to the copy counter only |
| `Signals.SignalCounters.OnCut` | script.js:472-472 | a cut adds one to the cut counter only |
| `Signals.SignalCounters.OnPaste` | script.js:473-473 | a paste adds one to the paste counter only |
| `Signals.SignalCounters.Fire` | script.js:466-474 | whichever event fires, the counters move as `Step` says |
| `Signals.SignalCounters.WindowFocusVerdict` | script.js:323-329 | the focus check is flagged exactly when the counter is positive at the moment it runs |
| `Signals.SignalCounters.ClipboardVerdict` | script.js:331-339 | the clipboard check is flagged exactly when the three counters add up to more than five at the moment it runs |
| `Rules.Decide` | script.js:123-129 | a verdict is `"flagged"` exactly when its condition holds, and `"pass"` otherwise |
| `Rules.CheckWebGL` | script.js:109-131 | a failed renderer lookup is flagged with a fixed message; otherwise the data names vendor and renderer, and the verdict is flagged exactly when the lowercased renderer contains one of the six keywords |
| `Rules.CheckAutomationFlags` | script.js:133-143 | flagged exactly when `navigator.webdriver` is set |
| `Rules.CoreCount` | script.js:147-147 | a missing core count counts as zero |
| `Rules.CheckHardwareConcurrency` | script.js:145-156 | flagged exactly when the core count is at most 2, with a missing count as 0; the data starts with the reported count |
| `Rules.OfKind` | script.js:254-255 | the filter keeps exactly the devices of the given kind |
| `Rules.OfKindSingle` | script.js:254-255 | a single device is kept exactly when it has the kind |
| `Rules.OfKindAppend` | script.js:254-255 | the filter distributes over concatenation, so it keeps the matching devices in order and with their repetitions |
| `Rules.AnySuspicious` | script.js:260-269 | true exactly when some device's lowercased label contains one of the seven keywords |
| `Rules.NumberedLabels` | script.js:259-266 | the i-th line is `[i+1]` followed by the i-th device's label |
| `Rules.DeviceGroup` | script.js:258-270 | no devices of a kind pass with the "not found" text; otherwise the labels are listed one per line, and the group is flagged exactly when some label is suspicious |
| `Rules.CheckMediaDevices` | script.js:246-282 | a denied or failed request flags both sub-results with the same message; otherwise each kind is flagged exactly when one of its labels is suspicious, and a kind without devices passes with "No cameras found." or "No microphones found." |
| `Rules.CheckScreenProperties` | script.js:284-296 | flagged exactly when width < 800, height < 600 or colour depth < 24; the data starts with the resolution and depth |
| `Rules.CheckWindowFocus` | script.js:323-329 | flagged exactly when the focus-loss count is positive; the data reports the count |
| `Rules.CheckClipboard` | script.js:331-339 | flagged exactly when copies, cuts and pastes add up to more than five; the data reports each count |
| `Rules.CheckVPNProxy` | script.js:341-363 | passes exactly when the lookup succeeded and its timezone equals the browser's; a failed request is flagged with the API-failure text |
| `Rules.CheckNetworkInfo` | script.js:365-379 | passes with "Network information not available." without a connection object; otherwise flagged exactly when the effective type is `slow-2g` or data saving is on |

## Left out

- The DOM is not modelled. This covers element lookup and creation, `innerHTML`, the status icons,
  CSS classes and the start button's relabelling. A row is its table id, name and status cell.
- `getElementById(checkId)` in `createPendingRow` and `updateRow` is modelled as a lookup among the rows.
  Other element ids on the page are taken to be distinct from the check ids.
- Promises, `await` and `Promise.all` are not modelled. The concurrency becomes a parameter: the order,
  a permutation of the registry, in which the checks settle. Each callback runs to completion before
  the next, as JavaScript's single thread guarantees.
- `crypto.subtle.digest` and `TextEncoder` are foreign calls and are not modelled. Only the bytes-to-hex
  step is.
- The following checks are left out: battery, RAM, device sensors, display, developer tools, canvas
  fingerprint and audio fingerprint. They rest on floating point, wall-clock timing, permission-gated
  APIs or rendering. Their registry entries are kept, and their outcomes are inputs of a run.
- The `fetch` to the geolocation service is not modelled. Only the comparison of its timezone with
  the browser's is.
- `console.error` is not modelled because it has no effect on the report.
- Text.ToLower: only ASCII `A`–`Z` are lowercased. Full Unicode case mapping is not modelled.
- Text.NumberToString: non-negative integers only, which is all `script.js` formats.
- Rules.CheckWebGL: the renderer and vendor are taken to be strings. A renderer that is not a string
  makes `toLowerCase` throw, and that path is covered only by the `None` input.
- Rules.CheckNetworkInfo: `downlink` and `rtt` are taken as the text they render to, because they are
  floating-point numbers.
- Rules.CheckHardwareConcurrency and Rules.CheckScreenProperties: the readings are non-negative
  integers, as browsers report them.
- Dispatch.Complete: a non-media check resolving to an object without `status` and `data` is modelled
  as an update with empty status and text. The row is then Flagged with empty detail, because
  `textContent = undefined` renders nothing.
- Dispatch.RunOrderIndependent: the order does not matter when the two media entries agree. When they
  disagree, only the fact that the last write wins is proved (`Dispatch.DisagreeingMediaResultsDependOnOrder`).
