# Burnmail core, modelled in Dafny

Burnmail is a command-line client for disposable e-mail addresses. This project
models and proves its sequential logic:

- **The inbox screen's controller** (`cmd/tui.go`). It is a single-threaded
  machine: an event comes in, the `model` changes, and commands go out.
  - The events are a resize, a loaded list, a loaded message, the two delete
    completions, an error, a tick and a key.
  - The commands are load list, load message, delete, bulk delete, tick and quit.
  - `Session` (session.dfy) gives the machine as pure functions (`Next`). These
    are the specification and follow the source as written, including its
    delete completions, which leave `loading` set. The corrected completions
    (`OnDeleted`, `OnBulkDeleted`) sit beside them and are not used by `Next`
    (see Findings).
  - `Controller.Inbox` (controller.dfy) is the `model` object with its fields
    changed in place. Every method is proved to leave the object in the state
    the matching `Session` function computes.
  - `SessionLaws` (session_laws.dfy) proves what the transitions guarantee:
    - the confirmation gate before quitting or deleting;
    - the retry ceiling;
    - what the tick does;
    - what the two delete completions do;
    - the odd key bindings of the source;
    - an invariant every event keeps.
  - The list pipeline of the screen lives in `Render` (render.dfy):
    - search filtering;
    - the three sort orders;
    - truncation at word boundaries;
    - the three-tier column layout;
    - the table rows.
  - The attachment file-name probe lives in `Downloads` (downloads.dfy).
- **The retry policy and the account-name generator** (`cmd/commands.go`,
  duplicated in `cmd/helpers.go`). `Retry` (retry.dfy) models:
  - `retryWithBackoff` as a loop over an oracle of call outcomes and
    cancellation checks, which records the waits it would sleep;
  - `generateRandomString` over the bytes `rand.Read` would give.
- **The HTML-to-text converter** (`cmd/htmlconverter.go`).
  - `HtmlText` (htmltext.dfy) gives the converter's steps as functions on its
    fields: `Walk`, `Handle`, `AddText`, tables and so on.
  - `HtmlConverter.Converter` (htmlconverter.dfy) is the converter object. Its
    methods update `buf`, `lastNewline`, `inTable`, `tableRow` and `table` in
    place, and each is proved against those functions.
- **The encrypted envelope** of the account file (`storage/encryption.go`).
  - `Envelope` (envelope.dfy) proves the salt ++ nonce ++ ciphertext layout, the
    length check, that the split recovers the parts, and the error cases.
  - It proves the round trip and the wrong-password failure under stated
    hypotheses about the cipher.

Shared definitions:
- `Bytes` (bytes.dfy) models the parts of Go's `strings` package the code uses,
  on byte strings: ASCII `ToLower`, `Contains`, `TrimSpace`, `Fields`, `Join`,
  `Repeat` and `%d`.
- `Mail` (mail.dfy) holds the message records and an order-keeping filter.

Strings that the code measures or slices are byte sequences. Message ids and key
names are Dafny strings. Timestamps are integers.

The source does not run the HTML converter on the detail screen: it uses the
html2text library. The converter is modelled as the source file defines it.

## Model

| member | source | states |
|---|---|---|
| `Bytes.ToLower` | cmd/tui.go:766-771 | Lower-casing keeps the length, leaves no 'A'..'Z' byte, maps each 'A'..'Z' byte to its 'a'..'z' form and keeps every other byte. |
| `Bytes.RepeatLength` | cmd/htmlconverter.go:256 | `strings.Repeat(s, n)` is n times as long as s. |
| `Bytes.TrimSpaceEmpty` | cmd/htmlconverter.go:153-156 | Text trims to "" exactly when every byte is whitespace, so `addText` drops exactly the blank texts. |
| `Bytes.FieldsAreWords` | cmd/tui.go:914 | `strings.Fields` yields non-empty words with no whitespace in them. |
| `Bytes.FieldsEmpty` | cmd/tui.go:914 | A text has no fields exactly when it is all whitespace. |
| `Bytes.FieldsOfJoin` | cmd/htmlconverter.go:159 | Splitting a space-joined list of words gives the words back. |
| `Bytes.CollapseSpec` | cmd/htmlconverter.go:153-159 | The collapsed text has single spaces strictly inside it and the same words as the input. It is empty exactly for blank input. |
| `Bytes.Decimal` | cmd/tui.go:1142 | `%d` of a counter is a non-empty string of ASCII digits '0'..'9'. |
| `Bytes.ParseDecimalInverse` | cmd/tui.go:1142 | Reading the digits back gives the number. |
| `Bytes.DecimalInjective` | cmd/tui.go:1142 | Different counters print differently. |
| `Mail.KeepAppend` | cmd/tui.go:768-778 | The filtering loops keep order: filtering a concatenation concatenates the filtered parts. |
| `Mail.KeepMembership` | cmd/tui.go:387-391 | An element survives exactly when it is in the list and passes the test. |
| `Mail.KeepLength` | cmd/tui.go:767 | Filtering never lengthens the list. |
| `Render.FilteredSpec` | cmd/tui.go:760-779 | For a non-empty query, a message is in the filtered list exactly when it is in the list and its lower-cased address, subject or preview contains the lower-cased query. The filter is order-preserving and never longer than the list. |
| `Render.FilteredIgnoresQueryCase` | cmd/tui.go:766-775 | Queries that differ only in ASCII case filter identically. |
| `Render.NextSortMode` | cmd/tui.go:543 | The `s` key always moves to a different order. |
| `Render.PrecedesTotal` | cmd/tui.go:875-890 | Under each of the three comparisons, any two messages can be ordered one way or the other. |
| `Render.PrecedesTransitive` | cmd/tui.go:875-890 | Each of the three comparisons is transitive, so "sorted" is well defined. |
| `Render.SortBy` | cmd/tui.go:875-890 | The sorted list is a permutation of its input: newest first by date, ascending by sender address, or ascending by subject. |
| `Render.SortedByDateUnique` | cmd/tui.go:878-880 | Two date-sorted orders of the same messages have the same timestamp at every position. The unstable sort is free only among equal dates. |
| `Render.FitCount` | cmd/tui.go:919-929 | Truncation keeps words while the next still fits before the ellipsis, and stops at the first word that does not. |
| `Render.TruncationSpec` | cmd/tui.go:904-937 | The result never exceeds `max`. Text that fits is unchanged. Below 10 the text is cut to `max`. Otherwise the result ends in "...". |
| `Render.TruncationKeepsWords` | cmd/tui.go:913-932 | For `max` of 10 or more, the result is the leading whole words that fit, single-spaced, plus "...". With no such word it is `s[:max-3] + "..."`. |
| `Render.Truncate` | cmd/tui.go:904-937 | The loop with its running length builds exactly the truncation above. |
| `Render.MaxInt` | cmd/tui.go:868-873 | The result is one of the two arguments and at least both. |
| `Render.ColumnsForSpec` | cmd/tui.go:781-809 | Below 80 columns the layout is check/from/subject/date with subject max(20, w-30). Otherwise it has six columns with subject max(25, w-55) below 120 and max(30, w-85) from 120. From 50 columns on, the layout fits the terminal. |
| `Render.WidthOfSpec` | cmd/tui.go:817-831 | The truncation width of a field is that of the last column with its title, else the default. |
| `Render.RowForSpec` | cmd/tui.go:833-863 | A row has one cell per column. The check cell is "✓" exactly for selected indices. The last cell is the date. Every text column's cell fits its width. |
| `Render.RowsSpec` | cmd/tui.go:833-865 | The table has one row per filtered message, built from that message's own index. |
| `Session.InitialSpec` | cmd/tui.go:189-203 | A cache younger than 300 s seeds the list, an older or missing one leaves it empty. Loading is on exactly when nothing was seeded. The filtered list is the list. |
| `Session.CacheAgeScenario` | cmd/tui.go:191 | A six-minute-old cache is ignored and a four-minute-old one is used. |
| `Session.RederiveSpec` | cmd/tui.go:317-319 | After filter, sort and rows, the filtered list is a sorted permutation of the filter of the messages. |
| `Session.RederiveLists` | cmd/tui.go:760-764 | An empty query makes the message list itself the sorted list, so sorting reorders `messages`. Otherwise `messages` is untouched. The rows match the filtered list. |
| `Session.RederiveFrame` | cmd/tui.go:760-890 | Recomputing the lists changes only the two lists, the aliasing and the rows. |
| `Session.IndexOf` | cmd/tui.go:893-898 | The result is the first position holding the id, or the length when no message has it. |
| `Session.SetSeenSpec` | cmd/tui.go:892-898 | Only the first message with the id gets the new seen flag. Every other entry stays as it was. |
| `Session.RemoveFirstSpec` | cmd/tui.go:408-413 | The single delete removes only the first message with the id, or nothing when no message has it. |
| `Session.SelectedIdsSpec` | cmd/tui.go:1004-1009 | The ids sent for a bulk delete are exactly those of the in-range selected indices, one per index. |
| `SessionLaws.ShowHelpOk` | cmd/tui.go:485-488 | "?" issues no delete, keeps the retry count, error and invariant. |
| `SessionLaws.RequestQuitOk` | cmd/tui.go:490-494 | "q"/"ctrl+c" issue no delete. A confirmation they open records the current view and a pending action. |
| `SessionLaws.GoBackOk` | cmd/tui.go:496-502 | "esc" issues no delete and keeps the retry count, error and invariant. |
| `SessionLaws.CursorDownOk` | cmd/tui.go:504-508 | "j"/"down" issue no delete and keep the retry count, error and invariant. |
| `SessionLaws.CursorUpOk` | cmd/tui.go:510-514 | "k"/"up" issue no delete and keep the retry count, error and invariant. |
| `SessionLaws.RefreshOk` | cmd/tui.go:516-521 | "r" issues no delete and keeps the retry count, error and invariant. |
| `SessionLaws.StartSearchOk` | cmd/tui.go:523-528 | "/" issues no delete and keeps the retry count, error and invariant. |
| `SessionLaws.ToggleAutoRefreshOk` | cmd/tui.go:530-539 | "a" issues no delete and keeps the retry count, error and invariant. |
| `SessionLaws.CycleSortOk` | cmd/tui.go:541-549 | "s" issues no delete and keeps the retry count, error and invariant. |
| `SessionLaws.CopyOk` | cmd/tui.go:551-563 | "c" issues no delete and keeps the retry count, error and invariant. |
| `SessionLaws.ToggleBulkModeOk` | cmd/tui.go:565-574 | "v" issues no delete and keeps the retry count, error and invariant. |
| `SessionLaws.ToggleSelectionOk` | cmd/tui.go:576-586 | Space issues no delete and keeps the retry count, error and invariant. |
| `SessionLaws.RequestDeleteOk` | cmd/tui.go:588-593 | "d" issues no delete itself. The confirmation it opens records the view and a pending delete. |
| `SessionLaws.OpenSelectedOk` | cmd/tui.go:595-651 | "enter" issues no delete and keeps the retry count, error and invariant. |
| `SessionLaws.DownloadOneOk` | cmd/tui.go:660-667 | "1".."9" issue no delete and keep the retry count, error and invariant. |
| `SessionLaws.DownloadAllOk` | cmd/tui.go:669-675 | "A" issues no delete and keeps the retry count, error and invariant. |
| `SessionLaws.BrowseKeyOk` | cmd/tui.go:484-676 | No key of the list or detail view issues a delete. Each keeps the retry count, the error and the invariant, and a dialog it opens records where it came from. |
| `SessionLaws.ExecuteConfirmedOk` | cmd/tui.go:987-1016 | Running the confirmed action keeps the retry count, the error and the invariant. |
| `SessionLaws.ConfirmKeyOk` | cmd/tui.go:442-453 | In the dialog only "y"/"Y" can issue a delete. |
| `SessionLaws.HelpKeyOk` | cmd/tui.go:455-462 | The help screen issues nothing and keeps the invariant. |
| `SessionLaws.SearchKeyOk` | cmd/tui.go:464-481 | Keys in the search box issue nothing and keep the invariant. |
| `SessionLaws.SearchEnterOk` | cmd/tui.go:470-476 | Submitting the search issues nothing and keeps the invariant. |
| `SessionLaws.KeyOk` | cmd/tui.go:441-483 | For every key in every view, a delete comes only from "y"/"Y" in the dialog. Retry count, error and invariant are kept. Entering the dialog records the list or detail view it came from. |
| `SessionLaws.DeleteNeedsConfirmation` | cmd/tui.go:441-453 | Any event that issues a delete is "y" or "Y" pressed in the confirmation view with a pending delete. |
| `SessionLaws.ParseKeyRune` | cmd/tui.go:443 | A single-character key name is that character, and Esc is exactly "esc". |
| `SessionLaws.ConfirmAccepted` | cmd/tui.go:987-1016 | Confirming restores the earlier view and clears the pending action but not the prompt. Quit gives `Quit`. A single delete sends the open message's id and sets loading, or nothing without one. A bulk delete sends one command whose ids all belong to in-range selected indices. |
| `SessionLaws.ExecuteConfirmedSpec` | cmd/tui.go:987-1016 | Running the pending action gives the step `SessionLaws.ConfirmAccepted` describes, for every action. |
| `SessionLaws.ConfirmDeclined` | cmd/tui.go:446-450 | "n"/"N"/"esc"/"q" restore the earlier view, clear action and prompt, change nothing else and issue nothing. |
| `SessionLaws.ConfirmIgnoresOtherKeys` | cmd/tui.go:442-453 | Any other key in the dialog changes nothing and issues nothing. |
| `SessionLaws.ShowConfirmRecordsView` | cmd/tui.go:979-985 | Only a key opens the dialog. It is opened from the list or detail view, records that view and has a pending action. |
| `SessionLaws.InitialInv` | cmd/tui.go:195-210 | The start state satisfies the invariant. |
| `SessionLaws.RederiveAliases` | cmd/tui.go:760-764 | When the lists alias they are equal. Recomputation keeps the invariant and the view, error, retry count, loading, status, open message and flags. |
| `SessionLaws.ResizeOk` | cmd/tui.go:287-309 | A resize keeps the invariant, opens no dialog, issues nothing and keeps the error and retry count. |
| `SessionLaws.MessagesLoadedOk` | cmd/tui.go:311-320 | A loaded list keeps the invariant, opens no dialog and issues nothing. |
| `SessionLaws.DetailLoadedOk` | cmd/tui.go:322-373 | A loaded message keeps the invariant, opens no dialog, issues nothing and keeps the error and retry count. |
| `SessionLaws.DeletedOk` | cmd/tui.go:402-419 | The single-delete completion as written keeps the invariant, opens no dialog, issues nothing and keeps the error and retry count. |
| `SessionLaws.BulkDeletedOk` | cmd/tui.go:375-400 | The bulk-delete completion as written keeps the invariant, opens no dialog, issues nothing and keeps the error and retry count. The `make` at line 386 can panic first (Findings, `SessionLaws.EmptyInboxBulkDeletePanics`). |
| `SessionLaws.ErrOk` | cmd/tui.go:427-439 | An error keeps the invariant, opens no dialog and issues no delete. The retry count does not fall and a recorded error stays. |
| `SessionLaws.TickOk` | cmd/tui.go:421-425 | A tick keeps the state and issues no delete. |
| `SessionLaws.EventOk` | cmd/tui.go:286-440 | Every non-key event keeps the invariant, opens no dialog and issues no delete. Only a loaded list lowers the retry count, and none clears an error. |
| `SessionLaws.NextInv` | cmd/tui.go:283-689 | Every event keeps the invariant, with the delete completions as written. This holds where the handler returns; the bulk-delete `make` at line 386 can panic instead (Findings). |
| `SessionLaws.BulkDeletedSpec` | cmd/tui.go:375-400 | The completion as written empties the selection, ends bulk mode and leaves `loading` as it was. The status counts the selected indices. `messages` loses exactly the messages whose id an in-range selected index shows: in order when a query is set, re-sorted when it is empty. View, open message and cache are kept. |
| `SessionLaws.SelectedIdSetSpec` | cmd/tui.go:379-384 | An id is dropped exactly when some in-range selected index of the filtered list shows it. Out-of-range indices are ignored. |
| `SessionLaws.WithoutIdsKeepsOrder` | cmd/tui.go:386-391 | The survivors of a bulk delete keep their order. |
| `SessionLaws.DeletedSpec` | cmd/tui.go:402-407 | The single-delete completion as written returns to the list, closes the message and sets the status. It keeps `loading`, the selection, the bulk mode and the cache. |
| `SessionLaws.DeletedRemovesFirst` | cmd/tui.go:405-418 | As written: with no open message the lists and rows are untouched. Otherwise only the first message with its id goes: exactly so with a query, as a permutation of that without one. |
| `SessionLaws.DetailLoadedMarksSeen` | cmd/tui.go:322-327 | For every state: shows the message, caches it, stops loading. The new list holds exactly the old entries with the first one with its id marked seen. With a query set that entry is marked in place and no other entry changes; without one the list is re-sorted. |
| `SessionLaws.RetryCeiling` | cmd/tui.go:427-439 | An error clears loading and adds one to the retry count. A list reload is issued exactly when the count is below 3. Otherwise the error is recorded and nothing is issued. |
| `SessionLaws.LoadResetsRetries` | cmd/tui.go:311-314 | A loaded list clears loading and the retry count. |
| `SessionLaws.RetriesAndErrorsPersist` | cmd/tui.go:427-439 | Only a loaded list lowers the retry count, and no event clears a recorded error. |
| `SessionLaws.TickSpec` | cmd/tui.go:421-425 | A tick always re-arms itself. It loads the list exactly when auto-refresh is on, the list is shown and nothing is loading. |
| `SessionLaws.EscFromListQuits` | cmd/tui.go:496-502 | Esc in the list view quits at once, with no confirmation. |
| `SessionLaws.EscInSearchKeepsQuery` | cmd/tui.go:466-469 | Esc in the search box only leaves search mode. The query and the filtered list stay. |
| `SessionLaws.EnterInSearchFilters` | cmd/tui.go:470-476 | Enter in the search box leaves search mode and applies the query: sorted by the current order, as a permutation of the filter. |
| `SessionLaws.ApplyQuerySpec` | cmd/tui.go:470-476 | Recomputing the lists after leaving search mode gives the sorted filter of the messages, as a permutation. |
| `SessionLaws.EditQueryBound` | cmd/tui.go:177-183 | Typing never grows the query past 100 characters. Backspace drops the last one. A printable key below the limit is appended. |
| `SessionLaws.SortKeySpec` | cmd/tui.go:541-549 | "s" in the list moves to the next order and re-sorts the filtered list as a permutation. `messages` follows only when aliased, and the selection is not cleared. |
| `SessionLaws.CycleSortSpec` | cmd/tui.go:541-549 | The same for the key's own step, from the list view. |
| `SessionLaws.SpaceTogglesSelection` | cmd/tui.go:576-586 | Space in bulk mode flips the index under the cursor and no other. |
| `SessionLaws.ResizeSpec` | cmd/tui.go:287-307 | Table and viewport heights are height-10 with a floor of 5. The viewport is width-4. The search box is width-20 with a floor of 20. The column tier and rows are rebuilt for the width. |
| `SessionLaws.DeleteLeavesLoadingAsWritten` | cmd/tui.go:375-419 | As written, a completion after a delete request leaves loading set, so the next tick only re-arms. |
| `SessionLaws.DeletedFrame` | cmd/tui.go:402-419 | The single-delete completion keeps the loading and auto-refresh flags and returns to the list view. |
| `SessionLaws.BulkDeletedFrame` | cmd/tui.go:375-400 | The bulk-delete completion keeps the loading and auto-refresh flags and the view. |
| `SessionLaws.DeleteResumesRefresh` | cmd/tui.go:421-425 | With loading cleared by the completion, the next tick in the list view reloads again. |
| `SessionLaws.EmptyInboxBulkDeletePanics` | cmd/tui.go:375-386 | On an empty inbox, "v", " ", "d", "y" issue a bulk delete of no ids with index 0 selected. `bulkDeleteMessages` (lines 258-280) then answers at once, and the capacity line 386 passes to `make` is negative. The survivor capacity there is 0. |
| `SessionLaws.BulkDeletedFits` | cmd/tui.go:379-392 | The survivor capacity is never negative, is at most the list length, and is exactly the length of the list the completion leaves. |
| `SessionLaws.KeyBulkOn` | cmd/tui.go:565-574 | "v" in the list view, outside bulk mode, enters bulk mode and keeps the lists, the selection and the cursor. |
| `SessionLaws.KeySelect` | cmd/tui.go:576-586 | " " in bulk mode toggles the index under the cursor, whether or not a message is shown there. |
| `SessionLaws.KeyBulkDelete` | cmd/tui.go:588-593 | "d" in bulk mode with a selection opens the bulk-delete dialog and keeps the lists. |
| `SessionLaws.KeyConfirmBulk` | cmd/tui.go:1005-1012 | "y" in the bulk-delete dialog issues a bulk delete of the in-range selected ids. The model lists them in index order (see Left out). |
| `Controller.Inbox.constructor` | cmd/tui.go:142-211 | The new controller is in the start state of `Session.Initial`, given the cache read and the time. |
| `Controller.Inbox.SelectMatching` | cmd/tui.go:767-778 | The loop appends exactly the matching messages, in order. |
| `Controller.Inbox.FilterMessages` | cmd/tui.go:760-779 | The filtered list is replaced as `Session.Refilter` says: it aliases `messages` for an empty query, else it is the matching messages. |
| `Controller.Inbox.SortMessages` | cmd/tui.go:875-890 | The filtered list is sorted, and `messages` with it when aliased. |
| `Controller.Inbox.TextWidths` | cmd/tui.go:817-831 | The column loop finds the last from, subject and preview widths, defaulting to 25, 35 and 25. |
| `Controller.Inbox.BuildRow` | cmd/tui.go:833-863 | One row for a four- or six-column layout. |
| `Controller.Inbox.BuildRows` | cmd/tui.go:833-865 | The row loop builds the rows of every filtered message. |
| `Controller.Inbox.UpdateTableRows` | cmd/tui.go:816-866 | Only the rows change, to those of the filtered list. |
| `Controller.Inbox.UpdateColumnWidths` | cmd/tui.go:781-814 | Only the columns and rows change, to the tier for the width. |
| `Controller.Inbox.Rederive` | cmd/tui.go:317-319 | Filter, sort and rows in that order. |
| `Controller.Inbox.FindMessage` | cmd/tui.go:893-898 | The scan stops at the first message with the id. |
| `Controller.Inbox.UpdateMessageSeen` | cmd/tui.go:892-902 | The first message with the id gets the flag, then the lists are recomputed. |
| `Controller.Inbox.CollectSelected` | cmd/tui.go:379-384 | Visiting the selected indices in any order collects the ids of the in-range ones. |
| `Controller.Inbox.KeepUnlisted` | cmd/tui.go:386-392 | The loop keeps, in order, the messages whose id is not listed. |
| `Controller.Inbox.SetSizes` | cmd/tui.go:288-305 | Sets the terminal size, the heights with their floor of 5 and the widths with the floor of 20, and nothing else. |
| `Controller.Inbox.Resize` | cmd/tui.go:287-309 | The whole new state is `Session.OnResize`. |
| `Controller.Inbox.MessagesLoaded` | cmd/tui.go:311-320 | The whole new state is `Session.OnMessagesLoaded`. |
| `Controller.Inbox.ShowDetail` | cmd/tui.go:323-326 | Shows and caches the message and stops loading, and nothing else. |
| `Controller.Inbox.DetailLoaded` | cmd/tui.go:322-373 | The whole new state is `Session.OnDetailLoaded`. |
| `Controller.Inbox.RemoveMessage` | cmd/tui.go:408-413 | Only `messages` changes, losing its first message with the id. |
| `Controller.Inbox.ForgetDeleted` | cmd/tui.go:405-417 | Closes the message, drops it from the list and recomputes the lists. |
| `Controller.Inbox.MessageDeletedAsWritten` | cmd/tui.go:402-419 | The whole new state is `Session.OnDeletedAsWritten`. |
| `Controller.Inbox.MessageDeleted` | cmd/tui.go:402-419 | The corrected completion (Findings): the whole new state is `Session.OnDeleted`, which clears loading. `Update` does not call it. |
| `Controller.Inbox.DropSelected` | cmd/tui.go:376-395 | Replaces the list by the survivors, sets the status, empties the selection and ends bulk mode. |
| `Controller.Inbox.BulkDeletedAsWritten` | cmd/tui.go:375-400 | The whole new state is `Session.OnBulkDeletedAsWritten`. |
| `Controller.Inbox.BulkDeleted` | cmd/tui.go:375-400 | The corrected completion (Findings): the whole new state is `Session.OnBulkDeleted`, which clears loading. `Update` does not call it. |
| `Controller.Inbox.Tick` | cmd/tui.go:421-425 | Changes nothing. Issues a reload exactly when one is due, and always ends with the re-armed tick. |
| `Controller.Inbox.CountFailure` | cmd/tui.go:428-429 | Stops loading and adds one to the retry count, and nothing else. |
| `Controller.Inbox.Err` | cmd/tui.go:427-439 | New state and commands are `Session.OnErr`. |
| `Controller.Inbox.ShowConfirm` | cmd/tui.go:979-985 | Records the current view, shows the dialog and sets the action and prompt, and nothing else. |
| `Controller.Inbox.CloseDialog` | cmd/tui.go:988-990 | Back to the recorded view with no pending action. The prompt stays. |
| `Controller.Inbox.StartDeleting` | cmd/tui.go:998-999 | Sets loading and the status, and nothing else. |
| `Controller.Inbox.SelectedIdList` | cmd/tui.go:1004-1009 | The ids of the in-range selected indices, in index order. |
| `Controller.Inbox.ExecuteConfirmedAction` | cmd/tui.go:987-1016 | New state and commands are `Session.ExecuteConfirmed`. |
| `Controller.Inbox.DismissDialog` | cmd/tui.go:446-450 | Back to the recorded view with action and prompt cleared, and nothing else. |
| `Controller.Inbox.ConfirmKey` | cmd/tui.go:442-453 | New state and commands are `Session.OnConfirmKey`. |
| `Controller.Inbox.HelpKey` | cmd/tui.go:455-462 | The whole new state is `Session.OnHelpKey`. |
| `Controller.Inbox.SubmitSearch` | cmd/tui.go:470-476 | Leaves search mode and recomputes the lists. |
| `Controller.Inbox.SearchKey` | cmd/tui.go:464-481 | The whole new state is `Session.OnSearchKey`. |
| `Controller.Inbox.ShowHelp` | cmd/tui.go:485-488 | New state and commands are `Session.ShowHelp`. |
| `Controller.Inbox.RequestQuit` | cmd/tui.go:490-494 | New state and commands are `Session.RequestQuit`. |
| `Controller.Inbox.GoBack` | cmd/tui.go:496-502 | New state and commands are `Session.GoBack`. |
| `Controller.Inbox.CursorDown` | cmd/tui.go:504-508 | New state and commands are `Session.CursorDown`. |
| `Controller.Inbox.CursorUp` | cmd/tui.go:510-514 | New state and commands are `Session.CursorUp`. |
| `Controller.Inbox.Refresh` | cmd/tui.go:516-521 | New state and commands are `Session.Refresh`. |
| `Controller.Inbox.StartSearch` | cmd/tui.go:523-528 | New state and commands are `Session.StartSearch`. |
| `Controller.Inbox.ToggleAutoRefresh` | cmd/tui.go:530-539 | New state and commands are `Session.ToggleAutoRefresh`. |
| `Controller.Inbox.CycleSort` | cmd/tui.go:541-549 | New state and commands are `Session.CycleSort`. |
| `Controller.Inbox.Copy` | cmd/tui.go:551-563 | New state and commands are `Session.Copy`. |
| `Controller.Inbox.ToggleBulkMode` | cmd/tui.go:565-574 | New state and commands are `Session.ToggleBulkMode`. |
| `Controller.Inbox.ToggleSelection` | cmd/tui.go:576-586 | New state and commands are `Session.ToggleSelection`. |
| `Controller.Inbox.RequestDelete` | cmd/tui.go:588-593 | New state and commands are `Session.RequestDelete`. |
| `Controller.Inbox.OpenSelected` | cmd/tui.go:595-651 | New state and commands are `Session.OpenSelected`. |
| `Controller.Inbox.DownloadOne` | cmd/tui.go:660-667 | New state and commands are `Session.DownloadOne`. |
| `Controller.Inbox.DownloadAll` | cmd/tui.go:669-675 | New state and commands are `Session.DownloadAll`. |
| `Controller.Inbox.BrowseKey` | cmd/tui.go:484-676 | New state and commands are `Session.OnBrowseKey`. |
| `Controller.Inbox.HandleKey` | cmd/tui.go:441-483 | New state and commands are `Session.OnKey` of the parsed key. |
| `Controller.Inbox.Update` | cmd/tui.go:283-689 | One event, carried out in place, gives the state and commands of `Session.Next`. The delete completions run as written. |
| `Retry.Pow2` | cmd/commands.go:386 | `math.Pow(2, k)` is at least 1. |
| `Retry.Delay` | cmd/commands.go:386 | Every wait lies between 1 s and 10 s. |
| `Retry.RetryWithBackoff` | cmd/commands.go:368-399 | The loop with its early returns gives the result, call count and waits of `Retry`. |
| `Retry.RetryFromBounds` | cmd/helpers.go:84-112 | From any attempt, calls stay within 3 and happen only where no cancellation was seen. The waits are appended, one at most per call, each `Delay` of its attempt. |
| `Retry.AttemptBound` | cmd/helpers.go:85-99 | `fn` is called at most 3 times, and never after a cancellation seen before a call. |
| `Retry.DelaySchedule` | cmd/commands.go:386-392 | The waits are `Delay(0)`, `Delay(1)`, ..., fewer than the calls and fewer than 3. |
| `Retry.DelayValues` | cmd/commands.go:22-28 | The waits are 1 s then 2 s, never decreasing and never above 10 s. |
| `Retry.MaxRetriesUnreachable` | cmd/commands.go:398 | The "max retries exceeded" return is never reached. |
| `Retry.RetryFromOutcome` | cmd/commands.go:376-395 | A success is the last call's value. A returned failure is the last call's error, rate-limit free or on the third call. A cancellation was seen. Every earlier call failed with a rate limit and its wait was not cancelled. |
| `Retry.EarlySuccess` | cmd/commands.go:376-379 | The first successful call returns its value at once, after exactly that many calls. |
| `Retry.NonRetryable` | cmd/commands.go:393-395 | An error mentioning neither "429" nor "rate limit" is returned after the call that produced it. |
| `Retry.FinalFailure` | cmd/commands.go:381-383 | A failure on the third call is returned as it is, whatever its kind. |
| `Retry.CancelledFirst` | cmd/helpers.go:86-90 | Cancellation before the first call returns the context error with no call and no wait. |
| `Retry.CancelledWhileWaiting` | cmd/commands.go:388-392 | Cancellation during the first wait returns the context error after one call and one 1 s wait. |
| `Retry.RateLimitedTwiceThenSuccess` | cmd/helpers.go:84-115 | Two "429" failures and a success take three calls and the waits 1 s, 2 s. |
| `Retry.OtherErrorOnce` | cmd/helpers.go:101-110 | A non-rate-limit failure on the first call stops after one call. |
| `Retry.CharsetSpec` | cmd/helpers.go:29 | The charset has 36 characters, all in a-z or 0-9. |
| `Retry.GenerateRandomString` | cmd/commands.go:314-324 | A failed read gives "". Otherwise the string has the requested length and character i is `charset[b_i mod 36]`. Every character is in a-z or 0-9. |
| `Downloads.ExtIndex` | cmd/tui.go:1136 | The extension starts at the last '.' of the final path element, if any. |
| `Downloads.Ext` | cmd/tui.go:1136 | `filepath.Ext` is a suffix of the name and is "" or a '.' followed by no other '.'. |
| `Downloads.TrimSuffix` | cmd/tui.go:1135 | The suffix is removed exactly when the name ends in it. |
| `Downloads.SplitExt` | cmd/tui.go:1135-1136 | Base name followed by extension is the file name. |
| `Downloads.Candidate` | cmd/tui.go:1142 | `base_N.ext` is longer than base and extension together. |
| `Downloads.CandidateInjective` | cmd/tui.go:1142-1143 | Different counters give different candidate names. |
| `Downloads.CandidateNotOriginal` | cmd/tui.go:1133-1142 | No candidate is the original file name. |
| `Downloads.ProbeName` | cmd/tui.go:1133-1144 | The chosen name is free. It is the file name itself when that is free, else `base_N.ext` with every smaller counter's name taken. |
| `HtmlText.GetAttr` | cmd/htmlconverter.go:200-207 | The value of the first attribute with the key, or "" when none has it. |
| `HtmlText.PadString` | cmd/htmlconverter.go:264-269 | Exactly `width` bytes: the text cut to the width, or the text followed by spaces. |
| `HtmlText.MaxRowLen` | cmd/htmlconverter.go:216-224 | The length of the longest row. |
| `HtmlText.MaxCell` | cmd/htmlconverter.go:216-224 | The length of the longest cell of a column. |
| `HtmlText.Widths` | cmd/htmlconverter.go:215-231 | One width per column of the longest row, each the longest cell of that column or 10 when that is larger. |
| `HtmlText.Segments` | cmd/htmlconverter.go:255-256 | A run of "─" per column, two longer than the column is wide. |
| `HtmlText.RowLines` | cmd/htmlconverter.go:234-247 | One row line per row. |
| `HtmlText.EnsureNewlineSpec` | cmd/htmlconverter.go:169-174 | Writes nothing to an empty buffer, at most one "\n", and nothing more when called twice. It touches only the buffer and `lastNewline`. |
| `HtmlText.AddTextSpec` | cmd/htmlconverter.go:151-167 | Blank text changes nothing. Other text is written collapsed to its words with single spaces, after one space only when the buffer is non-empty, not at a line end and not ending in "\n". `lastNewline` becomes false. |
| `HtmlText.ExtractRawCollapsed` | cmd/htmlconverter.go:182-198 | What a subtree's text nodes contribute has only single inner spaces. |
| `HtmlText.ExtractKidsCollapsed` | cmd/htmlconverter.go:195-197 | The same for the texts of a node's children. |
| `HtmlText.ExtractTextSpec` | cmd/htmlconverter.go:176-180 | The final trim of `extractText` changes nothing, and the text has single inner spaces. |
| `HtmlText.ExtractTwoTexts` | cmd/htmlconverter.go:187-197 | Two adjacent text nodes are collapsed and joined with nothing between them. |
| `HtmlText.EmptyTableText` | cmd/htmlconverter.go:209-212 | An empty table writes nothing. |
| `HtmlText.FramedLayout` | cmd/htmlconverter.go:234-238 | A separator goes before the first row line, and another before the second when there is one. |
| `HtmlText.TableLayout` | cmd/htmlconverter.go:209-251 | A non-empty table is a separator, the first row's line, then (with more rows) a separator and the other lines, then a final separator. |
| `HtmlText.CellsLength` | cmd/htmlconverter.go:241-245 | Every cell is padded to its column, so a row line's length depends only on the widths it uses. |
| `HtmlText.SkippedOnce` | cmd/htmlconverter.go:136-138 | With children visited once, script, style, meta and title elements write nothing. |
| `HtmlText.SkippedAsWritten` | cmd/htmlconverter.go:40-55 | As written, a script element's text is still added by `traverse`. |
| `HtmlText.ParagraphHandle` | cmd/htmlconverter.go:59-62 | `handleElement` on a paragraph of text writes the collapsed text and a newline. |
| `HtmlText.ParagraphAsWritten` | cmd/htmlconverter.go:40-55 | As written, `traverse` then adds the paragraph's text a second time. |
| `HtmlText.ParagraphTwice` | cmd/htmlconverter.go:19-30 | A bare paragraph node, walked as written, gives its text twice; visited once, once. `html.Parse` never returns a bare paragraph: `HtmlText.ParsedParagraph` states the parsed document. |
| `HtmlText.OtherTagTwice` | cmd/htmlconverter.go:40-55 | As written, an element the converter does not know walks its only child twice. Visited once, it walks that child once. |
| `HtmlText.ParsedWalk` | cmd/htmlconverter.go:40-55 | The document `html.Parse` builds around body content, walked as written, walks that content four times: html and body each double it. Visited once, it walks it once. |
| `HtmlText.ParagraphAgain` | cmd/htmlconverter.go:40-62 | As written, a paragraph after output that does not end a line adds a newline, its text, a newline and its text again. |
| `HtmlText.ParsedParagraph` | cmd/htmlconverter.go:19-30 | `htmlToText` of the parsed `<p>d</p>` gives the collapsed text eight times, one copy per line. Visited once, it gives it once. |
| `HtmlConverter.Converter.constructor` | cmd/htmlconverter.go:25-27 | A fresh converter has an empty buffer and empty table state. |
| `HtmlConverter.Converter.EnsureNewline` | cmd/htmlconverter.go:169-174 | The fields change as `HtmlText.EnsureNewline` says. |
| `HtmlConverter.Converter.AddText` | cmd/htmlconverter.go:151-167 | The fields change as `HtmlText.AddText` says. |
| `HtmlConverter.Converter.Traverse` | cmd/htmlconverter.go:40-55 | The fields end as `HtmlText.Walk` says. With `revisit` set, as written, an element's children are walked again after its own step. |
| `HtmlConverter.Converter.TraverseChildren` | cmd/htmlconverter.go:145-149 | Each child is traversed in order. |
| `HtmlConverter.Converter.HandleElement` | cmd/htmlconverter.go:57-143 | The fields change as `HtmlText.Handle` says for the element's kind. |
| `HtmlConverter.Converter.Block` | cmd/htmlconverter.go:59-62 | Paragraphs and lists: a newline if needed, the children, a newline if needed. |
| `HtmlConverter.Converter.LineBreak` | cmd/htmlconverter.go:64-66 | `<br>` appends "\n", sets `lastNewline` and keeps the table state. |
| `HtmlConverter.Converter.Heading` | cmd/htmlconverter.go:68-73 | A heading: a newline if needed, "=== ", the children, " ===\n". |
| `HtmlConverter.Converter.Wrap` | cmd/htmlconverter.go:75-83 | Bold and italic: the mark, the children, the mark. |
| `HtmlConverter.Converter.Link` | cmd/htmlconverter.go:85-92 | A link writes "[text](href)", or only the text without an href. |
| `HtmlConverter.Converter.ListItem` | cmd/htmlconverter.go:99-102 | A list item: a newline if needed, "• ", the children. |
| `HtmlConverter.Converter.TableElement` | cmd/htmlconverter.go:104-112 | A table: rows are collected from the children, then drawn, then a newline if needed. |
| `HtmlConverter.Converter.RowElement` | cmd/htmlconverter.go:114-119 | A row starts empty and is kept only when its cells gave it any. |
| `HtmlConverter.Converter.CellElement` | cmd/htmlconverter.go:121-123 | A cell appends its trimmed text to the current row, and nothing else changes. |
| `HtmlConverter.Converter.Quote` | cmd/htmlconverter.go:125-129 | A quote: a newline if needed, ">>> ", the children, a newline if needed. |
| `HtmlConverter.Converter.Rule` | cmd/htmlconverter.go:131-134 | A rule: a newline if needed, 21 "─" and "\n", with `lastNewline` set. |
| `HtmlConverter.Converter.RenderTable` | cmd/htmlconverter.go:209-251 | The buffer grows by `HtmlText.TableText` of the collected table, and nothing else changes. |
| `HtmlConverter.Converter.RenderTableSeparator` | cmd/htmlconverter.go:253-262 | The buffer grows by the separator of the widths. |
| `HtmlConverter.RowTexts` | cmd/htmlconverter.go:234-247 | The row loop's lines are `HtmlText.RowLines`, one per row, for widths that cover every row. |
| `HtmlConverter.TableRowsText` | cmd/htmlconverter.go:234-238 | The lines with a separator before rows 0 and 1. |
| `HtmlConverter.RowText` | cmd/htmlconverter.go:240-246 | A row line is "│ ", each cell padded to its column and followed by " │ ", then "\n". |
| `HtmlConverter.SeparatorText` | cmd/htmlconverter.go:254-261 | "├", the runs of "─" joined by "┼", then "┤\n". |
| `HtmlConverter.ColumnWidths` | cmd/htmlconverter.go:215-231 | The width loops give one width per column of the longest row: the longest cell, raised to 10. |
| `HtmlConverter.WidenColumns` | cmd/htmlconverter.go:217-223 | One row widens each column to its cell when that is longer and adds a column for each cell past the last one. |
| `HtmlConverter.RaiseWidths` | cmd/htmlconverter.go:227-231 | Every width becomes at least 10 and otherwise stays. |
| `HtmlConverter.HtmlToText` | cmd/htmlconverter.go:19-30 | A fresh converter walks the document, and the trimmed buffer is `HtmlText.HtmlToText`. |
| `HtmlConverter.HtmlToTextOnce` | cmd/htmlconverter.go:19-30 | The same with the corrected walk gives `HtmlText.HtmlToTextOnce`. |
| `Envelope.Draw` | storage/encryption.go:25-26 | A successful read fills the buffer, one given byte per position. |
| `Envelope.Split` | storage/encryption.go:62-64 | The 32-byte salt, the 12-byte nonce and the rest concatenate back to the input. |
| `Envelope.SplitJoin` | storage/encryption.go:49-64 | Splitting salt ++ nonce ++ ciphertext recovers exactly the three parts. |
| `Envelope.EncryptWith` | storage/encryption.go:24-55 | A failed salt or nonce read gives an error and no output. Success gives salt ++ nonce ++ ciphertext, of length 44 plus the ciphertext. |
| `Envelope.Encrypt` | storage/encryption.go:24-55 | Building the result by appends gives exactly `EncryptWith`. |
| `Envelope.Decrypt` | storage/encryption.go:57-79 | "invalid encrypted data" comes exactly for input under 44 bytes. A success is what opening the stored ciphertext gives under the key from the password and stored salt. |
| `Envelope.EncryptSucceeds` | storage/encryption.go:25-45 | Encryption succeeds exactly when both reads succeed and the derived key has an AES length. |
| `Envelope.RoundTrip` | storage/encryption.go:20-79 | Decrypting with the same password gives the plaintext back, for any plaintext. This holds when the key is 32 bytes and opening undoes sealing. |
| `Envelope.WrongPassword` | storage/encryption.go:66-78 | Decrypting with another password fails whenever opening under that password's key rejects the sealed text. |
| `Envelope.NotPlaintext` | storage/encryption.go:49-54 | The envelope never equals the plaintext while the ciphertext is at least as long. |

## Left out

- Network and storage are not part of this model: the HTTP client, the
  keyring and file storage, the cobra commands and their printing. They only
  call the retry policy and the envelope.
- Screen rendering is not modelled: `View`, styles, the help and dialog
  screens, and the viewport text of a detail screen. The table, viewport,
  text input and spinner widgets are reduced to a cursor, a query, sizes and
  rows.
- The table and viewport widgets run their own key handling after keys the
  switch does not return on. That handling is not modelled.
- The `o` key (`openInBrowser`), clipboard writes and the download goroutines
  are side effects. They are not modelled; only their status messages are.
- `saveCache` and `loadCache` are file and JSON I/O. The start-up cache read
  and the clock are parameters of the constructor.
- `time.Sleep` in the error handler, `time.Now` and `lastUpdate` are left out.
- Date formatting and the kilobyte size display use time and floating-point
  formatting, so they are left out: dates are integer cells.
- Lower-casing is ASCII only. Go's Unicode case folding is not modelled.
- `Render.SortBy`: `sort.Slice` is unstable and its tie order is unspecified.
  The model sorts by insertion and promises only a sorted permutation.
  `Render.SortedByDateUnique` shows ties are the only freedom.
- `Controller.Inbox.CollectSelected` and `Controller.Inbox.SelectedIdList`:
  Go iterates over `selectedItems` in map order. The id set does not depend on
  that order. The bulk-delete command's id list is built in index order.
- `Session.EditQuery`: the search box is reduced in three ways. It appends
  only ASCII `' '` to `'~'`, as bytes, where the text input also inserts
  other runes and pasted text. Its limit of 100 counts bytes, where the text
  input counts runes. It edits only at the end, with backspace, where the text
  input edits at its cursor (left and right, ctrl+h, ctrl+w, ctrl+u).
- `Controller.Inbox.UpdateColumnWidths`: the intermediate `SetRows([])` before
  the new columns is not modelled, because the rows are replaced right after.
- `Session.BulkDeleteCapacity`: the panic itself is not modelled. The model
  computes the capacity, and the completion carries on as if `make` had
  succeeded (Findings).
- `Bytes.IsSpace`: whitespace is ASCII only (space, tab, newline, vertical tab,
  form feed, carriage return). Go's `unicode.IsSpace` also counts U+0085,
  U+00A0 and the other Unicode spaces. So `TrimSpace` and `Fields` in
  `addText`, `extractText` (cmd/htmlconverter.go:153, 159, 188-190), the final
  `TrimSpace` of `htmlToText`, and `truncate` (cmd/tui.go:914) do not strip
  those characters in the model.
- The download probe works over a finite set of existing names. `os.Stat`,
  `filepath.Join`, the directory lookup and `os.WriteFile` are not modelled.
- `Downloads.ProbeName`: an empty file name is probed as `""`. Go's
  `filepath.Join(dir, "")` is the downloads directory itself, which `os.Stat`
  finds, so Go goes on to `_1`; the model returns `""` unless `""` is in
  `existing`. Names that `filepath.Join` would clean (`..`, separators) are
  likewise probed as given.
- `NewGCM` errors are not modelled, because it never fails on an AES block.
  PBKDF2, AES-GCM and `crypto/rand` are given as function values: the derived
  key, the seal and open functions, and the read bytes.
- `html.Parse` and its fallback to the raw string are not modelled. The
  converter starts from a parsed node tree. A nil node cannot occur in the tree.
- `HtmlConverter.Converter.HandleElement`: the cases of the one Go switch are
  separate methods, one per element kind. The walking methods take a `revisit`
  flag that the Go code does not have. `true` is the code as written and
  `false` the corrected walk of the second finding.
- `HtmlConverter.Converter.RenderTable`: each row line is built in full and then
  appended, where Go appends it piece by piece. The buffer ends the same.
- `HtmlText.RowLines` states only the line count. Each line's content is stated
  by `HtmlConverter.RowText`.
- Generated names are not modelled as random or unique.

## Findings

| source | as written | input that shows it | evidently intended | confidence | as-written member | corrected member |
|---|---|---|---|---|---|---|
| cmd/tui.go:375-419 | Neither delete completion clears `loading`, which `executeConfirmedAction` set (cmd/tui.go:998, 1010). The spinner keeps running, and since a tick only reloads when nothing is loading, auto-refresh stays off until a manual refresh ("r"), a fetched message or an error clears `loading` (cmd/tui.go:313, 325, 428). | Confirm "y" on a single delete, then the `messageDeletedMsg` completion, then a tick: the tick issues only the re-arm. | The completion ends the request by clearing `loading`, as the other completions do, so auto-refresh resumes. | not executed | `SessionLaws.DeleteLeavesLoadingAsWritten` | `SessionLaws.DeleteResumesRefresh` |
| cmd/htmlconverter.go:40-55 | `traverse` calls `handleElement`, which already walks the element's children, then walks them again. An element's subtree is walked twice, so text inside k such elements comes out 2^k times. The children of script, style, meta and title still reach `addText`, despite the skip at lines 136-138. | `<p>hi</p>`, parsed as html, then body, then p, converts to "hi" eight times, one per line. `<script>x</script>` is parsed into head, and its text still comes out. | Each child is visited once: by `handleElement` for elements, by `traverse` only for other nodes. Skipped elements write nothing. | not executed | `HtmlText.ParsedParagraph` | `HtmlText.SkippedOnce` |
| cmd/tui.go:386 | The bulk-delete completion reserves `len(m.messages)-deletedCount` slots, where `deletedCount` counts every selected index, in range or not. `make` panics on a negative capacity. | On an empty inbox press "v", " ", "d", "y". Index 0 is selected, the request carries no ids and is answered at once, and the capacity is 0 - 1. | The capacity is the number of surviving messages, which is never negative. | not executed | `SessionLaws.EmptyInboxBulkDeletePanics` | `SessionLaws.BulkDeletedFits` |
