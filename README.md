# CopTrack core in Dafny

CopTrack is a police records application for the district stations of Ajmer.
This project models the part of it that holds and changes data, and proves
properties about that model.

- **The in-browser back end** (`services/api.ts`). This is one in-memory
  database: stations, users, passwords, register records, chat messages,
  notifications, and duty charts stored under per-station keys. The model
  covers:
  - the fixed catalogue of registers and the first-run seed data;
  - sign-in, registration, profile and station changes;
  - record reading and writing, scoped to the caller's station;
  - the monthly report of pending cases by crime head;
  - the duty-chart store;
  - notifications and chat.
- **The register page** (`pages/RegisterDetailsPage.tsx`). This covers:
  - the choices of a select field taken from another register;
  - the new-record form and the choice between add and update;
  - the table search and the column sort.
- **The duty chart page** (`pages/DutyChartPage.tsx`): editing a card's
  officers, and the greedy two-column layout of the cards beside the
  personnel list.
- **The seed duty chart** (`services/dutyData.ts`), flattened from display
  rows.
- **The translation function `t`** (`contexts/LanguageContext.tsx`).
- **The notification bell** (`components/notifications/NotificationWidget.tsx`):
  relative times, when opening the list marks notifications read, and the
  unread badge.

## How the model is organised

- **State.** The database is the class `Store.Database`.
  - It has one field per collection: `seq` for the lists, `map` for the
    passwords and the duty charts.
  - It has two ghost fields. `saved` is the snapshot that `persistDatabase`
    last wrote. `events` logs every window event the back end dispatches.
  - `Valid()` says every user has a stored password. The first start
    establishes it, a later start has it exactly when the stored data does,
    and every method keeps it. No operation's result depends on it: `login`
    compares the input with `passwords[ssoId]`, and a missing entry simply
    fails that comparison.
- **Decisions.** What each back-end operation decides is a pure function on
  the collections, in the modules `Accounts`, `Records`, `Reports` and
  `Messaging`. Each method of `Database` is proved to apply that function
  and to change nothing else.
- **Records** are JavaScript object bags: `map<string, Value>`. Map union is
  right-biased like object spread, so the key-order rules of `addRecord` and
  `updateRecord` hold exactly.
- **Sorting.** The record table's `sort` and the option list's `sort` are
  ECMAScript's stable sort. It is specified as a stable insertion sort
  (`Seqs.Sort`) and done in place on an array by `Seqs.SortInPlace`.
- **Loops become methods.** Each place where the source builds its result
  step by step is a method with a loop, proved equal to its specification
  function:
  - the duty-chart layout `forEach` and the row starts;
  - the flattening of the seed duty rows;
  - the substitution `forEach` of `t`;
  - the read-marking `forEach` loops;
  - the unread-count tally;
  - the fetching of dynamic options.
- **Outside inputs are parameters:** the clock (`now`), the parsing of
  `dateRegistered` (`dateOf`), and the file-to-data-URI encoding (`encode`).

`updateRecord` (services/api.ts:443-458) does not keep a record's station
and register fixed: the update data is spread over the stored record, so a
`stationId` or `registerId` in it overwrites the stored one.
`Records.UpdateCanMoveRecord` exhibits the move. Generated ids come from the
millisecond clock (`rec_<now>`, `user_<now>`, `msg_<now>`, `notif_<now>`), so
two records, users, messages or notifications created in the same
millisecond share one id; the model derives ids the same way.

## Model

| member | source | states |
|---|---|---|
| Catalog.FindRegister | services/api.ts:58-213 | the register with an id, found exactly when one of the catalogue's registers has it |
| Catalog.RegisterIdsDistinct | services/api.ts:58-213 | no two registers of the catalogue share an id |
| Catalog.ChoicesTranslated | services/api.ts:58-213 | every select field has as many Hindi choices as English ones |
| Catalog.DynamicChoiceSources | services/api.ts:176-190 | the only field whose choices come from another register is the duty register's `officerId`, which lists the posting list's `officerName` values |
| Store.SeedAccountsSignIn | services/api.ts:265-286 | the seeded admin signs in with the seeded password by email and by SSO id; the inspector's account with the admin's password does not |
| Store.Database.constructor | services/api.ts:229-310 | a first start holds exactly the seed stations, users, passwords, records and notifications, no chat and no chart; the seed is persisted and no event is sent |
| Store.Database.Restore | services/api.ts:216-227 | a later start holds exactly the stored collections, and the invariant that every user has a stored password holds exactly when it holds of the stored data |
| Accounts.Login | services/api.ts:317-328 | sign-in succeeds only for the first user whose SSO id or email is the input, and only with that user's password; a non-admin also needs an existing active station, whose name is then recorded on the user; any failure gives no user |
| Store.Database.Login | services/api.ts:317-328 | applies `Accounts.Login`; on success only the signed-in user's entry changes, and nothing is persisted or sent |
| Accounts.DeactivationBlocksLogin | services/api.ts:317-328 | after a station is deactivated, none of its non-admin users can sign in |
| Accounts.ReactivationRestoresLogin | services/api.ts:317-328 | after a station is reactivated, its non-admin users sign in with their passwords again |
| Accounts.RegisterUser | services/api.ts:330-344 | registration fails with "already exists" exactly when some user has the SSO id or the email; otherwise `Accounts.NewUser` of the form is appended and returned, and the password is stored under the SSO id, with other passwords unchanged |
| Accounts.NewUser | services/api.ts:335-338 | the new user has the id `user_<now>` and the form's SSO id, email, name, mobile, designation, role, station and password |
| Accounts.RegisteredUserCanLogin | services/api.ts:317-344 | a newly registered user whose SSO id is not another user's email, and whose station exists and is active, signs in as the new last user |
| Store.Database.RegisterUser | services/api.ts:330-344 | applies `Accounts.RegisterUser`, persisting only on success; keeps every user's SSO id in the password table |
| Accounts.ApplyUpdates | services/api.ts:346-376 | field by field, a supplied name, email, role, station id, station name, mobile or designation replaces the stored one and an absent one keeps it; the id, the SSO id and the password never change |
| Accounts.ProfileUser | services/api.ts:366-372 | a supplied non-empty station name wins; otherwise a non-admin's station name is looked up from the station id; for an admin, or when the station is not found, the updated user is returned as merged |
| Accounts.UpdateUserProfile | services/api.ts:346-376 | an unknown user, a new password without the current one, and a wrong current password each fail with their own error; otherwise only that user changes, and the password changes only when a new one is given |
| Accounts.PasswordChangeTakesEffect | services/api.ts:356-364 | after a successful password change the new password matches and the old one no longer does |
| Accounts.NoNewPasswordNoCheck | services/api.ts:356-364 | with no new password the current one is not checked and the password table is untouched |
| Store.Database.UpdateUserProfile | services/api.ts:346-376 | applies `Accounts.UpdateUserProfile`, persisting only on success |
| Accounts.FindStation | services/api.ts:321 | the station with the id, absent exactly when no station has it |
| Accounts.UpdateStationStatus | services/api.ts:382-390 | an unknown station fails; otherwise only the first station with the id changes, and only its active flag |
| Accounts.StatusUpdateFound | services/api.ts:382-390 | after the update, looking the station up gives it with its new flag and its old name |
| Store.Database.UpdateStationStatus | services/api.ts:382-390 | applies `Accounts.UpdateStationStatus`, persisting only on success |
| Accounts.AllUsers | services/api.ts:392-397 | every user is listed in order with a station name: "N/A (Admin)" without a station, the station's name when it has one, "N/A" otherwise |
| Records.GetRecords | services/api.ts:399-417 | nothing for an admin or a user without a station; otherwise exactly the stored records of the user's station, register and year that match every filter |
| Records.GetRecordsAppend | services/api.ts:399-417 | the result keeps storage order: one more stored record adds at most that record, at the end |
| Records.GetAllRecordsForRegister | services/api.ts:419-424 | nothing for an admin; otherwise exactly the records of the user's station and register, whatever their year |
| Records.GetRecordsWithinAll | services/api.ts:399-424 | a year's records are among the register's records |
| Records.NewRecord | services/api.ts:426-441 | the new record has the data's keys plus id, year, station and register; the station and register are always the caller's, and a supplied id or year wins over the generated `rec_<now>` |
| Records.AddRecord | services/api.ts:426-441 | an admin or a user without a station is refused; otherwise the result is `Records.NewRecord` for the caller's station, the given register, the data and the clock |
| Records.AddRecordIsolation | services/api.ts:419-441 | a record added by one station's user never appears in another station's registers |
| Store.Database.AddRecord | services/api.ts:426-441 | applies `Records.AddRecord`: the record is appended and persisted on success, and nothing changes otherwise |
| Records.IndexOfId | services/api.ts:447 | the first stored record with the id, searched across all registers; absent exactly when none has it |
| Records.Merge | services/api.ts:454 | `{...stored, ...data}`: the data's fields win, and the stored record's other fields stay |
| Records.UpdateRecord | services/api.ts:443-458 | an admin, an unknown id and another station's record each fail with their own error; otherwise only that record changes, to the merge |
| Records.UpdateRecordIsolation | services/api.ts:443-458 | an update that does not set `stationId` leaves every other station's records alone and keeps the record in the caller's station |
| Records.UpdateCanMoveRecord | services/api.ts:443-458 | an update whose data carries another `stationId` moves the record to that station |
| Store.Database.UpdateRecord | services/api.ts:443-458 | applies `Records.UpdateRecord`, persisting only on success |
| Records.DeleteRecord | services/api.ts:460-474 | an admin and another station's record fail; an unknown id changes nothing without an error; otherwise exactly that record is removed |
| Records.DeleteRemovesOne | services/api.ts:460-474 | a deletion removes one copy of a record of the caller's station and keeps all others |
| Store.Database.DeleteRecord | services/api.ts:460-474 | applies `Records.DeleteRecord`, persisting only when a record was removed |
| Reports.MonthIndex | services/api.ts:523-528 | a month name is found whatever its case, and is unknown exactly when its lower-case form is not one of the twelve names |
| Reports.PendingCases | services/api.ts:530-536 | exactly the station's pending crime-register cases registered in that year and month |
| Reports.Tally | services/api.ts:538-551 | one row per crime head, in report order, with a zero count exactly when no case counts under that head |
| Reports.TallyEmpty | services/api.ts:538-551 | with no cases every head counts zero |
| Reports.TallyAppend | services/api.ts:538-551 | one more case raises exactly the heads it counts under by one, so each head's count is the number of cases under it |
| Reports.MurderCaseCounted | services/api.ts:481-551 | a single case under section 302 gives the murder row, in English and Hindi, a count of 1 |
| Reports.HeadPosition | services/api.ts:493-504 | the position of a head's title in the report order, absent exactly when no head has that title |
| Reports.HeadPositionOfTitle | services/api.ts:493-504 | each head's title is found at that head's own position, since no two heads share a title |
| Reports.Reported | services/api.ts:553 | the report keeps only rows of the tally, each with a positive count, and every tally row with a positive count |
| Reports.ReportedInOrder | services/api.ts:538-553 | the kept rows follow the heads' order, with no head twice |
| Reports.ReportInHeadOrder | services/api.ts:522-554 | the report's rows are tally rows in strictly increasing head order, so no head appears twice |
| Reports.PendingCasesByCrimeHead | services/api.ts:522-554 | an unknown month gives an empty report; otherwise the report keeps exactly the heads with a positive count, at most ten |
| Reports.MonthCaseInsensitive | services/api.ts:522-528 | the report is the same for a month name and its lower-case form |
| Reports.OtherRecordsIgnored | services/api.ts:530-536 | a record that is not a pending case of the station and month does not change the report |
| Reports.EmptySectionLeavesTally | services/api.ts:506-520 | a case with an empty section counts under no head |
| Reports.Section380CountsTwice | services/api.ts:481-510 | section 380 counts as both burglary and theft, and never as other IPC |
| Reports.OtherIpcExactlyUnmatched | services/api.ts:512-520 | a case counts as other IPC exactly when its section is non-empty and matches none of the nine heads |
| Store.ChartKeysDistinct | services/api.ts:561 | two chart keys are equal only for the same station and date, when the dates have no underscore |
| Store.LoadChart | services/api.ts:557-570 | no chart without a user with a station; a stored chart is returned unchanged; otherwise the seed chart, dated with the requested date, is returned and stored |
| Store.SaveChart | services/api.ts:573-583 | a user without a station is refused; otherwise the chart is stored under the user's station and date |
| Store.SavedChartLoads | services/api.ts:557-583 | a chart that has been saved is the one loaded afterwards |
| Store.LoadChartStable | services/api.ts:557-570 | loading twice gives the same chart |
| Store.ChartsOfStationsApart | services/api.ts:557-583 | saving one station's chart never changes what another station loads |
| Store.Database.GetDutyChart | services/api.ts:557-570 | applies `Store.LoadChart` to the chart store and changes nothing else |
| Store.Database.UpdateDutyChart | services/api.ts:573-583 | applies `Store.SaveChart` to the chart store and changes nothing else |
| Messaging.NewNotification | services/api.ts:586-598 | the notification is the data given, unread, with the id `notif_<now>` and stamped `now` |
| Store.Database.AddNotification | services/api.ts:586-598 | the notification is appended and persisted, and one new-notification event carries it |
| Messaging.NotificationsForSpec | services/api.ts:600-602 | a user's notifications are exactly theirs, newest first |
| Messaging.MarkedReadSpec | services/api.ts:604-616 | afterwards none of the user's notifications is unread, nothing changes when none was, and other users' notifications are untouched |
| Messaging.ListedIsStored | services/api.ts:600-602 | everything a user's listing shows is one of that user's stored notifications |
| Messaging.NoUnreadAfterMarkRead | services/api.ts:600-616 | after marking read, the user's list has no unread entry |
| Store.Database.MarkNotificationsAsRead | services/api.ts:604-616 | the loop marks the user's notifications read; it persists and sends one event only when one of them was unread |
| Messaging.ClearedFor | services/api.ts:618-625 | exactly the other users' notifications remain, and the list shrinks exactly when the user had one |
| Messaging.ClearedForSpec | services/api.ts:618-625 | the remaining list is the others' notifications in stored order: clearing distributes over concatenation, keeps a single other user's notification and drops the user's own, and keeps each other notification as many times as it was stored |
| Store.Database.ClearAllNotifications | services/api.ts:618-625 | the user's notifications are removed; it persists and sends one event only when the list shrank |
| Messaging.ChatHistorySpec | services/api.ts:629-635 | the history is exactly the messages between the two users, oldest first, and the same whichever user asks |
| Messaging.NewMessage | services/api.ts:650-668 | a message with no text and no file is refused; otherwise the stored message is unread, stamped `now`, with the text as given and the file's data URI, name and type |
| Messaging.ChatNotes | services/api.ts:672-684 | a sent message adds one unread chat notification for the recipient exactly when some user has the sender's id, and none otherwise |
| Messaging.ChatNotification | services/api.ts:672-681 | the recipient's chat notification reads "New message from" and the sender's name |
| Store.Database.SendMessage | services/api.ts:650-690 | on success the message is appended, with a chat notification first when the sender is known; both are persisted, and the events come in that order |
| Messaging.MarkMessagesReadSpec | services/api.ts:692-704 | afterwards nothing from the other user to the current one is unread, unread counts from other senders are unchanged, and nothing changes when nothing was unread |
| Messaging.UnreadAfterSend | services/api.ts:650-714 | a sent message raises the recipient's unread count from the sender by one |
| Store.Database.MarkMessagesAsRead | services/api.ts:692-704 | the loop marks that conversation's unread messages read; it persists and sends one event only when one was unread |
| Messaging.UnreadCountMapSpec | services/api.ts:706-714 | the tally built message by message holds exactly the senders with unread messages to the user, each with its number |
| Messaging.UnreadCounts | services/api.ts:706-714 | the tally has a sender exactly when something from them is unread, with that number |
| Store.Database.GetUnreadMessageCounts | services/api.ts:706-714 | the same, on the stored messages |
| DutyData.RowCards | services/dutyData.ts:107-115 | a row contributes its column-1 card, then its column-2 card, each only when present |
| DutyData.FlattenAssignments | services/dutyData.ts:106-115 | the `forEach` builds exactly `DutyData.Cards` of the rows |
| DutyData.CardsAppend | services/dutyData.ts:107-115 | cards are listed row by row, in row order |
| DutyData.CardlessRow | services/dutyData.ts:108-115 | a row without assignments adds no card |
| DutyData.CardsComeFromRows | services/dutyData.ts:107-115 | every card is the content of some row's card |
| DutyData.CardsIgnoreSpans | services/dutyData.ts:110-113 | rows that have the same assignments present, with the same contents, give the same cards, whatever their spans and personnel |
| DutyData.PersonnelOf | services/dutyData.ts:106 | one personnel entry per row, in row order |
| DutyData.SeedChartShape | services/dutyData.ts:117-127 | the exported chart has the fixed date and 41 people, numbered 1 to 41 |
| RegisterPage.DynamicFields | pages/RegisterDetailsPage.tsx:40-42 | exactly the select fields with both a source register and a display field |
| RegisterPage.OptionsDistinctSorted | pages/RegisterDetailsPage.tsx:50-54 | a field's choices have no repeats and are in text order |
| RegisterPage.OptionsMembership | pages/RegisterDetailsPage.tsx:50-54 | a value is a choice exactly when it is truthy and is the display field of one of the user's source-register records |
| RegisterPage.OptionsMapKeys | pages/RegisterDetailsPage.tsx:46-56 | the map has an entry exactly for each dynamic field's id |
| RegisterPage.OptionsMapEntry | pages/RegisterDetailsPage.tsx:46-56 | each field's entry is its own choices; a later field with the same id wins |
| RegisterPage.FetchDynamicOptions | pages/RegisterDetailsPage.tsx:37-61 | nothing is fetched without a user or without a dynamic field; otherwise the loop builds the option map |
| RegisterPage.DefaultFormState | pages/RegisterDetailsPage.tsx:25-35 | a new form has exactly the schema's field ids, all empty |
| RegisterPage.InitialForm | pages/RegisterDetailsPage.tsx:25-35 | editing starts from the stored record, a new record from the empty form |
| RegisterPage.Submission | pages/RegisterDetailsPage.tsx:72-76 | the submitted record is the form with `year` set to the current year |
| RegisterPage.ChooseSave | pages/RegisterDetailsPage.tsx:189-199 | a record with a truthy id is updated under that id, and any other is added |
| RegisterPage.NewFormIsAdded | pages/RegisterDetailsPage.tsx:189-199 | a new form is always added, never updated |
| RegisterPage.EditedFormUpdates | pages/RegisterDetailsPage.tsx:189-199 | an edited record is updated under its own id |
| RegisterPage.AddedRecordIsListed | pages/RegisterDetailsPage.tsx:189-199 | a record added from the form is in the reloaded list for the current year |
| RegisterPage.HandleSaveRecord | pages/RegisterDetailsPage.tsx:189-199 | saving adds or updates through the database and reloads the year's list; without a user with a station nothing happens; only the records change, the save is persisted exactly when it succeeds, and no event is sent |
| RegisterPage.Search | pages/RegisterDetailsPage.tsx:210-214 | exactly the records with a field whose text contains the term, ignoring case |
| RegisterPage.EmptySearchKeepsAll | pages/RegisterDetailsPage.tsx:210-214 | an empty search keeps every record that has a field |
| RegisterPage.SearchIgnoresCase | pages/RegisterDetailsPage.tsx:210-214 | searching for a term or its lower-case form gives the same list |
| RegisterPage.RequestSort | pages/RegisterDetailsPage.tsx:230-236 | sorting a column is descending exactly when it was ascending on that column |
| RegisterPage.RequestSortToggles | pages/RegisterDetailsPage.tsx:230-236 | clicking a column again flips the direction, so a third click restores the first |
| RegisterPage.ByKeyWeakOrder | pages/RegisterDetailsPage.tsx:216-225 | the column comparator is a strict weak order in both directions |
| RegisterPage.TableViewSpec | pages/RegisterDetailsPage.tsx:209-228 | the table is a permutation of the search result: unchanged without a sort, and otherwise ordered by the column in the chosen direction, with records of equal keys in their search order |
| Seqs.SortStable | pages/RegisterDetailsPage.tsx:216-225 | the sort is stable: the elements tied with any one element appear in the same order as before |
| Seqs.FilterKeepsOrder | services/api.ts:553 | filtering keeps a strictly increasing key strictly increasing |
| RegisterPage.FilterAndSort | pages/RegisterDetailsPage.tsx:209-228 | the array sort gives exactly the table view |
| Seqs.SortInPlace | pages/RegisterDetailsPage.tsx:216-225 | the in-place sort of the array leaves the stable sort of its old contents |
| DutyPage.ParseOfficers | pages/DutyChartPage.tsx:18-20 | the officers are exactly the non-blank lines of the text, untrimmed |
| DutyPage.EditRoundTrip | pages/DutyChartPage.tsx:18-27 | reading back the joined officer list gives the same list, when no officer is blank or holds a line feed |
| DutyPage.BlankLineDropped | pages/DutyChartPage.tsx:18-20 | a blank line in front changes nothing |
| DutyPage.UpdateAssignment | pages/DutyChartPage.tsx:86-99 | every card with the title gets the new officers and nothing else changes; a missing chart stays missing |
| DutyPage.UpdateIdempotent | pages/DutyChartPage.tsx:86-99 | repeating an edit changes nothing more |
| DutyPage.UpdatesCommute | pages/DutyChartPage.tsx:86-99 | edits of different titles can be made in either order |
| DutyPage.CardsOf | pages/DutyChartPage.tsx:111-114 | one card per assignment, in order, spanning 2 rows plus one per officer |
| DutyPage.Balance | pages/DutyChartPage.tsx:116-129 | the loop gives the greedy layout: every card in exactly one column in order, the heights adding up to the total span, and differing by at most the largest span |
| DutyPage.InterleavingPartition | pages/DutyChartPage.tsx:116-129 | splitting into two columns keeps every card exactly once |
| DutyPage.LayoutInterleaves | pages/DutyChartPage.tsx:116-129 | each column keeps the cards' relative order |
| DutyPage.LayoutHeights | pages/DutyChartPage.tsx:118-129 | each column's height is the sum of its spans, and together they are the total span |
| DutyPage.LayoutBalanced | pages/DutyChartPage.tsx:118-129 | the two heights differ by at most the largest span |
| DutyPage.PlacedByHeights | pages/DutyChartPage.tsx:121-128 | a card ends up in column 1 exactly when column 1 was not taller before it, and otherwise in column 2 |
| DutyPage.FirstCardLeft | pages/DutyChartPage.tsx:121-128 | the first card heads column 1 |
| DutyPage.GridRowCount | pages/DutyChartPage.tsx:131 | the row count is one more than the largest of the personnel count and the two heights |
| DutyPage.RowStarts | pages/DutyChartPage.tsx:202-235 | block i of a column starts at row 2 plus the spans of the blocks before it |
| DutyPage.BlocksAbut | pages/DutyChartPage.tsx:202-235 | each block ends where the next begins, with no overlap and no gap |
| DutyPage.GridHoldsEverything | pages/DutyChartPage.tsx:131-235 | every person's row and every block fit within the grid's rows |
| Language.Entry | contexts/LanguageContext.tsx:55 | a missing or empty translation gives the key |
| Language.T | contexts/LanguageContext.tsx:47-62 | the key while loading or without a table for the language; otherwise the entry with the variables substituted |
| Language.SubstituteAppend | contexts/LanguageContext.tsx:57-60 | substitutions compose: a list of variables is applied as its first part, then the rest |
| Language.OneAtATime | contexts/LanguageContext.tsx:57-60 | the first variable is replaced everywhere before the next is applied |
| Language.NoPlaceholderUnchanged | contexts/LanguageContext.tsx:47-61 | a text without a placeholder of any supplied variable comes back unchanged, with no variables at all or with placeholders no one supplied |
| Language.FillOne | contexts/LanguageContext.tsx:57-60 | a single `{name}` is replaced by the value's text, and the rest of the entry is kept |
| Language.Translate | contexts/LanguageContext.tsx:47-62 | the `forEach` gives exactly `t` |
| NotificationWidget.Elapsed | components/notifications/NotificationWidget.tsx:17-18 | the elapsed whole seconds, rounded down |
| NotificationWidget.Format | components/notifications/NotificationWidget.tsx:16-31 | the bucket is the largest unit the seconds strictly exceed, otherwise just now; counts are at least 1, and at most 12 months, 30 days, 24 hours or 60 minutes |
| NotificationWidget.CountIsWholeUnits | components/notifications/NotificationWidget.tsx:20-29 | the count is the number of whole units elapsed |
| NotificationWidget.BucketEdges | components/notifications/NotificationWidget.tsx:20-30 | exactly 60 seconds is just now, 61 is one minute, exactly a day is 24 hours, and the future is just now |
| NotificationWidget.OlderReadsOlder | components/notifications/NotificationWidget.tsx:16-31 | an older notification never reads as more recent than a newer one |
| NotificationWidget.Toggle | components/notifications/NotificationWidget.tsx:49-54 | a click flips the list, and marks read exactly when a closed list opens with unread notifications |
| NotificationWidget.ToggleTwice | components/notifications/NotificationWidget.tsx:49-54 | opening then closing restores the list and marks read at most once |
| NotificationWidget.BadgeFor | components/notifications/NotificationWidget.tsx:69-73 | hidden at 0, the digit up to 9, "9+" above |
| NotificationWidget.BadgeDistinguishesSmallCounts | components/notifications/NotificationWidget.tsx:69-73 | two counts give the same badge exactly when they are equal or both above 9 |

## Left out

- The `localStorage` store and JSON (de)serialisation are not modelled (services/api.ts:8-24). `persistDatabase` copies the state into the ghost `saved` snapshot. A start from stored data takes the stored collections as given, and the fallback to defaults on a parse error is not modelled.
- The `activity_logs` collection (seeded and persisted) and `getActivityLogs` are not modelled. No core operation reads or changes the log.
- `getOnlineUsers` is not modelled. It returns a hard-coded list.
- `getAllStations` is not modelled. It returns the field as it is.
- Window event delivery to listeners is not modelled. Each `dispatchEvent` is recorded in the ghost `events` log, in order.
- `Date.now()` is a parameter. `sendMessage` reads the clock twice, for the message and for the notification; these are the two parameters `now` and `notifiedAt`. Elsewhere consecutive reads are taken as one instant.
- The parsing of `dateRegistered` in the report is a parameter `dateOf`, and so are the browser's `Date` and `toISOString`.
- `FileReader` is a parameter `encode`: the data URI of an attachment.
- Messaging.NewMessage: `encode` is total, so a failed file read (services/api.ts:636-642, where `reader.onerror` rejects and the send stops before anything is stored) is not modelled.
- The async interleaving of the `await`s is not modelled. Each operation runs to completion.
- JSX rendering, routing, the session in `AuthContext`, the translation `fetch`, the export utilities, `EmcrReportPage` and `emcrData` are not part of this model.
- Store.SeedAccountsSignIn: does not state that the seeded inspector signs in with their own password; the admin's sign-in and the refusal of a wrong password are stated, and the inspector's success, which depends on finding the inspector's station active among the 32 seed stations, is left out.
- Strings.Lower: lower-cases ASCII letters only, not the full Unicode mapping of `toLowerCase`. Case-insensitive search and month names are exact for ASCII text.
- Strings.StrLt: compares strings by code point, not by UTF-16 code unit. The two orders differ only for characters outside the Basic Multilingual Plane.
- Values.ValueLt: on values of different kinds (say a number and a string), JavaScript's `<` converts them. The model orders them by kind instead, so the table sort is a total, stable order. On values of one kind it is JavaScript's `<`.
- Reports.SectionOf: a missing `section` reads as empty, as in the source. A number or boolean section also reads as empty here, whereas the source's `includes` would throw on it.
- Records.GetRecords: absent `filters` are the empty object, which selects the same records. A filter value compares with `===`, and the model's values are all primitives, so object identity does not arise.
- Language.T: a variable name is matched literally. `new RegExp('{name}')` reads regular-expression metacharacters in a name, and `$` patterns in the replacement text, specially; neither is modelled. Numbers are integers.
- RegisterPage.EmptySearchKeepsAll: a record with no fields at all is dropped even by an empty search, because `some` over no values is false. The lemma requires every record to have a field.
- DutyPage: the Hindi title shown, and the `JSON.parse(JSON.stringify(...))` copy made when editing starts, are not modelled. The edit start, cancel and save handlers only switch between the stored chart and the edited one, which `Store.Database.UpdateDutyChart` saves.
