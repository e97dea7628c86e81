# University event management: data layer and main-window logic

A Dafny model of the core of a Java Swing desktop application that keeps
university events (name, date, venue, organizer, participant list) and user
accounts in two pipe-separated text files. It covers:

- **Events** (`event.dfy`, module `EventModel`): the `Event` class with its
  mutable fields, the setters, `addParticipant` and `getParticipantCount`.
  The static `idCounter` is an explicit `IdCounter` object (starting at 1)
  that every event construction advances.
- **File formats** (`database.dfy`, modules `Database`, `UsersFile`,
  `Backups`): the `id|name|dd/MM/yyyy|venue|organizer|p1,p2,...` event
  line, the `username|password` user line, the line-by-line loaders with
  their skipping rules, the writers, the default users, the dated backup
  names and the line-by-line file copy. A file is a `string`; reading splits
  it into lines the way `BufferedReader.readLine` does (`text.dfy`),
  writing ends each line with `"\n"` (the line separator of Unix-like
  systems).
- **CSV export** (`csv.dfy`, modules `Rfc4180`, `CsvExport`): `escapeCsv`
  and the export row format, with a reader following section 2 of RFC 4180
  to state what escaping preserves.
- **Dates** (`dates.dfy`): `dd/MM/yyyy` parsing and formatting with
  `java.time`'s calendar rules and the `yyyyMMdd` backup stamp.
- **The store** (`store.dfy`, module `DataStore`): the `DataManager` class
  holding the event and user lists and the two file texts, its seeding
  constructor, `authenticate`, `addEvent`, `removeEvent`, `getAllEvents`,
  `getConflictingEvents`, `saveData`, `exportToCSV` and `createBackup`.
- **The main window** (`mainview.dfy`, module `MainView`): the `MainFrame`
  class without its widgets: the table rows `filterTable` builds, the four
  dashboard counters of `refreshStatsAndTable`, `getSelectedEvent`, and the
  add, update, delete and register actions. Dialog input is given as
  strings and a confirmation as a boolean; `LocalDate.now()` is the
  parameter `today`.

Source paths below are relative to the repository root.

## Model

| member | source | states |
|---|---|---|
| EventModel.IdCounter.constructor | src/com/university/eventmanagement/Event.java:9 | the id counter starts at 1 |
| EventModel.Event.constructor | src/com/university/eventmanagement/Event.java:18-25 | a new event takes the counter's value as its id, the counter rises by exactly one, and the event holds the given name, date, venue and organizer with no participants |
| EventModel.Event.SetName | src/com/university/eventmanagement/Event.java:53-55 | only the name changes; id, other fields and participants are kept |
| EventModel.Event.SetDate | src/com/university/eventmanagement/Event.java:57-59 | only the date changes |
| EventModel.Event.SetVenue | src/com/university/eventmanagement/Event.java:61-63 | only the venue changes |
| EventModel.Event.SetOrganizer | src/com/university/eventmanagement/Event.java:65-67 | only the organizer changes |
| EventModel.Event.AddParticipant | src/com/university/eventmanagement/Event.java:70-72 | the participant is appended (duplicates allowed), nothing else changes, and the count rises by one |
| EventModel.Event.ParticipantCount | src/com/university/eventmanagement/Event.java:74-76 | the count is the length of the participant list |
| EventModel.DataOf | src/com/university/eventmanagement/Event.java:10-15 | the values of a list of events, position by position |
| Text.Trim | src/com/university/eventmanagement/MainFrame.java:520-523 | `String.trim`: the result is a contiguous part of the input with only blanks before and after it, begins and ends with a non-blank, is empty exactly when the input is all blanks, and a trimmed input is returned as is |
| Text.SplitAll | src/com/university/eventmanagement/DatabaseManager.java:82 | `split("\\|", -1)`: the pieces hold no separator and joined back give the input |
| Text.SplitJoin | src/com/university/eventmanagement/DatabaseManager.java:82 | splitting with limit -1 undoes a join of separator-free pieces, empty trailing pieces included |
| Text.Split | src/com/university/eventmanagement/DatabaseManager.java:151 | `split("\\|")`: the input itself when there is no separator, otherwise the limit -1 pieces without trailing empty ones |
| Text.SplitJoinNonEmptyLast | src/com/university/eventmanagement/DatabaseManager.java:151 | splitting with limit 0 undoes a join whose last piece is non-empty |
| Text.ReadLines | src/com/university/eventmanagement/DatabaseManager.java:77-79 | `readLine` one line after another: no returned line holds a terminator, and an empty file gives no line |
| Text.ReadLinesTerminated | src/com/university/eventmanagement/DatabaseManager.java:79 | a line ended by `\n`, by `\r\n`, or by a `\r` not followed by `\n` is read as that line, and reading goes on after the terminator |
| Text.ReadLastLine | src/com/university/eventmanagement/DatabaseManager.java:79 | a last line without terminator is still read |
| Text.ReadWriteLines | src/com/university/eventmanagement/DatabaseManager.java:57-58 | reading back lines written with `newLine` gives the same lines, when none holds a line break |
| Dates.Parse | src/com/university/eventmanagement/DatabaseManager.java:87 | parsing `dd/MM/yyyy` only ever yields a valid calendar date |
| Dates.ParseFormat | src/com/university/eventmanagement/DatabaseManager.java:17 | parsing the `dd/MM/yyyy` text of a valid date gives the date back |
| Dates.FormatCompactInjective | src/com/university/eventmanagement/DatabaseManager.java:206 | two valid dates have the same `yyyyMMdd` stamp exactly when they are equal |
| Dates.Trichotomy | src/com/university/eventmanagement/MainFrame.java:488-489 | of before, equal and after, exactly one holds for two dates |
| Database.EncodeEventFields | src/com/university/eventmanagement/DatabaseManager.java:46-55 | an encoded event splits into exactly six fields: id, name, date text, venue, organizer, and the participants joined by `,` (empty when there are none) |
| Database.DecodeEventLine | src/com/university/eventmanagement/DatabaseManager.java:80-101 | a line is skipped exactly when it is blank, has fewer than five fields, or its date does not parse; a kept line takes fields 1 to 4 and the cleaned participants |
| Database.CleanParticipants | src/com/university/eventmanagement/DatabaseManager.java:95-100 | every kept participant is non-empty and trimmed, and there are no more of them than pieces |
| Database.CleanParticipantsInOrder | src/com/university/eventmanagement/DatabaseManager.java:96-99 | the kept participants are in the order of their pieces |
| Database.CleanParticipantsCount | src/com/university/eventmanagement/DatabaseManager.java:96-99 | a value is kept as often as a piece trims to it, and a blank value never; so exactly the non-blank trimmed pieces are kept |
| Database.CleanParticipantsSound | src/com/university/eventmanagement/DatabaseManager.java:97-98 | every kept participant is a non-blank trimmed piece |
| Database.CleanParticipantsComplete | src/com/university/eventmanagement/DatabaseManager.java:97-98 | every piece that is not blank is kept, trimmed |
| Database.DecodeEncodeEvent | src/com/university/eventmanagement/DatabaseManager.java:46-101 | decoding an encoded storable event gives back its name, date, venue, organizer and participants |
| Database.DecodeIgnoresIdAndExtraFields | src/com/university/eventmanagement/DatabaseManager.java:85-94 | the stored id and any field after the sixth make no difference to what a line decodes to |
| Database.EventsRoundTrip | src/com/university/eventmanagement/DatabaseManager.java:42-115 | loading a saved list of storable events gives the same fields in the same order (ids are not kept) |
| Database.EncodeEventNoBreak | src/com/university/eventmanagement/DatabaseManager.java:46-57 | an encoded storable event is a single line |
| Database.AddParticipants | src/com/university/eventmanagement/DatabaseManager.java:94-101 | the loader's loop appends exactly the cleaned participant pieces |
| Database.EventFromLine | src/com/university/eventmanagement/DatabaseManager.java:80-106 | a skipped line constructs nothing and leaves the counter alone; a kept line constructs one fresh event with the next id and the decoded fields |
| Database.LoadEvents | src/com/university/eventmanagement/DatabaseManager.java:69-115 | the loaded events are fresh, hold the decoded lines in file order, and are numbered from the counter, which advances once per event |
| Database.EventsFromLines | src/com/university/eventmanagement/DatabaseManager.java:79-108 | the loop over lines keeps the decoded lines in order with consecutive ids |
| Database.SaveEvents | src/com/university/eventmanagement/DatabaseManager.java:42-64 | the written file is one encoded line per event, in list order |
| UsersFile.DecodeUserLine | src/com/university/eventmanagement/DatabaseManager.java:149-154 | a line is kept exactly when it is not blank and splits into two pieces; the user is those pieces, the password is non-empty, and anything after it is only separators |
| UsersFile.DecodeEncodeUser | src/com/university/eventmanagement/DatabaseManager.java:124 | a `username|password` line of separator-free fields with a non-empty password decodes to the same user |
| UsersFile.EmptyPasswordDropped | src/com/university/eventmanagement/DatabaseManager.java:151-152 | a user saved with an empty password is not loaded back |
| UsersFile.LoadedUsers | src/com/university/eventmanagement/DatabaseManager.java:139-143 | an empty users file loads as admin/admin123 and coordinator/coord123 |
| UsersFile.UsersRoundTrip | src/com/university/eventmanagement/DatabaseManager.java:120-161 | loading saved users gives the same list; an empty list comes back as the two defaults |
| UsersFile.SaveUsers | src/com/university/eventmanagement/DatabaseManager.java:120-130 | the written file is one `username|password` line per user |
| UsersFile.LoadUsers | src/com/university/eventmanagement/DatabaseManager.java:135-161 | the loop builds exactly the users the file's lines decode to, or the defaults for an empty file |
| Backups.SameDaySameFiles | src/com/university/eventmanagement/DatabaseManager.java:206-214 | two backups share their file names exactly when they are made on the same day |
| Backups.CopyWritten | src/com/university/eventmanagement/DatabaseManager.java:222-234 | copying a file written line by line gives the same text |
| Backups.CopyTerminatedLine | src/com/university/eventmanagement/DatabaseManager.java:229-231 | with `\n` as line separator, a line ended by `\n`, `\r\n` or a lone `\r` is copied as the line followed by `\n`, and the rest of the file is copied after it |
| Backups.CopyLastLine | src/com/university/eventmanagement/DatabaseManager.java:229-231 | an unterminated last line is copied with `\n` added |
| Backups.CopyNormalisesLineEnds | src/com/university/eventmanagement/DatabaseManager.java:229-231 | example: `"a\r\nb"` is copied as `"a\nb\n"` |
| Backups.EventsBackupIdentical | src/com/university/eventmanagement/DatabaseManager.java:211 | the backup of a saved events file of storable events is identical to it |
| Backups.UsersBackupIdentical | src/com/university/eventmanagement/DatabaseManager.java:214 | the backup of a saved users file is identical to it |
| CsvExport.ReadEscaped | src/com/university/eventmanagement/DatabaseManager.java:194-199 | an RFC 4180 reader reads an escaped value back as the value itself |
| CsvExport.ReadQuotedField | src/com/university/eventmanagement/DatabaseManager.java:196 | removing the outer quotes and undoubling inner quotes recovers the value |
| CsvExport.PlainUnchanged | src/com/university/eventmanagement/DatabaseManager.java:195-198 | a value without `,` or `"` is written as is |
| CsvExport.EscapeQuoted | src/com/university/eventmanagement/DatabaseManager.java:195-196 | every value holding a comma or a double quote is wrapped in quotes with its content passed through Doubled, which the DoubledAppend, DoubledNoQuote and DoubledQuote rows pin down as doubling each quote and keeping every other character |
| CsvExport.DoubledAppend | src/com/university/eventmanagement/DatabaseManager.java:196 | doubling quotes works piece by piece: the doubled concatenation is the concatenation of the doubled pieces |
| CsvExport.DoubledNoQuote | src/com/university/eventmanagement/DatabaseManager.java:196 | a text with no double quote is left as it is |
| CsvExport.DoubledQuote | src/com/university/eventmanagement/DatabaseManager.java:196 | a single double quote becomes two |
| CsvExport.EscapeQuotedWord | src/com/university/eventmanagement/DatabaseManager.java:196 | a value with a comma followed by a quoted word at its end is wrapped in quotes, the word's quotes doubled |
| CsvExport.ReadRecord | src/com/university/eventmanagement/DatabaseManager.java:174-181 | a row of escaped values joined by `,` reads back as the values |
| CsvExport.ReadRow | src/com/university/eventmanagement/DatabaseManager.java:174-181 | an export row reads back as id, name, date, venue, organizer and participant count |
| CsvExport.CsvTextEmpty | src/com/university/eventmanagement/DatabaseManager.java:169-170 | exporting no events writes only the header line |
| CsvExport.CsvTextAppend | src/com/university/eventmanagement/DatabaseManager.java:173-183 | each further event adds exactly its row and a line end |
| CsvExport.ExportCsv | src/com/university/eventmanagement/DatabaseManager.java:166-189 | the loop writes the header and one row per event, in list order |
| DataStore.SampleReloads | src/com/university/eventmanagement/DataManager.java:38-48 | the two sample events, once saved, load back with the same fields |
| DataStore.SeedUsersReload | src/com/university/eventmanagement/DataManager.java:23-27 | the seeded admin/admin123 and groupfive/BIT1201 accounts load back as saved |
| DataStore.AddSampleEvents | src/com/university/eventmanagement/DataManager.java:38-48 | two fresh events with consecutive ids: AI Workshop and Cultural Show with their participants |
| DataStore.StartEvents | src/com/university/eventmanagement/DataManager.java:15-21 | the events a store starts with are never empty and are numbered consecutively |
| DataStore.LoadOrSeedEvents | src/com/university/eventmanagement/DataManager.java:15-21 | sample events are added exactly when the file decodes to no event |
| DataStore.StartUsers | src/com/university/eventmanagement/DataManager.java:16-27 | the users a store starts with are never empty and are the loaded ones whenever any load |
| DataStore.LoadOrSeedUsers | src/com/university/eventmanagement/DataManager.java:23-27 | admin and groupfive are seeded exactly when no user loads |
| DataStore.Open | src/com/university/eventmanagement/DataManager.java:12-29 | the files are rewritten to the final lists exactly when something was seeded, and are left as read otherwise |
| DataStore.ConsecutiveOrdered | src/com/university/eventmanagement/Event.java:19 | consecutively numbered events have strictly increasing ids, all below the counter |
| DataStore.AnyMatch | src/com/university/eventmanagement/DataManager.java:51-53 | true exactly when some user has both the name and the password |
| DataStore.RemoveDeletes | src/com/university/eventmanagement/DataManager.java:62 | with distinct ids, removing an event leaves no copy of it and keeps the ids increasing |
| DataStore.ConflictsInOrder | src/com/university/eventmanagement/DataManager.java:70-75 | conflicts are listed in store order |
| DataStore.ConflictsInSound | src/com/university/eventmanagement/DataManager.java:70-75 | every listed event is stored and has the date and, ignoring case, the venue |
| DataStore.ConflictsInComplete | src/com/university/eventmanagement/DataManager.java:70-75 | every stored event with that date and venue is listed |
| DataStore.ConflictsInCount | src/com/university/eventmanagement/DataManager.java:70-75 | a conflicting event is listed as often as it is stored, any other not at all |
| DataStore.DataManager.constructor | src/com/university/eventmanagement/DataManager.java:12-29 | the store holds the start events and users, ids are increasing and below the counter, and the files hold the final lists whenever seeding happened |
| DataStore.DataManager.Authenticate | src/com/university/eventmanagement/DataManager.java:50-54 | true exactly when the exact (case-sensitive) name and password pair is stored; nothing changes |
| DataStore.DataManager.AddEvent | src/com/university/eventmanagement/DataManager.java:56-59 | the event is appended without any check, and both files are rewritten from the lists |
| DataStore.DataManager.RemoveEvent | src/com/university/eventmanagement/DataManager.java:61-64 | the first occurrence of that very object is removed (nothing when absent), and both files are rewritten |
| DataStore.DataManager.GetAllEvents | src/com/university/eventmanagement/DataManager.java:66-68 | a new array holding the stored events in order |
| DataStore.DataManager.ConflictingEvents | src/com/university/eventmanagement/DataManager.java:70-75 | exactly the stored events with that date and, ignoring case, that venue |
| DataStore.DataManager.SaveData | src/com/university/eventmanagement/DataManager.java:77-80 | both files hold the encoding of the current lists |
| DataStore.DataManager.ExportToCsv | src/com/university/eventmanagement/DataManager.java:82-84 | the export text of the current events |
| DataStore.DataManager.CreateBackup | src/com/university/eventmanagement/DatabaseManager.java:204-220 | the dated paths and copies of both files; a saved file of storable content is copied unchanged |
| MainView.StatusOf | src/com/university/eventmanagement/MainFrame.java:488-489 | "Completed" exactly before today, "Today" exactly on today, "Upcoming" exactly after |
| MainView.StatusIgnoringCase | src/com/university/eventmanagement/MainFrame.java:491 | on the filter box's items, comparing a status ignoring case is plain equality |
| MainView.AllRows | src/com/university/eventmanagement/MainFrame.java:498-506 | one row per event: id, name, `dd/MM/yyyy` date, venue, organizer, participant count, status |
| MainView.VisibleRowsInOrder | src/com/university/eventmanagement/MainFrame.java:487-508 | the table lists events in store order |
| MainView.VisibleRowsSound | src/com/university/eventmanagement/MainFrame.java:491-497 | each row comes from an event passing both the status and the search test |
| MainView.VisibleRowsComplete | src/com/university/eventmanagement/MainFrame.java:491-497 | each event passing both tests has its row in the table |
| MainView.UnfilteredShowsAll | src/com/university/eventmanagement/MainFrame.java:491-492 | a blank search with "All" lists every event |
| MainView.StatusFilterRows | src/com/university/eventmanagement/MainFrame.java:491 | with a status chosen, every row has that status |
| MainView.FilteredRows | src/com/university/eventmanagement/MainFrame.java:483-508 | the loop builds exactly the filtered rows of the listed events |
| MainView.CountThisMonth | src/com/university/eventmanagement/MainFrame.java:477 | the month label as intended: at most the number of events, and zero exactly when no event falls in today's month of today's year |
| MainView.CountThisMonthIsSize | src/com/university/eventmanagement/MainFrame.java:477 | the intended label is the number of events in today's month of today's year |
| MainView.CountMonthAsWrittenIsSize | src/com/university/eventmanagement/MainFrame.java:477 | the label as written is the number of events in today's month-of-year, whatever their year |
| MainView.UpcomingMatchesTable | src/com/university/eventmanagement/MainFrame.java:475 | the upcoming label counts the events the table shows as "Upcoming" or "Today" |
| MainView.UpcomingShownOnce | src/com/university/eventmanagement/MainFrame.java:488-491 | with an empty search, an event not yet past passes exactly one of the "Upcoming" and "Today" filters |
| MainView.UpcomingAtMostTotal | src/com/university/eventmanagement/MainFrame.java:472-476 | the upcoming label never exceeds the events label |
| MainView.ThisMonthAtMostAsWritten | src/com/university/eventmanagement/MainFrame.java:477 | the intended month count never exceeds the count as written |
| MainView.MonthCountsAgreeWithinYear | src/com/university/eventmanagement/MainFrame.java:477 | the two month counts agree when all events are in today's year |
| MainView.MonthCountAcrossYears | src/com/university/eventmanagement/MainFrame.java:477 | the sample events of December 2024 count as "this month" on 1 December 2026 as written, and not as intended |
| MainView.TotalParticipantsBump | src/com/university/eventmanagement/MainFrame.java:473 | one more participant on one event raises the participants label by one |
| MainView.FirstWithId | src/com/university/eventmanagement/MainFrame.java:551-553 | the first position holding the id, or the end when none does |
| MainView.FirstWithIdUnique | src/com/university/eventmanagement/MainFrame.java:551-553 | with increasing ids, looking up an event's id finds that event |
| MainView.ReadForm | src/com/university/eventmanagement/MainFrame.java:520-528 | missing exactly when a trimmed field is empty, invalid date exactly when all are present and the date does not parse, and otherwise the trimmed fields with the parsed date |
| MainView.UnchangedDialogKeepsEvent | src/com/university/eventmanagement/MainFrame.java:564-583 | confirming the update dialog as it opens keeps the event's values |
| MainView.OneMoreParticipant | src/com/university/eventmanagement/MainFrame.java:628-629 | registering on one event raises the participant total by exactly one |
| MainView.AppendKeepsOrdered | src/com/university/eventmanagement/MainFrame.java:534-535 | appending a freshly constructed event keeps the ids increasing and below the counter |
| MainView.RemoveKeepsBelow | src/com/university/eventmanagement/MainFrame.java:603 | removing an event keeps every id below the counter |
| MainView.StoreNewEvent | src/com/university/eventmanagement/MainFrame.java:534-535 | one fresh event with the next id and the form's values is appended, the files are rewritten, ids stay ordered |
| MainView.ApplyEdit | src/com/university/eventmanagement/MainFrame.java:580-583 | the four setters change only the selected event's name, date, venue and organizer |
| MainView.Register | src/com/university/eventmanagement/MainFrame.java:628 | the entry is appended to the selected event only |
| MainView.MainFrame.constructor | src/com/university/eventmanagement/MainFrame.java:52-97 | the window opens with an empty search (field initialiser at line 35), "All" selected (the filter box of line 36), and a refreshed table and dashboard (line 93) |
| MainView.MainFrame.RefreshStatsAndTable | src/com/university/eventmanagement/MainFrame.java:470-480 | labels and table show the store as it is, and the events are not touched |
| MainView.MainFrame.FilterTable | src/com/university/eventmanagement/MainFrame.java:482-509 | the table is replaced by the rows of the events passing both filters |
| MainView.MainFrame.SetSearch | src/com/university/eventmanagement/MainFrame.java:455-459 | typing in the search field re-filters the table |
| MainView.MainFrame.SelectStatus | src/com/university/eventmanagement/MainFrame.java:461 | choosing a status re-filters the table |
| MainView.MainFrame.SelectedEvent | src/com/university/eventmanagement/MainFrame.java:547-554 | nothing without a selection; otherwise the first stored event with the row's id, present exactly when some stored event has it |
| MainView.MainFrame.AddEvent | src/com/university/eventmanagement/MainFrame.java:511-545 | a rejected form or a declined conflict changes nothing; otherwise exactly one new event with the next id is appended, saved, and shown |
| MainView.MainFrame.UpdateEvent | src/com/university/eventmanagement/MainFrame.java:556-593 | no selection or a rejected form changes nothing; otherwise only the selected event's four fields change, and the view is refreshed (nothing is saved) |
| MainView.MainFrame.DeleteEvent | src/com/university/eventmanagement/MainFrame.java:595-607 | no selection or no confirmation changes nothing; otherwise the selected event is removed, the files rewritten, and the view refreshed |
| MainView.MainFrame.RegisterParticipant | src/com/university/eventmanagement/MainFrame.java:609-635 | no selection or a blank name changes nothing; otherwise exactly "name - type" is appended to the selected event, and the view refreshed (nothing is saved) |

## Left out

- Swing: layout, colours, custom panels and borders, dialogs, card switching, the analytics and report views, the QR code and the saving of reports. Dialog input is given as strings, a confirmation as a boolean.
- The login window (`LoginFrame.java`): it only forwards to `authenticate`.
- File-system I/O: a file is a string, an absent file and an empty one are both `""`, and `initialize` (which creates the two empty files) and the log-and-continue `catch` blocks are not modelled. A file that cannot be written is not modelled.
- `copyFile` returning early for a missing source: the store's files always exist once it is open, so both backup copies are always made.
- `LocalDate.now()`: every operation that reads the clock takes `today` as a parameter, and one call reads it once.
- `getInstance`: one explicitly constructed `DataManager` is passed to the window.
- `equalsIgnoreCase`, `toLowerCase` and `trim` use ASCII case mapping and treat every character up to U+0020 as blank; Unicode case folding is not modelled.
- Text.WriteLines: `BufferedWriter.newLine` writes the platform's line separator; the model fixes it to `"\n"`, so on a system whose separator is `"\r\n"` the saved files, the CSV export and the backup copies (Backups.CopyNormalisesLineEnds) end their lines with `"\r\n"` instead. Reading is unaffected, since `readLine` accepts both.
- MainView.MainFrame.RefreshStatsAndTable: the "This Month" label is the corrected count (MainView.CountThisMonth, events of today's month in today's year), not the month-only count of the source; see Findings.
- MainView.MainFrame.constructor: the dashboard it establishes uses the same corrected "This Month" count, not the source's month-only count.
- EventModel.Event.constructor: the static `int` id counter never wraps around; ids are unbounded naturals.
- Dates.Parse: years are limited to 1 to 999999999, without era or negative years.
- The average-per-event label formatted with `%.1f` and the report text are floating-point presentation and are not modelled.
- DataStore.DataManager.constructor: when both lists are seeded, the source writes the files twice; the model states only the final content.
- MainView.MainFrame.UpdateEvent and MainView.MainFrame.RegisterParticipant: like the source, they do not save, so the files keep the old values until the next add or delete.
- MainView.MainFrame.DeleteEvent and MainView.MainFrame.RegisterParticipant: the action's contract does not repeat that ids stay ordered; `RemoveDeletes`, `RemoveKeepsBelow` and `OneMoreParticipant` state it for the values.
- DataStore.DataManager.GetAllEvents: the copy is a fresh array holding the same objects; because of that, edits made through it show in the store.

## Findings

| source | as written | input that shows it | evidently intended | confidence | as-written member | corrected member |
|---|---|---|---|---|---|---|
| src/com/university/eventmanagement/MainFrame.java:477 | the "this month" label compares only the month of the event with the month of today, ignoring the year | the two sample events (15 and 20 December 2024) with today 1 December 2026: the label shows 2 | count only the events of today's month in today's year, i.e. 0 here | not executed | MainView.MonthCountAcrossYears | MainView.CountThisMonth |

The dashboard (`MainView.Dashboard`, used by `RefreshStatsAndTable`) uses
the corrected count. `MainView.ThisMonthAtMostAsWritten` bounds it by the
count as written, and `MainView.MonthCountsAgreeWithinYear` shows that the
two agree when every event is in today's year.
