# Absence_Control, modelled in Dafny

Absence_Control is a Telegram bot for absence tracking:
- A group owner ("creator") keeps named groups of members.
- The creator sends one absence report per group and day to the group's reports recipient, a user the creator chooses. A report is the list of members who are missing.
- The recipient can get per-member statistics of a group over a week, a month, a year or a date range, as a message or as a document.

The bot keeps three tables:
- users: the UTC offset and a feedback counter;
- groups: creator, name, recipient and the member list stored as one string joined with `;\n`;
- reports: group, date and the absent members, stored the same way.

Each command is a multi-step conversation driven by a per-user state.

The model has these parts:

- `Text` covers string handling:
  - Python's `str.split` / `str.join` on the `;\n` separator, with their round trips;
  - `str.title()` for ASCII and basic Cyrillic letters;
  - strict integer parsing and printing;
  - name ordering;
  - the `r_<name>` callback encoding of report buttons.
- `Dates` covers the calendar:
  - proleptic Gregorian dates and Python's day ordinals;
  - the local date of a clock reading under a UTC offset;
  - the start of the week, month and year;
  - `DD.MM.YYYY` formatting and parsing;
  - validation of dates and `±HH:MM` offsets.
- `Tables` holds the rows, the look-ups and the invariant the database keeps: `TablesValid`.
- `Writes` holds each row update as a function on the tables. `Invariants` proves that every one of them keeps `TablesValid`.
- `Statistics`, `Sorting` and `Export` compute the statistics message and the rows of the exported document.
- `Requests.Database` is a class over the three tables. Its methods are the request layer. Each method states its new state through the `Writes` functions.
- `Conversation`, `Middleware`, `ServiceHandlers`, `ConfigHandlers` and `WorkHandlers` model the handlers:
  - Each handler is a method on a `Conversation.Bot`, which holds the per-user conversation states and the database.
  - Each handler returns the messages the bot would send.

## Model

| member | source | states |
|---|---|---|
| `Text.JoinSplit` | database/requests.py:382-384 | joining the pieces of a split with the same separator gives back the stored string |
| `Text.SplitJoin` | database/requests.py:351-354 | splitting a join of separator-free pieces gives back the pieces |
| `Text.MembersStore` | database/requests.py:343-363 | a member list of separator-free names survives storing and reading back |
| `Text.StoreMembers` | database/requests.py:382-384 | reading a stored list and storing it again reproduces the stored string |
| `Text.SplitPiecesSepFree` | database/requests.py:382 | no piece of a split contains the separator |
| `Text.TitleIdempotent` | handlers/config_handlers.py:51 | title-casing a title-cased name changes nothing |
| `Text.ParseIntToString` | handlers/service_handlers.py:112 | parsing the decimal text of any integer gives that integer back |
| `Text.SortNames` | handlers/work_handlers.py:127-132 | the names come out in ascending order, as a permutation of the input |
| `Text.LexLeTotal` | handlers/work_handlers.py:86 | name order is total: of any two names one is not after the other |
| `Text.ButtonRoundTrip` | handlers/markups.py:59 | a title-cased name without `_` decodes back from its button data |
| `Dates.DaysBeforeYearFormula` | database/requests.py:29-32 | the recursive count of days before a year equals the closed form behind Python's ordinals |
| `Dates.OrdinalOrder` | database/requests.py:494-499 | one date is before another exactly when its ordinal is smaller |
| `Dates.EpochIsJanuary1970` | database/requests.py:29-32 | the epoch ordinal is the ordinal of 1 January 1970 |
| `Dates.LocalDate` | database/requests.py:29-32 | the local date is the calendar day containing the clock reading shifted by the offset |
| `Dates.StartOfWeek` | database/requests.py:36-41 | the start of the week is a Monday, not after the date, at most six days before it, and the latest such Monday |
| `Dates.MondayLatest` | database/requests.py:36-41 | no Monday lies strictly between the start of the week and the date |
| `Dates.StartOfMonth` | database/requests.py:45-48 | the first day of the date's month, not after the date |
| `Dates.StartOfYear` | database/requests.py:52-55 | 1 January of the date's year, not after the date |
| `Dates.ParseFormat` | database/requests.py:88-97 | every valid date parses back from its `DD.MM.YYYY` text |
| `Dates.FormatParse` | database/requests.py:88-97 | a text that parses is exactly the formatting of the parsed date |
| `Dates.ValidateDateSound` | database/requests.py:88-97 | an accepted date parses and is not after the local date |
| `Dates.ValidateDateComplete` | database/requests.py:88-97 | every parsable date not after the local date is accepted |
| `Dates.UtcOffsetSeconds` | database/requests.py:101-111 | the offset in seconds is within a day and has the sign of the text |
| `Dates.UtcOffsetRoundTrip` | database/requests.py:59-111 | formatting an offset in whole minutes and converting it back gives the offset; the text validates |
| `Tables.GroupsWhereCreator` | database/requests.py:220-232 | the names of the groups a user created, sorted and a permutation of those rows' names |
| `Tables.GroupsWhereRecipient` | database/requests.py:236-248 | the names of the groups a user receives reports for, sorted and a permutation of those rows' names |
| `Tables.RecipientNamesLookup` | database/requests.py:314-327 | a name is listed for a recipient exactly when the look-up by recipient and name finds a group |
| `Tables.CreatorNamesCount` | database/requests.py:220-232 | a creator has one listed name per owned group |
| `Writes.InitUserIdempotent` | database/requests.py:252-263 | registering a known user again changes nothing |
| `Writes.NewGroupEffect` | database/requests.py:331-339 | the new group is found by its creator and name, and the creator's other groups stay the same |
| `Writes.UpdateEffect` | database/requests.py:343-429 | an update changes the one group found by creator and name and leaves every other row as it was |
| `Writes.AppendMemberDecodes` | database/requests.py:343-363 | adding a member appends exactly that name to the decoded list |
| `Writes.StripMemberDecodes` | database/requests.py:377-391 | removing a member drops its first occurrence and keeps the order; an emptied list is stored as the empty string |
| `Writes.RemoveFirstDistinct` | database/requests.py:377-391 | removing from a duplicate-free list leaves it duplicate-free and without that name |
| `Writes.WithoutGroupOwned` | database/requests.py:367-373 | deleting a group removes it from its creator's groups and keeps every other row |
| `Writes.LikeContains` | database/requests.py:396 | the `LIKE '%name%'` selection holds for every report text that contains the name |
| `Writes.StripReports` | database/requests.py:393-407 | the intended report update removes the member only from reports of that group whose lists hold the exact name |
| `Writes.UpsertFound` | database/requests.py:658-698 | after saving a report, the look-up by group and date finds the saved member list |
| `Sorting.InsertBySorted` | database/requests.py:521-525 | insertion keeps a list sorted by key |
| `Sorting.SortBy` | database/requests.py:521-525 | the result is sorted by the key and is a permutation of the input |
| `Sorting.SortByStable` | database/requests.py:521-525 | elements with equal keys keep their original relative order, as Python's stable `sorted` does |
| `Statistics.ResolvePeriod` | database/requests.py:469-492 | week, month and year map to the periods ending today; other text is accepted exactly when both texts are valid `DD.MM.YYYY` dates, which are then the range's ends |
| `Statistics.CountAbsences` | database/requests.py:494-514 | the loop counts the selected reports and builds the tally of absences per member |
| `Statistics.TallyMeaning` | database/requests.py:500-514 | each tallied name occurs once, with the number of selected reports it is absent from, in first-seen order |
| `Statistics.CountIsReports` | database/requests.py:500-514 | the count of a name is the number of selected reports listing it |
| `Statistics.RankMeaning` | database/requests.py:521-526 | the ranking is a permutation of the tally, non-increasing in count, stable on ties, and empty exactly when nobody was absent |
| `Statistics.Percent` | database/requests.py:538-540 | the percentage is the floor of count·100/total, and at most 100 when count ≤ total |
| `Statistics.WriteLines` | database/requests.py:533-550 | the loop appends one line per ranked member, in rank order |
| `Statistics.FormatStatistics` | database/requests.py:454-550 | the method builds the statistics text of the tally and the period |
| `Statistics.StatisticsNoReports` | database/requests.py:516-519 | the no-reports message is produced exactly when no report falls in the period |
| `Statistics.StatisticsNoAbsentees` | database/requests.py:528-531 | with reports but no absentees, the no-absentees message is produced |
| `Export.ByDateMeaning` | database/requests.py:615-621 | the exported reports are the selected reports, as a permutation, in ascending date order |
| `Export.BuildRows` | database/requests.py:599-636 | the loop yields three header rows plus one row and one height per report, in date order |
| `Export.ReportCell` | database/requests.py:623-636 | a report's row height is 25 per listed name, at least 25 |
| `Export.ExportNoReports` | database/requests.py:638-641 | no document is made exactly when no report falls in the period |
| `Export.ExportShape` | database/requests.py:599-650 | a document has the three header rows plus one row and one height per selected report; the writer is XLSX for `Xlsx` and PDF otherwise |
| `Export.ExportDates` | database/requests.py:615-636 | every row after the header carries the date of a selected report, in order |
| `Requests.StripRows` | database/requests.py:393-407 | the loop over reports computes the intended report update |
| `Requests.Database.constructor` | database/models.py:29-82 | a fresh database has empty tables and is valid |
| `Requests.Database.Init` | database/requests.py:252-263 | an unknown user is registered with the default offset; a known one is left alone |
| `Requests.Database.SetUtcOffset` | database/requests.py:267-273 | only the user's offset changes |
| `Requests.Database.IncreaseFeedbacks` | database/requests.py:278-286 | only the user's feedback counter grows by one |
| `Requests.Database.ResetFeedbacks` | database/requests.py:290-294 | every user's feedback counter becomes zero |
| `Requests.Database.CreateGroup` | database/requests.py:331-339 | a new group owned and received by its creator, with no members and a fresh id |
| `Requests.Database.AddMember` | database/requests.py:343-363 | the found group's member list gains the name at its end; nothing else changes |
| `Requests.Database.DeleteGroup` | database/requests.py:367-373 | the group and all its reports are removed |
| `Requests.Database.RemoveMember` | database/requests.py:377-409 | the name leaves the group's list and the lists of that group's reports |
| `Requests.Database.AssignRecipient` | database/requests.py:413-429 | succeeds exactly when the recipient is a registered user, and then only that group's recipient changes |
| `Requests.Database.GetReport` | database/requests.py:438-449 | returns the group's report of that date, if any |
| `Requests.Database.CreateReport` | database/requests.py:658-677 | adds one report row with a fresh id |
| `Requests.Database.EditReport` | database/requests.py:680-698 | replaces the member list of the existing report of that group and date |
| `Requests.Database.GetStatistics` | database/requests.py:454-550 | the answer is the statistics text of the group found by recipient and name, or none when group or period is missing |
| `Requests.Database.GetFile` | database/requests.py:555-655 | the answer is the export of the group found by recipient and name, or none when group or period is missing |
| `Requests.FileAnswer` | database/requests.py:555-597 | a file answer exists exactly when the group is found and the period resolves |
| `Invariants.CreateGroupKeepsValid` | database/requests.py:331-339 | creating a group with a fresh name under the limit keeps the tables valid |
| `Invariants.AddMemberKeepsValid` | database/requests.py:343-363 | adding a good new name under the member limit keeps the tables valid |
| `Invariants.RemoveMemberKeepsValid` | database/requests.py:377-409 | removing a listed member from the group and its reports keeps the tables valid |
| `Invariants.DeleteKeepsValid` | database/requests.py:367-373 | deleting a group with its reports keeps the tables valid |
| `Invariants.AssignKeepsValid` | database/requests.py:413-429 | assigning a registered recipient keeps the tables valid |
| `Invariants.CreateReportKeepsValid` | database/requests.py:658-677 | a first report of a group and day keeps at most one report per group and day |
| `Invariants.EditReportKeepsValid` | database/requests.py:680-698 | editing a report keeps the tables valid |
| `Invariants.WithoutReportsApart` | database/models.py:66-68 | the cascade that drops a group's reports keeps one report per group and day |
| `Middleware.Gate` | handlers/middleware.py:15-26 | only text messages and shared users reach a handler, unchanged; anything else gets the not-text reply |
| `ServiceHandlers.CmdStart` | handlers/service_handlers.py:24-33 | registers the user and greets them by full name |
| `ServiceHandlers.CmdCancel` | handlers/service_handlers.py:82-93 | clears the user's conversation state and says whether there was one |
| `ServiceHandlers.CmdSetUtcOffset` | handlers/service_handlers.py:98-103 | asks for the offset and enters the offset step |
| `ServiceHandlers.GetUtcOffset` | handlers/service_handlers.py:108-138 | an integer strictly within one day either side is stored as the offset in seconds and ends the flow; a non-integer or out-of-range answer is refused and the step stays |
| `ConfigHandlers.CmdCreateGroup` | handlers/config_handlers.py:32-44 | a registered user with fewer than 25 groups enters the name step; at 25 the limit is reported |
| `ConfigHandlers.CreateGroupName` | handlers/config_handlers.py:49-72 | a new title-cased name of at most 25 characters creates the group; a taken or long name is refused |
| `ConfigHandlers.CmdAddMembers` | handlers/config_handlers.py:77-92 | a creator with groups is offered them; otherwise told there are none |
| `ConfigHandlers.AddMembersGroup` | handlers/config_handlers.py:97-126 | a known group with room moves to the member step; an unknown name is refused; a full group ends the flow |
| `ConfigHandlers.AddMembersMember` | handlers/config_handlers.py:131-171 | the stop word ends the flow; a good new storable name is appended; long, repeated or unstorable names are refused |
| `ConfigHandlers.AddMemberFlowOk` | handlers/config_handlers.py:131-171 | after an append below the limit, the member step stays consistent with the stored group |
| `ConfigHandlers.CmdDeleteGroup` | handlers/config_handlers.py:176-191 | a creator with groups is offered them; otherwise told there are none |
| `ConfigHandlers.DeleteGroupName` | handlers/config_handlers.py:196-216 | a known group moves to the confirmation step; unknown names are refused |
| `ConfigHandlers.DeleteGroupConfirmation` | handlers/config_handlers.py:221-249 | the delete answer removes the group and its reports; the cancel answer ends the flow with no change; any other answer is refused and the step stays |
| `ConfigHandlers.CmdRemoveMembers` | handlers/config_handlers.py:254-269 | a creator with groups is offered them; otherwise told there are none |
| `ConfigHandlers.RemoveMembersGroup` | handlers/config_handlers.py:274-306 | a known group with members moves to the member step with its members sorted; an unknown name is refused; an empty group ends the flow |
| `ConfigHandlers.RemoveMembersMember` | handlers/config_handlers.py:311-351 | the stop word ends the flow; a listed name is removed from the group and its reports; others are refused |
| `ConfigHandlers.StripAndReply` | handlers/config_handlers.py:331-351 | the member leaves the group and that group's reports; the flow ends when the group becomes empty, otherwise the rest is offered sorted |
| `ConfigHandlers.CmdAssignReportsRecipient` | handlers/config_handlers.py:356-373 | a creator with groups is offered them; otherwise told there are none |
| `ConfigHandlers.AssignGroupName` | handlers/config_handlers.py:378-395 | a known group moves to the recipient step; unknown names are refused |
| `ConfigHandlers.AssignRecipientShared` | handlers/config_handlers.py:400-421 | a shared registered user becomes the group's recipient; an unknown one is refused and nothing changes |
| `WorkHandlers.CmdCreateReport` | handlers/work_handlers.py:33-48 | a creator with groups is offered them, sorted; otherwise told there are none |
| `WorkHandlers.ReportGroupName` | handlers/work_handlers.py:53-89 | an unknown name is refused; a group without members ends the flow; otherwise one button per member, in sorted order, plus the send button |
| `WorkHandlers.KeyboardDecodes` | handlers/work_handlers.py:147-160 | every member button of the keyboard decodes back to its member |
| `WorkHandlers.ReportPick` | handlers/work_handlers.py:147-160 | a member button appends a new name to the picked list; an already picked name is answered and the list stays |
| `WorkHandlers.ReportWrite` | handlers/work_handlers.py:95-106 | the picked names are saved for the local date: the day's report is edited when one exists, otherwise a report is created |
| `WorkHandlers.ReportSend` | handlers/work_handlers.py:95-146 | the send button saves the report; an edit first notifies the recipient; the sorted report goes to the recipient; a failed delivery is answered and the flow stays open |
| `WorkHandlers.ReportCallback` | handlers/work_handlers.py:94-160 | the send button saves the report and sends the replies of `ReportSend`; any other button leaves the tables unchanged and picks the member as `ReportPick` does |
| `WorkHandlers.ReportTextNames` | handlers/work_handlers.py:127-132 | the report text lists the picked names sorted, as a permutation that reads back from its stored form |
| `WorkHandlers.CmdGetStatistics` | handlers/work_handlers.py:178-194 | a user who receives reports of some group is offered those groups, sorted; otherwise told there are none |
| `WorkHandlers.StatisticsGroupName` | handlers/work_handlers.py:199-218 | a group the user receives reports of moves to the period step; other names are refused |
| `WorkHandlers.StatisticsPeriod` | handlers/work_handlers.py:223-242 | a period other than week, month or year is refused; otherwise the flow ends and the answer is the group's statistics, present exactly when the user receives that group's reports |
| `Conversation.Bot.Finish` | handlers/service_handlers.py:82-93 | ends the user's conversation, keeps all other states and keeps the bot valid |

## Left out

- Telegram I/O is modelled as return values:
  - Sending a message, keyboards and inline keyboards become the `Outbound` values a handler returns.
  - Whether `send_message` reached a user is given by the boolean parameters `noticeSent` and `reportSent` of `WorkHandlers.ReportSend`.
  - Router registration order, help texts and the reply-keyboard layout are not modelled.
- The clock is the parameter `now`: seconds since the epoch, within the years 1970 to 9999.
- Document rendering is out of scope. `Export` stops at the rows, row heights, file name and caption; the `openpyxl`/`fpdf` writers themselves are not modelled. So are fonts, the cell style and the XLSX/PDF bytes.
- `Statistics.Percent`: computed in integers as `count*100 div total`. The source uses floating point (`int(count / total * 100)`), which gives one less for some inputs (29 of 100 gives 28). Floating point is not modelled.
- `Text.Title`: covers ASCII and the basic Cyrillic alphabet. Other scripts, digraphs and apostrophe rules of Python's `str.title()` are not modelled.
- `Text.ParseInt`: accepts an optional sign and ASCII digits only. Python's `int()` also accepts surrounding blanks, underscores and non-ASCII digits, which are not modelled.
- `Dates.ParseDate`: accepts exactly `DD.MM.YYYY`. `strptime` also takes one-digit days and months, which are not modelled.
- Uncaught Python exceptions become a missing reply with no change. Examples are a `ValueError` from `strptime` on a bad period, or an attribute read on a missing row. Such an exception ends the handler before anything is sent or committed. At the same points the model returns `None` or an empty reply and leaves the tables unchanged.
- Telegram user ids stand for the source's surrogate `User.id`. The users table is keyed by the Telegram id, so the two-step look-up becomes one.
- SQL mechanics (sessions, commits, `LIKE` matching, `ORDER BY`) become functions on the rows:
  - The row order of the tables is insertion order.
  - The ordered query of the export is `Export.ByDate`.
- Code in the handlers that refers to names that do not exist is modelled as evidently meant:
  - the `Create_Statistics.period` state, which the states file does not declare;
  - `Group_Requests.get_statistics`, which is `Report_Requests.get_statistics`;
  - the attribute read on a possibly missing group, which is guarded.
- `Writes.StripReportsAsWritten`: `LikeMatch` treats `%` and `_` as wildcards and compares other characters exactly. Whether `LIKE` also ignores ASCII case, as SQLite does, or treats backslash as an escape, as PostgreSQL does, depends on the database behind `DB_URL`. Neither is modelled, so the set of rows the source selects can be larger than the model's.
- `WorkHandlers.ReportPick` and `WorkHandlers.ReportSend`: the handler never writes the picked list back with `update_data`. It appends to the list that `get_data` returns, and on a failed send it sorts that list in place. The picks persist only because aiogram's storage hands back the stored list object rather than a deep copy. The model assumes this sharing: the picked list grows with each pick and stays sorted after a failed send.
- The source's assign step looks groups up by the raw message text, without title-casing. The model keeps this.
- The feedback and report-file commands have no handlers among the handler files, so only their request-layer operations are modelled: `IncreaseFeedbacks`, `ResetFeedbacks` and `GetFile`.
- `incorrect_messages_handler.py`, `bot.py`, `main.py` and `config.py` (polling, the fallback reply, tokens) are not part of this model.

## Findings

| source | as written | input that shows it | evidently intended | confidence | as-written member | corrected member |
|---|---|---|---|---|---|---|
| handlers/config_handlers.py:131-171 | a member name is stored without checking for the `;\n` separator | the name `a;\nb` is stored as one member and read back as two | names containing the separator are refused, so that storing and reading back is the identity | not executed | `ConfigHandlers.AddMemberSplitsName` | `ConfigHandlers.AddMembersMember` |
| handlers/work_handlers.py:66 | the empty-group guard compares the split list with `[]`, which a split never equals | a group with no members passes the guard and gets a keyboard with one empty-name button plus send | an empty group ends the report flow with a message | not executed | `WorkHandlers.EmptyGroupGuardDead` | `WorkHandlers.ReportGroupName` |
| database/requests.py:393-407 | reports are selected with `LIKE '%name%'` and the name is then removed with `list.remove` | removing `Ann` while a report lists only `Anna` selects that report and `remove` raises, so nothing is removed | only reports that list the exact name are changed | not executed | `Writes.LikeSelectsLongerName` | `Writes.StripReports` |
| database/requests.py:396 | the name is put into the `LIKE` pattern unescaped, so a `_` in it matches any character | removing `Анна_Мария` while a report lists only `Анна-Мария` selects that report and `remove` raises, so nothing is removed | the name is matched literally | not executed | `Writes.LikeWildcardSelects` | `Writes.StripReports` |
| handlers/work_handlers.py:148 | the button data is split on `_` and only the second piece is kept | the member `Анна_Мария` decodes to `Анна`, which is not a member | the button decodes to the whole name after the `r_` prefix | not executed | `WorkHandlers.ButtonTruncatesExample` | `WorkHandlers.MemberOfButton` |
