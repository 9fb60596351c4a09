# Support bot: the report lifecycle

A model of a Telegram support bot, written in Dafny. Users open a
support report ("обращение"). The bot announces each new report to every
staff member whose chat it knows. A staff member answers through a
reply button, and the bot then tells the author and edits every stored
staff notice to show the answer. Admins add and remove helpers. Every
hour a cleanup job deletes the reports that were answered at least a day
ago, together with their staff notices.

The model covers the handlers registered on `main_router`, the
middleware in front of them that caches chat ids, the SQLite `reports`
and `helpers` tables, the start-up that opens those tables and seeds the
admins, and the cleanup job. The modules are:

- `Text`, `Numbers`, `Timestamps`: the Python and SQLite behaviour the
  bot relies on, written out. This covers `strip`, `lower`, `replace`,
  `split`/`join`, `int()`/`str()`, the `%Y-%m-%d %H:%M:%S` timestamps and
  the way SQLite orders TEXT values.
- `CallbackData`: the button payloads `reply_report_<id>`,
  `view_report_<id>` and `remove_helper_<name>`, and how the handlers
  read them back.
- `Receipts`: the `notify_msg_ids` column, written as
  `chat:msg,chat:msg,…` and parsed back item by item.
- `Platform`: the Telegram API as a `Transport` object. The transport
  records every send, edit and delete in order. Its answers (delivered
  with a message id, or failed) come from a script supplied in advance.
- `Staff`: the admins read from configuration, the `helpers` table, and
  the access checks `is_staff` and `is_admin`.
- `ChatCache`: the username → chat id cache.
- `Conversation`: the per-(chat, user) conversation state, which plays
  the part of aiogram's FSM.
- `Reports`: the `reports` table and its queries.
- `Routing`: which handler an update reaches.
- `Notices`: the fan-out of staff notices, the receipts it records, and
  the edits and deletes made later for those receipts.
- `Bot`: the `SupportBot` class with one method per handler, the
  dispatcher and the cleanup job. The bot's whole state is also a value,
  `World`. Each handler has a step predicate over two worlds, and
  `Handled` picks the predicate that belongs to a handler. `Dispatch`
  ends in the world that `Handled` describes.

## Model

| member | source | states |
|---|---|---|
| Staff.AdminsFromConfig | bot.py:23 | there is one admin per comma-separated entry. Each is that entry, lower-cased, with the whitespace at both ends removed: lower case, no comma, no whitespace at either end |
| Staff.AdminEntry | bot.py:23 | one entry's name is lower case with no whitespace at either end, is the lower-cased entry with surrounding whitespace removed, and has no comma when the entry has none |
| Staff.AdminsOfJoin | bot.py:23 | a comma-separated list of names already in that form reads back as the same list |
| Staff.AdminsFromEnv | bot.py:23 | a set `ADMINS` is read as above |
| Staff.DefaultAdminsOnly | bot.py:23 | without `ADMINS`, the only admin is `mellfreezy` |
| Staff.AccessRules | bot.py:93-111 | a missing or empty username is neither staff nor admin; every admin is staff; a non-admin is staff exactly when the lower-cased name is in the helpers table |
| Staff.StaffAreHelpers | bot.py:82-105 | once the admins are seeded into the helpers table, staff means exactly "lower-cased name is a helper" |
| Staff.NormaliseHelperName | bot.py:996 | the stored helper name is the typed text with the whitespace at both ends dropped, every `@` removed and lower-cased, so it has no `@` and no capitals and is no longer than the text; a name already in that form is kept as typed |
| Staff.NormaliseMention | bot.py:996 | `@name` with whitespace around it gives `name`, for a lower-case name with no `@` and no whitespace at either end |
| Staff.NormalisePlain | bot.py:996 | the same name typed without `@`, with whitespace around it, gives the same `name` |
| Staff.StaffDirectory.Init | bot.py:82-90 | the helpers table holds exactly the persisted rows plus every admin; existing rows keep their `added_by`, and seeded admins get `system` |
| Staff.StaffDirectory.SeedAdmins | bot.py:82-89 | every admin gets a helpers row; rows that already exist keep their `added_by`, and new ones get `system` |
| Staff.StaffDirectory.AllStaff | bot.py:608-610 | the names notified are the admins and every helper name lower-cased, and nothing else |
| Staff.StaffDirectory.Add | bot.py:1003-1018 | a helper is added with its `added_by` exactly when the name is new; otherwise the table is unchanged |
| Staff.StaffDirectory.Remove | bot.py:1028-1036 | removing an admin is refused and changes nothing; any other name is deleted and nothing else changes |
| ChatCache.ChatIdCache.Remember | bot.py:440-456 | a non-empty username records the event's chat under the lower-cased name, and looking that name up then gives the chat; without a username the cache is unchanged |
| Conversation.Sessions.Set | bot.py:43-52 | setting a state changes that (chat, user) slot only |
| Conversation.Sessions.Clear | bot.py:477 | clearing returns that slot to idle and leaves every other slot as it was |
| Receipts.DecodeEncode | bot.py:618 | one receipt item, once written, reads back as the same chat and message |
| Receipts.CollectEncodeEach | bot.py:894-897 | reading the items one by one gives back the receipts in order |
| Receipts.ParseEncodeAll | bot.py:625 | the stored `notify_msg_ids` parses back to exactly the receipts recorded, in order |
| Receipts.ItemOfEncode | bot.py:895-897 | an item the fan-out wrote is read back as exactly its receipt |
| Notices.RecipientsExact | bot.py:608-615 | a staff name is notified exactly when it is iterated over and its cached chat is non-zero |
| Notices.RecipientsOnce | bot.py:608-615 | no staff member is notified twice |
| Notices.NoReachableNoReceipts | bot.py:604-627 | with no usable cached chat, nothing is sent and an empty `notify_msg_ids` is stored |
| Notices.FanoutExact | bot.py:612-620 | a receipt is recorded exactly for a send that the platform delivered, with the message id it returned |
| Notices.FanoutComplete | bot.py:612-620 | every send yields a receipt exactly when none of them failed |
| Notices.FanoutCount | bot.py:612-620 | `m` delivered sends leave exactly `m` receipts, so a failure loses only its own receipt |
| Notices.StoredCallsCount | bot.py:893-917 | a later pass over the stored receipts of `m` delivered sends makes exactly `m` edits or deletes |
| Notices.StoredNoticesReached | bot.py:893-917 | the edits (and deletes) made later go to exactly the notices the fan-out recorded, in order |
| Notices.CallsForAppend | bot.py:894 | the calls for two runs of receipts are the calls for each run, in order |
| CallbackData.ReportIdRoundTrip | bot.py:781 | the report id read from a reply or view button is the id the button was made for |
| CallbackData.HelperOfDataRoundTrip | bot.py:1028 | the helper named by a remove button is the helper the button was made for, whatever the name contains |
| CallbackData.AsWrittenLosesHelper | bot.py:1028 | as written, the remove button of helper `a_remove_helper_b` names `a_b` |
| CallbackData.AsWrittenRoundTripWithoutPrefix | bot.py:1028 | as written, the round trip holds for names that do not contain `remove_helper_` |
| Numbers.ParseIntOfIntToString | bot.py:781 | `int(str(n))` is `n` for every integer, negative ones included |
| Timestamps.FormatOrder | bot.py:871 | for valid stamps, string order on formatted timestamps is time order, and equal strings are equal times |
| Timestamps.FormatOrderEq | bot.py:1051 | `replied_at <= threshold` holds exactly when the answer is not later than the threshold |
| Timestamps.DayBeforeAfter | bot.py:1047 | going back one day and forward one day are inverse to each other |
| Text.JoinSplit | bot.py:894 | joining the parts of a split gives back the string |
| Text.SplitJoin | bot.py:625 | splitting a join of separator-free parts gives back the parts |
| Text.LowerIdempotent | bot.py:97 | lower-casing twice is lower-casing once |
| Routing.StartFromAnyState | bot.py:465 | `/start` reaches the start handler in every conversation state |
| Routing.MentionedStartFromAnyState | bot.py:465 | `/start@bot`, addressed to this bot, reaches the start handler in every conversation state |
| Routing.OtherBotCommandIgnored | bot.py:465-473 | `/start` or `/panel` addressed to another bot is routed like a message without text |
| Routing.CommandOfMention | bot.py:465 | `/name@bot` is the command `name` when the mention is this bot |
| Routing.CommandOfOtherBot | bot.py:465 | `/name@other` is no command when `other` is not this bot's name, ignoring case |
| Routing.PlainTextFollowsState | bot.py:559 | a non-command message goes to the handler of the step being waited for, and to none when nothing is awaited |
| Routing.RoutedShape | bot.py:843 | each handler gets the kind of update, conversation state and callback prefix its filters require |
| Routing.ReplyButtonRouted | bot.py:821 | a reply button reaches the handler that asks for the answer |
| Routing.ViewButtonRouted | bot.py:775 | a report button reaches the handler that shows the report |
| Routing.RemoveButtonRouted | bot.py:1022 | a remove button reaches the handler that removes helpers |
| Reports.NewestFirst | bot.py:674 | the ids are newest first, all matching rows and only those |
| Reports.NewestLimited | bot.py:637 | at most the limit, newest first, only the user's reports; any of the user's reports left off is older than every one kept, and the limit is then full |
| Reports.SortByAnswerOrdered | bot.py:717 | sorting by `replied_at` puts the latest answer first |
| Reports.LatestAnswered | bot.py:717 | exactly the answered reports, each once, latest answer first |
| Reports.ReportStore.Load | bot.py:56-71 | opening an existing `reports` table keeps its rows and its id sequence |
| Reports.ReportStore.Create | bot.py:570-576 | the new report gets the next id and is open and unanswered, with no receipts; no other row changes |
| Reports.ReportStore.SetReceipts | bot.py:622-627 | only the report's `notify_msg_ids` changes |
| Reports.ReportStore.MarkAnswered | bot.py:871-876 | an existing report becomes answered with this reply, replier and time; a missing one changes nothing |
| Reports.ReportStore.DeleteAnsweredUpTo | bot.py:1069-1072 | exactly the reports answered at or before the threshold are deleted; the others are unchanged |
| Bot.ReportFrom | bot.py:570-576 | the new row holds the author's id and text, with the username and first name, or their defaults when missing or empty |
| Bot.ReapedIffDayOld | bot.py:1047-1051 | an answered report is deleted exactly when its answer is at least one day older than now |
| Bot.OpenNeverReaped | bot.py:1051 | the cleanup never deletes an open report |
| Bot.CleanupCallsAreDeletes | bot.py:1057-1065 | the cleanup job only deletes messages, and only ones stored as receipts of the reports it deletes |
| Bot.SupportBot.Announce | bot.py:608-620 | each staff name is visited once; a send goes to each usable chat in that order; the receipts are those of the delivered sends |
| Bot.SupportBot.AnnounceTo | bot.py:612-620 | one send to the chat; its receipt is added exactly when it is delivered |
| Bot.SupportBot.NotifyStaff | bot.py:592-627 | the report's stored receipts are those of the fan-out, and no other row changes |
| Bot.SupportBot.FileReport | bot.py:566-589 | the report is stored under the next id, the conversation ends, and the staff are notified with the receipts recorded |
| Bot.SupportBot.ProcessReport | bot.py:559-589 | an empty or non-text message changes nothing; otherwise the report is filed under an id not used before, with the UTC creation time, the conversation ends, and one notice goes to each usable staff chat, with the delivered ones stored as receipts; nothing else changes |
| Bot.SupportBot.ReplyButton | bot.py:821-840 | staff pressing a well-formed reply button start waiting for the answer to that report; otherwise nothing changes |
| Bot.SupportBot.ProcessReply | bot.py:843-924 | the report becomes answered by the replier at the local time; the author is sent the answer and every stored notice is edited; a missing report ends the conversation and changes nothing else; non-staff and empty texts change nothing |
| Bot.SupportBot.ProcessAddHelper | bot.py:991-1019 | an admin's non-empty normalised name is added as a helper by that admin unless it already has a row, and the conversation ends; otherwise nothing changes |
| Bot.SupportBot.RemoveHelperButton | bot.py:1022-1040 | non-admins change nothing; an admin name is refused; any other named helper is removed and nothing else changes |
| Bot.SupportBot.RemoveButtons | bot.py:957-965 | every non-admin helper gets a remove button, and every button names a non-admin helper |
| Bot.SupportBot.ActOn | bot.py:895-917 | one edit or delete for an item that parses, none for one that does not |
| Bot.SupportBot.ForEachReceipt | bot.py:893-917 | one edit or delete per stored receipt, in the stored order |
| Bot.SupportBot.MyReports | bot.py:632-640 | at most ten of the user's own reports, newest first; a report left off is older than all ten shown |
| Bot.SupportBot.OpenReports | bot.py:666-676 | non-staff get nothing; staff get every open report, newest first |
| Bot.SupportBot.AnsweredReports | bot.py:709-719 | non-staff get nothing; staff get every answered report, latest answer first |
| Bot.SupportBot.ViewReport | bot.py:775-792 | non-staff are refused; an unreadable id and a missing report are told apart; otherwise the stored report is shown |
| Bot.SupportBot.DeleteNotices | bot.py:1055-1065 | one delete per stored receipt of each reaped report, in order |
| Bot.SupportBot.Cleanup | bot.py:1045-1073 | the reports answered at least a day ago are deleted, after their stored notices |
| Bot.SupportBot.Navigate | bot.py:465-556 | start, menu and support clear the conversation; the panel clears it for staff only; create-report waits for the problem; add-helper waits for a name for admins only; no other slot and nothing else changes |
| Bot.SupportBot.Process | bot.py:559-1040 | each state-changing handler ends in the world its step predicate describes, and answered reports stay answered |
| Bot.SupportBot.Dispatch | bot.py:440-456 | the handler is the one routing picks; unrouted updates change nothing; a routed one caches the sender's chat and then ends in the world `Handled` gives for that handler |
| Bot.SupportBot.constructor | bot.py:56-90 | the reports and helpers tables keep what the database holds; every admin from `ADMINS` (or the default) is seeded as a helper; the cache and the conversations start empty |
| Bot.HandledKeepsReports | bot.py:559-1040 | no handler reopens or deletes a report, and a new report takes an id above every stored one |
| Bot.HandledIsolatesSender | bot.py:440-1040 | a handler changes only the sender's conversation and never the chat-id cache |
| Bot.NavigationKeepsData | bot.py:465-556 | the menus, the panel and the prompts change only the conversation; the panel for non-staff and add-helper for non-admins change nothing |
| Bot.HandledKeepsAdmins | bot.py:1003-1036 | every admin keeps a helpers row through every handler |

## Left out

- Message texts, keyboards, HTML formatting and the panel's counts are
  presentation. A notice is modelled by its kind and report id only.
- Direct answers to the user (`message.answer`, `callback.answer`,
  `edit_text` on the pressed message) are not platform calls in the
  model. They are assumed to succeed and consume no scripted answer.
- The scheduler that runs the cleanup, the polling loop and concurrent
  handling of updates are left out. Each handler runs to completion
  before the next one starts.
- `datetime.now()` and SQLite's `CURRENT_TIMESTAMP` are supplied as
  clock values: local time and UTC respectively.
- Text.Lower: folds only ASCII capitals; Python's `lower()` also folds
  other alphabets.
- Numbers.ParseInt: reads ASCII digits with an optional sign and
  surrounding whitespace; underscores and non-ASCII digits, which
  Python's `int()` also accepts, are not modelled.
- Timestamps.DayBefore: only years 1000 to 9999 are modelled. A cleanup
  at 1000-01-01 has no threshold and deletes nothing.
- A callback whose message is missing (an inline-mode button) is not
  modelled. Every callback carries a chat.
- Bot.SupportBot.ProcessAddHelper: a message without text makes
  `message.text.strip()` raise. The model treats that as changing
  nothing, which is what the aborted handler leaves behind.
- The handlers at bot.py:215-418 are registered on the first `router`.
  bot.py:425-429 clears that router's handlers and removes it from the
  dispatcher, so these handlers never run and are not modelled. The
  registration of the bot's command list at start-up is not modelled
  either.
- bot.py:613, the header of the loop over the staff names, is indented
  two spaces deeper than the statements before it (bot.py:608-612). As
  text, Python rejects that line as an unexpected indent. The model takes
  the loop at the level of those statements, which is evidently what was
  meant.
- Routing reads only a message's text. aiogram's `Command` filter also
  reads a photo's caption, so `/start` sent as a caption is routed here
  like a message without text.
- Bot.SupportBot.RemoveHelperButton: reads the helper name from the
  button with the corrected `HelperOfData`, which removes only the
  leading `remove_helper_`. This is the intended behaviour of the
  bot.py:1028 finding below, not the replace-all as written.
  Bot.SupportBot.RemoveButtons relies on the same read-back.
- The chat-id cache is updated only for updates that some handler
  accepts. That is how an aiogram inner middleware behaves, even though
  the middleware is described as seeing every interaction.

## Findings

| source | as written | input that shows it | evidently intended | confidence | as-written member | corrected member |
|---|---|---|---|---|---|---|
| bot.py:1028 | the helper name is read from the button by deleting every occurrence of `remove_helper_` | a helper named `a_remove_helper_b`: its button names `a_b`, and the wrong helper is removed or none is | strip only the leading `remove_helper_` | not executed | CallbackData.AsWrittenLosesHelper | CallbackData.HelperOfDataRoundTrip |
