/**
 * The support bot: the live handlers of `main_router`, the chat-id
 * middleware in front of them, and the hourly cleanup job, over the report
 * store, the staff directory, the chat-id cache, the conversation slots and
 * the platform transport.
 */
module Bot {
  import opened Common
  import opened Text
  import opened Receipts
  import opened CallbackData
  import opened Timestamps
  import opened Reports
  import opened Staff
  import opened ChatCache
  import opened Platform
  import opened Conversation
  import opened Notices
  import opened Routing

  /** Stored as the author's username when the author has none. */
  const NoUsername: string := "нет_юзернейма"
  /** Stored as the author's first name when the author has none. */
  const Anonymous: string := "Аноним"
  /** Stored as `replied_by` when the replier has no username. */
  const UnknownReplier: string := "unknown"
  /** How many of a user's own reports the "my reports" screen lists. */
  const MyReportsLimit: nat := 10

  /** `value or default` for an optional text: a missing or empty value is replaced. */
  function OrDefault(value: Option<string>, default: string): (r: string)
    ensures value.Some? && value.value != [] ==> r == value.value
    ensures value.None? || value.value == [] ==> r == default
  {
    if value.Some? && value.value != [] then value.value else default
  }

  /**
   * The two clocks a handler reads: `datetime.now()` (local time, written to
   * `replied_at` and used by the cleanup job) and SQLite's `CURRENT_TIMESTAMP`
   * (UTC, the default of `created_at`).
   */
  datatype Clock = Clock(local: DateTime, utc: DateTime)

  /** What the report screen of `view_report_<id>` shows. */
  datatype ViewOutcome = NoAccess | BadData | NotFound | Shown(id: int, report: Report)

  /**
   * The row `process_report` inserts: the author's id, username and first
   * name (missing ones replaced by the fixed defaults) and the text, open,
   * unanswered and without notices yet.
   */
  function ReportFrom(user: User, text: string, createdAt: string): (r: Report)
    ensures WellFormed(r) && r.status == Open && r.answer.None? && r.notifyMsgIds == []
    ensures r.userId == user.id && r.message == text && r.createdAt == createdAt
    ensures r.username == (if user.username.Some? && user.username.value != [] then user.username.value else NoUsername)
    ensures r.firstName == (if user.firstName.Some? && user.firstName.value != [] then user.firstName.value else Anonymous)
  {
    NewReport(user.id, OrDefault(user.username, NoUsername), OrDefault(user.firstName, Anonymous), text, createdAt)
  }

  /** Inserting a row and then setting its receipts stores the row with those receipts. */
  lemma StoredWithReceipts(rows: map<int, Report>, id: int, row: Report, stored: string)
    ensures var created := rows[id := row];
            created[id := created[id].(notifyMsgIds := stored)] == rows[id := row.(notifyMsgIds := stored)]
  {
  }

  /** The conversation slot an event belongs to. */
  function KeyOf(event: Event): Key {
    Key(event.chat, event.from.id)
  }

  /** `notify_msg_ids` of a row, or nothing for a missing row. */
  function StoredReceipts(rows: map<int, Report>, id: int): seq<Receipt> {
    if id in rows then ParseAll(rows[id].notifyMsgIds) else []
  }

  /** The deletes the cleanup job issues for the rows `ids`, row by row and receipt by receipt. */
  function CleanupCalls(rows: map<int, Report>, ids: seq<int>): (calls: seq<Call>)
    ensures ids == [] ==> calls == []
  {
    if ids == [] then []
    else CleanupCalls(rows, ids[..|ids| - 1]) + CallsFor(Remove, StoredReceipts(rows, ids[|ids| - 1]))
  }

  /** After the calls for the first `i` items, those for item `i` complete the calls for the first `i + 1`. */
  lemma ReceiptStep(calls0: seq<Call>, action: Action, items: seq<string>, i: nat)
    requires i < |items|
    ensures calls0 + CallsFor(action, Collect(items[..i])) + CallsFor(action, ItemReceipt(items[i])) ==
            calls0 + CallsFor(action, Collect(items[..i + 1]))
  {
    CollectStep(items, i);
    CallsAfter(calls0, action, Collect(items[..i]), ItemReceipt(items[i]));
  }

  /** What one item of the stored receipts gets: a call exactly when it contains `:` and decodes. */
  lemma CallsForItem(action: Action, item: string)
    ensures CallsFor(action, ItemReceipt(item)) ==
              if ':' in item && Decode(item).Some? then [CallFor(action, Decode(item).value)] else []
  {
  }

  /** After the deletes for the first `i` rows, those for row `i` complete the deletes for the first `i + 1`. */
  lemma CleanupStep(calls0: seq<Call>, rows: map<int, Report>, ids: seq<int>, i: nat)
    requires i < |ids| && ids[i] in rows
    ensures calls0 + CleanupCalls(rows, ids[..i]) + CallsFor(Remove, ParseAll(rows[ids[i]].notifyMsgIds)) ==
            calls0 + CleanupCalls(rows, ids[..i + 1])
  {
    assert ids[..i + 1][..i] == ids[..i];
  }

  /** The cleanup job deletes exactly the stored notices of the rows it removes, and only with deletes. */
  lemma {:induction false} CleanupCallsAreDeletes(rows: map<int, Report>, ids: seq<int>)
    ensures forall c :: c in CleanupCalls(rows, ids) ==>
              c.Delete? && exists k :: 0 <= k < |ids| && Receipt(c.chat, c.msg) in StoredReceipts(rows, ids[k])
  {
    if ids != [] {
      var n := |ids| - 1;
      CleanupCallsAreDeletes(rows, ids[..n]);
      forall c | c in CleanupCalls(rows, ids)
        ensures c.Delete? && exists k :: 0 <= k < |ids| && Receipt(c.chat, c.msg) in StoredReceipts(rows, ids[k])
      {
        if c in CleanupCalls(rows, ids[..n]) {
          var k :| 0 <= k < n && Receipt(c.chat, c.msg) in StoredReceipts(rows, ids[..n][k]);
          assert ids[..n][k] == ids[k];
        } else {
          var rs := StoredReceipts(rows, ids[n]);
          CallsForEach(Remove, rs);
          var j :| 0 <= j < |rs| && CallsFor(Remove, rs)[j] == c;
          assert Receipt(c.chat, c.msg) == rs[j];
        }
      }
    }
  }

  /**
   * The cleanup threshold `now - 1 day` written with the stamp format picks
   * out exactly the answers given at least a day before `now`: an answer
   * stamped `d` is reaped iff `d` is not after the threshold, and an open
   * report never is.
   */
  lemma ReapedIffDayOld(r: Report, d: DateTime, now: DateTime)
    requires Valid(d) && Valid(now) && DayBefore(now).Some?
    requires r.answer.Some? && r.answer.value.repliedAt == Format(d)
    ensures DayAfter(DayBefore(now).value) == Some(now)
    ensures Matches(r, AnsweredUpTo(Format(DayBefore(now).value))) <==>
              r.status == Answered && !Before(DayBefore(now).value, d)
  {
    DayBeforeAfter(now);
    FormatOrderEq(d, DayBefore(now).value);
  }

  /** An open report is never reaped, whatever the threshold. */
  lemma OpenNeverReaped(r: Report, threshold: string)
    requires r.status == Open
    ensures !Matches(r, AnsweredUpTo(threshold))
  {
  }

  /**
   * Everything an update can change: the `reports` table and its id
   * sequence, the `helpers` table, the chat-id cache, the conversation slots
   * and the calls made to the platform so far.
   */
  datatype World = World(
    rows: map<int, Report>,
    lastId: int,
    helpers: map<string, string>,
    entries: map<string, int>,
    slots: map<Key, State>,
    calls: seq<Call>)

  /** The chat-id middleware: a sender with a non-empty username is remembered in the update's chat. */
  function AfterMiddleware(w: World, event: Event): World {
    var u := event.from.username;
    if u.Some? && u.value != [] then w.(entries := w.entries[Lower(u.value) := event.chat]) else w
  }

  /**
   * The step a navigation handler moves the sender's conversation to, if
   * any: the menus and `/start` end it, the panel ends it for staff, the
   * report button waits for the problem and the add-helper button, for
   * administrators, waits for a name.
   */
  function NavigationTarget(handler: Handler, member: bool, admin: bool): Option<State> {
    match handler
    case StartCommand => Some(Idle)
    case BackToMenu => Some(Idle)
    case Support => Some(Idle)
    case PanelCommand => if member then Some(Idle) else None
    case BackToPanel => if member then Some(Idle) else None
    case CreateReport => Some(WaitingForProblem)
    case AddHelper => if admin then Some(WaitingForUsername) else None
    case _ => None
  }

  /** A navigation handler changes the sender's slot at most. */
  ghost predicate Navigated(w0: World, w: World, handler: Handler, key: Key, member: bool, admin: bool) {
    var to := NavigationTarget(handler, member, admin);
    w == if to.Some? then w0.(slots := w0.slots[key := to.value]) else w0
  }

  /**
   * `process_report`: a text files a report under the next id with the
   * receipts of the staff notices, ends the step and sends one notice per
   * usable staff chat; no text changes nothing.
   */
  ghost predicate ReportFiled(w0: World, w: World, user: User, key: Key, text: Option<string>, createdAt: string,
                              names: set<string>, script: seq<Outcome>, order: seq<string>, chats: seq<int>) {
    if text.None? || text.value == [] then w == w0
    else
      var id := w0.lastId + 1;
      var receipts := Fanout(chats, script, |w0.calls|);
      && FanoutOrder(order, chats, names, w0.entries)
      && w == w0.(rows := w0.rows[id := ReportFrom(user, text.value, createdAt).(notifyMsgIds := EncodeAll(receipts))],
                  lastId := id,
                  slots := w0.slots[key := Idle],
                  calls := w0.calls + SendAll(chats, Announcement(id)))
  }

  /**
   * `process_reply`: a staff member's text answers an existing report, ends
   * the step, sends the answer to the author and edits each stored notice;
   * an unknown report only ends the step; anything else changes nothing.
   */
  ghost predicate ReplyRecorded(w0: World, w: World, user: User, key: Key, reportId: int, text: Option<string>,
                                repliedAt: string, admins: seq<string>) {
    if !IsStaff(admins, w0.helpers.Keys, user.username) || text.None? || text.value == [] then w == w0
    else if reportId !in w0.rows then w == w0.(slots := w0.slots[key := Idle])
    else
      var before := w0.rows[reportId];
      var answer := Answer(text.value, OrDefault(user.username, UnknownReplier), repliedAt);
      w == w0.(rows := w0.rows[reportId := before.(status := Answered, answer := Some(answer))],
               slots := w0.slots[key := Idle],
               calls := w0.calls + [Send(before.userId, AnswerToAuthor(reportId))]
                        + CallsFor(EditTo(MarkedAnswered(reportId)), ParseAll(before.notifyMsgIds)))
  }

  /**
   * `process_add_helper`: an administrator's non-empty name is inserted
   * unless it already has a row, and the step ends; anything else changes
   * nothing.
   */
  ghost predicate HelperAdded(w0: World, w: World, user: User, key: Key, text: Option<string>, admins: seq<string>) {
    if !IsAdmin(admins, user.username) || text.None? || NormaliseHelperName(text.value) == [] then w == w0
    else
      var name := NormaliseHelperName(text.value);
      w == w0.(helpers := if name in w0.helpers then w0.helpers else w0.helpers[name := user.username.value],
               slots := w0.slots[key := Idle])
  }

  /** `cb_reply_report`: staff wait for the answer to the report the button names; anyone else changes nothing. */
  ghost predicate ReplyAwaited(w0: World, w: World, user: User, key: Key, data: string, admins: seq<string>) {
    if IsStaff(admins, w0.helpers.Keys, user.username) && ReportIdOf(data).Some?
    then w == w0.(slots := w0.slots[key := WaitingForReply(ReportIdOf(data).value)])
    else w == w0
  }

  /** `cb_remove_helper`: an administrator's button deletes the named helper unless it is an administrator. */
  ghost predicate HelperRemoved(w0: World, w: World, user: User, data: string, admins: seq<string>) {
    if IsAdmin(admins, user.username) && StartsWith(data, RemovePrefix) && HelperOfData(data) !in admins
    then w == w0.(helpers := w0.helpers - {HelperOfData(data)})
    else w == w0
  }

  /**
   * What the handler `handler` does with `event`, from `w0` to `w`: `state`
   * is the sender's step when the update arrived, `createdAt` and
   * `repliedAt` the two clocks as stamps, and `order`/`chats` the staff
   * names in set order and the chats a new report is announced to.
   */
  ghost predicate Handled(handler: Handler, w0: World, w: World, event: Event, state: State, admins: seq<string>,
                          script: seq<Outcome>, createdAt: string, repliedAt: string, order: seq<string>, chats: seq<int>) {
    var key := KeyOf(event);
    var user := event.from;
    match handler
    case ReportText =>
      event.MessageEvent? &&
      ReportFiled(w0, w, user, key, event.text, createdAt, StaffNames(admins, w0.helpers), script, order, chats)
    case ReplyText =>
      event.MessageEvent? && state.WaitingForReply? &&
      ReplyRecorded(w0, w, user, key, state.reportId, event.text, repliedAt, admins)
    case HelperNameText =>
      event.MessageEvent? && HelperAdded(w0, w, user, key, event.text, admins)
    case ReplyReport =>
      event.CallbackEvent? && ReplyAwaited(w0, w, user, key, event.data, admins)
    case RemoveHelper =>
      event.CallbackEvent? && HelperRemoved(w0, w, user, event.data, admins)
    case _ =>
      Navigated(w0, w, handler, key, IsStaff(admins, w0.helpers.Keys, user.username), IsAdmin(admins, user.username))
  }

  /** The effect of filing a report, field by field, is the step `ReportFiled` describes. */
  lemma FiledWorld(w0: World, w: World, user: User, key: Key, text: string, createdAt: string,
                   names: set<string>, script: seq<Outcome>, order: seq<string>, chats: seq<int>)
    requires text != []
    requires FanoutOrder(order, chats, names, w0.entries)
    requires w.rows == w0.rows[w0.lastId + 1 :=
               ReportFrom(user, text, createdAt).(notifyMsgIds := EncodeAll(Fanout(chats, script, |w0.calls|)))]
    requires w.lastId == w0.lastId + 1 && w.slots == w0.slots[key := Idle]
    requires w.calls == w0.calls + SendAll(chats, Announcement(w0.lastId + 1))
    requires w.helpers == w0.helpers && w.entries == w0.entries
    ensures ReportFiled(w0, w, user, key, Some(text), createdAt, names, script, order, chats)
  {
  }

  /**
   * No handler reopens or deletes a report, and the id sequence only grows:
   * a new report takes an id above every stored one.
   */
  lemma HandledKeepsReports(handler: Handler, w0: World, w: World, event: Event, state: State, admins: seq<string>,
                            script: seq<Outcome>, createdAt: string, repliedAt: string, order: seq<string>, chats: seq<int>)
    requires forall id :: id in w0.rows ==> id <= w0.lastId
    requires Handled(handler, w0, w, event, state, admins, script, createdAt, repliedAt, order, chats)
    ensures StaysAnswered(w0.rows, w.rows)
    ensures w0.rows.Keys <= w.rows.Keys && w0.lastId <= w.lastId
    ensures forall id :: id in w.rows ==> id <= w.lastId
  {
    if handler == ReportText && event.text.Some? && event.text.value != [] {
      assert w0.lastId + 1 !in w0.rows;
    }
  }

  /**
   * A handler touches the conversation of the update's sender only, and
   * leaves the chat-id cache to the middleware.
   */
  lemma HandledIsolatesSender(handler: Handler, w0: World, w: World, event: Event, state: State, admins: seq<string>,
                              script: seq<Outcome>, createdAt: string, repliedAt: string, order: seq<string>, chats: seq<int>)
    requires Handled(handler, w0, w, event, state, admins, script, createdAt, repliedAt, order, chats)
    ensures w.entries == w0.entries
    ensures forall k :: k != KeyOf(event) ==> (k in w.slots <==> k in w0.slots)
    ensures forall k :: k != KeyOf(event) && k in w0.slots ==> w.slots[k] == w0.slots[k]
  {
  }

  /** The menus, the panel and the prompts change the sender's step and nothing else. */
  lemma NavigationKeepsData(handler: Handler, w0: World, w: World, event: Event, state: State, admins: seq<string>,
                            script: seq<Outcome>, createdAt: string, repliedAt: string, order: seq<string>, chats: seq<int>)
    requires handler !in {ReportText, ReplyText, HelperNameText, ReplyReport, RemoveHelper}
    requires Handled(handler, w0, w, event, state, admins, script, createdAt, repliedAt, order, chats)
    ensures w.rows == w0.rows && w.lastId == w0.lastId
    ensures w.helpers == w0.helpers && w.calls == w0.calls
    ensures !IsStaff(admins, w0.helpers.Keys, event.from.username) && handler in {PanelCommand, BackToPanel} ==> w == w0
    ensures !IsAdmin(admins, event.from.username) && handler == AddHelper ==> w == w0
  {
  }

  /** Every administrator keeps a helpers row: adding inserts only, removing spares administrators. */
  lemma HandledKeepsAdmins(handler: Handler, w0: World, w: World, event: Event, state: State, admins: seq<string>,
                           script: seq<Outcome>, createdAt: string, repliedAt: string, order: seq<string>, chats: seq<int>)
    requires forall a :: a in admins ==> a in w0.helpers
    requires Handled(handler, w0, w, event, state, admins, script, createdAt, repliedAt, order, chats)
    ensures forall a :: a in admins ==> a in w.helpers
  {
  }

  /** The effect of adding a helper, field by field, is the step `HelperAdded` describes. */
  lemma AddedWorld(w0: World, w: World, user: User, key: Key, text: string, admins: seq<string>)
    requires IsAdmin(admins, user.username) && NormaliseHelperName(text) != []
    requires var name := NormaliseHelperName(text);
             w.helpers == if name in w0.helpers then w0.helpers else w0.helpers[name := user.username.value]
    requires w.slots == w0.slots[key := Idle]
    requires w.rows == w0.rows && w.lastId == w0.lastId && w.entries == w0.entries && w.calls == w0.calls
    ensures HelperAdded(w0, w, user, key, Some(text), admins)
  {
  }

  class SupportBot {
    const store: ReportStore
    const staff: StaffDirectory
    const cache: ChatIdCache
    const sessions: Sessions
    const platform: Transport
    /** The bot's own username, against which command mentions are checked. */
    const botName: string

    ghost predicate Valid()
      reads this, store, staff
    {
      store.Valid() && staff.Valid()
    }

    /** The bot's state as one value. */
    ghost function Snapshot(): World
      reads store, staff, cache, sessions, platform
    {
      World(store.rows, store.lastId, staff.helpers, cache.entries, sessions.slots, platform.calls)
    }

    /**
     * Start-up: the administrators come from `ADMINS` (or the default), the
     * tables keep what the database file holds, and `init_db` seeds the
     * administrators into the helpers; the cache and the conversation slots
     * start empty.
     */
    constructor (adminsEnv: Option<string>, persistedHelpers: map<string, string>,
                 persistedReports: map<int, Report>, sequence: int, script: seq<Outcome>, botName: string)
      requires sequence >= 0
      requires forall id :: id in persistedReports ==> 1 <= id <= sequence && WellFormed(persistedReports[id])
      ensures Valid()
      ensures store.rows == persistedReports && store.lastId == sequence
      ensures staff.admins == AdminsFromEnv(adminsEnv)
      ensures forall u :: u in staff.helpers <==> u in persistedHelpers || u in staff.admins
      ensures forall u :: u in persistedHelpers ==> staff.helpers[u] == persistedHelpers[u]
      ensures cache.entries == map[] && sessions.slots == map[]
      ensures platform.script == script && platform.calls == []
      ensures this.botName == botName
    {
      store := new ReportStore.Load(persistedReports, sequence);
      staff := new StaffDirectory.Init(adminsEnv.GetOr(DefaultAdmins), persistedHelpers);
      cache := new ChatIdCache();
      sessions := new Sessions();
      platform := new Transport(script);
      this.botName := botName;
    }

    /**
     * The sending loop of `notify_staff`: one send per name of `set(ADMINS)`
     * and the lower-cased helpers that has a cached chat id other than 0, in
     * the set's iteration order (`order`); every delivered send leaves a
     * receipt, and a failed one is skipped without stopping the loop.
     */
    method Announce(reportId: int) returns (receipts: seq<Receipt>, ghost order: seq<string>, ghost chats: seq<int>)
      modifies platform
      ensures FanoutOrder(order, chats, staff.AllStaff(), cache.entries)
      ensures receipts == Fanout(chats, platform.script, |old(platform.calls)|)
      ensures platform.calls == old(platform.calls) + SendAll(chats, Announcement(reportId))
    {
      ghost var calls0, entries := platform.calls, cache.entries;
      var all := staff.AllStaff();
      var left := all;
      order, chats, receipts := [], [], [];
      ghost var names: seq<string> := [];
      while left != {}
        invariant left <= all
        invariant NoDuplicates(order)
        invariant forall n :: n in order <==> n in all && n !in left
        invariant names == Recipients(order, entries)
        invariant chats == Chats(names, entries)
        invariant receipts == Fanout(chats, platform.script, |calls0|)
        invariant platform.calls == calls0 + SendAll(chats, Announcement(reportId))
        decreases |left|
      {
        var name :| name in left;
        NextName(order, name, left, all);
        RecipientsSnoc(order, name, entries);
        left := left - {name};
        order := order + [name];
        var chat := cache.Resolve(name);
        if chat.Some? && chat.value != 0 {
          receipts := AnnounceTo(chat.value, reportId, receipts, chats, calls0);
          ChatsSnoc(names, name, entries);
          names := names + [name];
          chats := chats + [chat.value];
        }
      }
    }

    /**
     * The body of the sending loop for one chat: the notice is sent, and a
     * delivered one adds its receipt; a failure is swallowed.
     */
    method AnnounceTo(chat: int, reportId: int, receipts: seq<Receipt>, ghost chats: seq<int>, ghost calls0: seq<Call>)
      returns (after: seq<Receipt>)
      requires receipts == Fanout(chats, platform.script, |calls0|)
      requires platform.calls == calls0 + SendAll(chats, Announcement(reportId))
      modifies platform
      ensures after == Fanout(chats + [chat], platform.script, |calls0|)
      ensures platform.calls == calls0 + SendAll(chats + [chat], Announcement(reportId))
    {
      SendAllSnoc(calls0, chats, chat, Announcement(reportId));
      var o := platform.Perform(Send(chat, Announcement(reportId)));
      FanoutSnoc(receipts, chats, chat, platform.script, |calls0|, o);
      after := receipts;
      if o.Delivered? {
        after := after + [Receipt(chat, o.msgId)];
      }
    }

    /** `notify_staff`: the sending loop, then the receipts stored comma-joined on the report. */
    method NotifyStaff(reportId: int) returns (receipts: seq<Receipt>, ghost order: seq<string>, ghost chats: seq<int>)
      requires Valid()
      modifies store, platform
      ensures Valid() && store.lastId == old(store.lastId)
      ensures FanoutOrder(order, chats, staff.AllStaff(), cache.entries)
      ensures receipts == Fanout(chats, platform.script, |old(platform.calls)|)
      ensures platform.calls == old(platform.calls) + SendAll(chats, Announcement(reportId))
      ensures store.rows == if reportId in old(store.rows)
                            then old(store.rows)[reportId := old(store.rows)[reportId].(notifyMsgIds := EncodeAll(receipts))]
                            else old(store.rows)
    {
      receipts, order, chats := Announce(reportId);
      store.SetReceipts(reportId, EncodeAll(receipts));
    }

    /** Taking one more name out of the set keeps the order free of repeats. */
    static lemma NextName(order: seq<string>, name: string, left: set<string>, all: set<string>)
      requires NoDuplicates(order) && name in left
      requires forall n :: n in order <==> n in all && n !in left
      ensures NoDuplicates(order + [name])
    {
      assert name !in order;
    }

    /**
     * The body of the loop over the stored receipts: an item that contains
     * `:` and decodes gets one call, whose failure is ignored; any other item
     * gets none.
     */
    method ActOn(item: string, action: Action)
      modifies platform
      ensures platform.calls == old(platform.calls) + CallsFor(action, ItemReceipt(item))
    {
      CallsForItem(action, item);
      if ':' in item {
        var r := Decode(item);
        if r.Some? {
          var _ := platform.Perform(CallFor(action, r.value));
        }
      }
    }

    /**
     * The edits of the reply handler and the deletes of the cleanup job: one
     * call per receipt of `stored` that contains `:` and decodes, in order;
     * a failed call is skipped.
     */
    method ForEachReceipt(stored: string, action: Action)
      modifies platform
      ensures platform.calls == old(platform.calls) + CallsFor(action, ParseAll(stored))
    {
      if stored == [] {
        return;
      }
      ghost var calls0 := platform.calls;
      var items := Split(stored, ',');
      var i := 0;
      while i < |items|
        invariant 0 <= i <= |items|
        invariant platform.calls == calls0 + CallsFor(action, Collect(items[..i]))
      {
        ActOn(items[i], action);
        ReceiptStep(calls0, action, items, i);
        i := i + 1;
      }
      assert items[..i] == items;
    }

    /**
     * The text branch of `process_report`: the row is inserted under a fresh
     * id, the conversation step ends, and the staff are notified of the new id.
     */
    method FileReport(user: User, key: Key, text: string, createdAt: string)
      returns (id: int, ghost order: seq<string>, ghost chats: seq<int>)
      requires Valid()
      modifies store, sessions, platform
      ensures Valid()
      ensures id == old(store.lastId) + 1 && id !in old(store.rows) && store.lastId == id
      ensures sessions.slots == old(sessions.slots)[key := Idle]
      ensures FanoutOrder(order, chats, staff.AllStaff(), cache.entries)
      ensures platform.calls == old(platform.calls) + SendAll(chats, Announcement(id))
      ensures store.rows == old(store.rows)[id :=
                ReportFrom(user, text, createdAt).(notifyMsgIds := EncodeAll(Fanout(chats, platform.script, |old(platform.calls)|)))]
    {
      var row := ReportFrom(user, text, createdAt);
      id := store.Create(user.id, row.username, row.firstName, text, createdAt);
      sessions.Clear(key);
      var receipts;
      receipts, order, chats := NotifyStaff(id);
      StoredWithReceipts(old(store.rows), id, row, EncodeAll(receipts));
    }

    /**
     * `process_report`: a text message in `waiting_for_problem` creates one
     * open report under a fresh id (missing names replaced by the fixed
     * defaults), ends the conversation step and notifies the staff. A message
     * without text changes nothing and leaves the step waiting.
     */
    method ProcessReport(user: User, key: Key, text: Option<string>, clock: Clock)
      returns (id: Option<int>, ghost order: seq<string>, ghost chats: seq<int>)
      requires Valid() && Timestamps.Valid(clock.utc)
      modifies store, sessions, platform
      ensures Valid()
      ensures id == if text.None? || text.value == [] then None else Some(old(store.lastId) + 1)
      ensures id.Some? ==> id.value !in old(store.rows)
      ensures ReportFiled(old(Snapshot()), Snapshot(), user, key, text, Format(clock.utc),
                          staff.AllStaff(), platform.script, order, chats)
    {
      order, chats := [], [];
      if text.None? || text.value == [] {
        return None, order, chats;
      }
      ghost var w0 := World(store.rows, store.lastId, staff.helpers, cache.entries, sessions.slots, platform.calls);
      var created;
      created, order, chats := FileReport(user, key, text.value, Format(clock.utc));
      id := Some(created);
      ghost var w := World(store.rows, store.lastId, staff.helpers, cache.entries, sessions.slots, platform.calls);
      FiledWorld(w0, w, user, key, text.value, Format(clock.utc), staff.AllStaff(), platform.script, order, chats);
    }

    /**
     * `cb_reply_report`: a staff member's reply button stores the report id
     * read from the button and waits for the answer. For anyone else, or
     * data whose id does not parse (the handler raises), nothing changes.
     */
    method ReplyButton(user: User, key: Key, data: string)
      modifies sessions
      ensures ReplyAwaited(old(Snapshot()), Snapshot(), user, key, data, staff.admins)
    {
      if !staff.Member(user.username) {
        return;
      }
      var id := ReportIdOf(data);
      if id.Some? {
        sessions.Set(key, WaitingForReply(id.value));
      }
    }

    /**
     * `process_reply`: a staff member's text answer to an existing report
     * marks it answered (overwriting an earlier answer), ends the step, sends
     * the answer to the author and edits exactly the notices whose receipts
     * the report stores. An unknown id only ends the step; a message without
     * text, or from someone who is not staff, changes nothing.
     */
    method ProcessReply(user: User, key: Key, reportId: int, text: Option<string>, clock: Clock)
      requires Valid() && Timestamps.Valid(clock.local)
      modifies store, sessions, platform
      ensures Valid() && store.lastId == old(store.lastId)
      ensures ReplyRecorded(old(Snapshot()), Snapshot(), user, key, reportId, text, Format(clock.local), staff.admins)
      ensures StaysAnswered(old(store.rows), store.rows)
    {
      if !staff.Member(user.username) || text.None? || text.value == [] {
        return;
      }
      var report := store.Get(reportId);
      if report.None? {
        sessions.Clear(key);
        return;
      }
      var repliedBy := OrDefault(user.username, UnknownReplier);
      var found := store.MarkAnswered(reportId, text.value, repliedBy, Format(clock.local));
      sessions.Clear(key);
      var _ := platform.Perform(Send(report.value.userId, AnswerToAuthor(reportId)));
      ForEachReceipt(report.value.notifyMsgIds, EditTo(MarkedAnswered(reportId)));
    }

    /**
     * `process_add_helper`: an administrator's text is normalised to a
     * helper name; an empty name asks again and keeps the step; otherwise the
     * name is added (a name already present leaves the helpers as they are)
     * and the step ends either way. A message without text makes the handler
     * raise and nothing changes; a sender who is not an administrator is
     * ignored.
     */
    method ProcessAddHelper(user: User, key: Key, text: Option<string>)
      requires Valid()
      modifies staff, sessions
      ensures Valid()
      ensures HelperAdded(old(Snapshot()), Snapshot(), user, key, text, staff.admins)
    {
      if !staff.Admin(user.username) || text.None? {
        return;
      }
      var name := NormaliseHelperName(text.value);
      if name == [] {
        return;
      }
      ghost var w0 := World(store.rows, store.lastId, staff.helpers, cache.entries, sessions.slots, platform.calls);
      var _ := staff.Add(name, user.username.value);
      sessions.Clear(key);
      AddedWorld(w0, World(store.rows, store.lastId, staff.helpers, cache.entries, sessions.slots, platform.calls), user, key, text.value, staff.admins);
    }

    /**
     * `cb_remove_helper`: an administrator's remove button deletes the helper
     * named in its data; an administrator's own name is refused and a name
     * without a row changes nothing. Anyone else is refused.
     */
    method RemoveHelperButton(user: User, data: string) returns (outcome: Option<RemoveOutcome>)
      requires Valid() && StartsWith(data, RemovePrefix)
      modifies staff
      ensures Valid()
      ensures outcome.None? <==> !staff.Admin(user.username)
      ensures outcome.None? ==> staff.helpers == old(staff.helpers)
      ensures outcome == Some(RefusedAdmin) <==> staff.Admin(user.username) && HelperOfData(data) in staff.admins
      ensures outcome == Some(RefusedAdmin) ==> staff.helpers == old(staff.helpers)
      ensures outcome == Some(Removed) ==> staff.helpers == old(staff.helpers) - {HelperOfData(data)}
      ensures HelperRemoved(old(Snapshot()), Snapshot(), user, data, staff.admins)
    {
      if !staff.Admin(user.username) {
        return None;
      }
      var removed := staff.Remove(HelperOfData(data));
      outcome := Some(removed);
    }

    /** The helpers `manage_helpers` offers a remove button for: every helper that is not an administrator. */
    function RemoveButtons(): (buttons: set<string>)
      reads this, staff
      ensures forall d :: d in buttons ==>
                StartsWith(d, RemovePrefix) && HelperOfData(d) in staff.helpers && HelperOfData(d) !in staff.admins
      ensures forall h :: h in staff.helpers && h !in staff.admins ==> RemoveData(h) in buttons
    {
      set h | h in staff.helpers && h !in staff.admins :: RemoveData(h)
    }

    /**
     * `cb_my_reports`: the user's own reports, newest first, at most ten;
     * only older reports of the user are left off.
     */
    function MyReports(userId: int): (ids: seq<int>)
      requires store.Valid()
      reads store
      ensures |ids| <= MyReportsLimit
      ensures forall i, j :: 0 <= i < j < |ids| ==> ids[i] > ids[j]
      ensures forall i :: 0 <= i < |ids| ==> ids[i] in store.rows && store.rows[ids[i]].userId == userId
      ensures forall id :: id in store.rows && store.rows[id].userId == userId && id !in ids ==>
                |ids| == MyReportsLimit && forall i :: 0 <= i < |ids| ==> id < ids[i]
    {
      NewestLimited(store.rows, store.lastId, FromUser(userId), MyReportsLimit)
    }

    /** `cb_staff_open_reports`: for staff, every open report, newest first. */
    function OpenReports(user: User): (ids: Option<seq<int>>)
      requires store.Valid()
      reads store, staff
      ensures ids.None? <==> !staff.Member(user.username)
      ensures ids.Some? ==> forall i, j :: 0 <= i < j < |ids.value| ==> ids.value[i] > ids.value[j]
      ensures ids.Some? ==> forall id :: id in ids.value <==> id in store.rows && store.rows[id].status == Open
    {
      if !staff.Member(user.username) then None
      else Some(NewestFirst(store.rows, store.lastId, WithStatus(Open)))
    }

    /** `cb_staff_answered`: for staff, every answered report, latest answer first. */
    function AnsweredReports(user: User): (ids: Option<seq<int>>)
      requires store.Valid()
      reads store, staff
      ensures ids.None? <==> !staff.Member(user.username)
      ensures ids.Some? ==> NewestAnswerFirst(store.rows, ids.value)
      ensures ids.Some? ==> forall id :: id in ids.value <==> id in store.rows && store.rows[id].status == Answered
    {
      if !staff.Member(user.username) then None
      else
        Some(LatestAnswered(store.rows, store.lastId))
    }

    /** `cb_view_report`: for staff, the report whose id the button carries. */
    function ViewReport(user: User, data: string): (v: ViewOutcome)
      reads store, staff
      ensures v == NoAccess <==> !staff.Member(user.username)
      ensures v == BadData <==> staff.Member(user.username) && ReportIdOf(data).None?
      ensures v.Shown? ==> v.id == ReportIdOf(data).value && v.id in store.rows && v.report == store.rows[v.id]
      ensures v == NotFound ==> ReportIdOf(data).Some? && ReportIdOf(data).value !in store.rows
    {
      if !staff.Member(user.username) then NoAccess
      else
        match ReportIdOf(data)
        case None => BadData
        case Some(id) =>
          match store.Get(id)
          case None => NotFound
          case Some(r) => Shown(id, r)
    }

    /** The loop of `cleanup_old_reports`: the stored notices of each row of `ids`, in turn, are deleted. */
    method DeleteNotices(rows: map<int, Report>, ids: seq<int>)
      requires forall i :: 0 <= i < |ids| ==> ids[i] in rows
      modifies platform
      ensures platform.calls == old(platform.calls) + CleanupCalls(rows, ids)
    {
      ghost var calls0 := platform.calls;
      var i := 0;
      while i < |ids|
        invariant 0 <= i <= |ids|
        invariant platform.calls == calls0 + CleanupCalls(rows, ids[..i])
      {
        ForEachReceipt(rows[ids[i]].notifyMsgIds, Remove);
        CleanupStep(calls0, rows, ids, i);
        i := i + 1;
      }
      assert ids[..i] == ids;
    }

    /**
     * `cleanup_old_reports`: with the threshold `now - 1 day`, the stored
     * notices of every answered report replied to at or before the threshold
     * are deleted (failures ignored), and then exactly those reports are
     * removed. The query has no `ORDER BY`, so the model fixes one order,
     * ascending ids; every other report is kept as it was. For `now`
     * on the first day of year 1000 the threshold is outside the stamp model
     * and nothing happens.
     */
    method Cleanup(now: DateTime)
      requires Valid() && Timestamps.Valid(now)
      modifies store, platform
      ensures Valid() && store.lastId == old(store.lastId)
      ensures DayBefore(now).None? ==>
                store.rows == old(store.rows) && platform.calls == old(platform.calls)
      ensures DayBefore(now).Some? ==>
                var threshold := Format(DayBefore(now).value);
                var reaped := Select(old(store.rows), old(store.lastId), AnsweredUpTo(threshold));
                && platform.calls == old(platform.calls) + CleanupCalls(old(store.rows), reaped)
                && (forall id :: id in store.rows <==> id in old(store.rows) && !Matches(old(store.rows)[id], AnsweredUpTo(threshold)))
                && (forall id :: id in store.rows ==> store.rows[id] == old(store.rows)[id])
    {
      var day := DayBefore(now);
      if day.None? {
        return;
      }
      var threshold := Format(day.value);
      var reaped := Select(store.rows, store.lastId, AnsweredUpTo(threshold));
      DeleteNotices(store.rows, reaped);
      store.DeleteAnsweredUpTo(threshold);
    }

    /**
     * One update: the handler `Route` picks (the state it sees is the
     * sender's conversation slot), preceded by the chat-id middleware, which
     * runs only for an update some handler accepts. An update no handler
     * accepts changes nothing.
     */
    method Dispatch(event: Event, clock: Clock) returns (handler: Handler, ghost order: seq<string>, ghost chats: seq<int>)
      requires Valid() && Timestamps.Valid(clock.local) && Timestamps.Valid(clock.utc)
      modifies store, staff, cache, sessions, platform
      ensures Valid()
      ensures handler == Route(event, old(sessions.StateOf(KeyOf(event))), botName)
      ensures handler == Unhandled ==> Snapshot() == old(Snapshot())
      ensures handler != Unhandled ==>
                Handled(handler, AfterMiddleware(old(Snapshot()), event), Snapshot(), event,
                        old(sessions.StateOf(KeyOf(event))), staff.admins, platform.script,
                        Format(clock.utc), Format(clock.local), order, chats)
      ensures StaysAnswered(old(store.rows), store.rows)
    {
      order, chats := [], [];
      var state := sessions.StateOf(KeyOf(event));
      handler := Route(event, state, botName);
      if handler == Unhandled {
        return;
      }
      ghost var w0 := Snapshot();
      cache.Remember(event.from.username, event.chat);
      assert Snapshot() == AfterMiddleware(w0, event);
      if handler in {ReportText, ReplyText, HelperNameText, ReplyReport, RemoveHelper} {
        RoutedShape(event, state, botName);
        order, chats := Process(handler, event, state, clock);
      } else {
        Navigate(handler, event);
      }
    }

    /** The handlers that only move the conversation: the menus, the panel and the prompts. */
    method Navigate(handler: Handler, event: Event)
      modifies sessions
      ensures Navigated(old(Snapshot()), Snapshot(), handler, KeyOf(event),
                        staff.Member(event.from.username), staff.Admin(event.from.username))
    {
      var key := KeyOf(event);
      var user := event.from;
      match handler {
        case StartCommand =>
          sessions.Clear(key);
        case BackToMenu =>
          sessions.Clear(key);
        case Support =>
          sessions.Clear(key);
        case PanelCommand =>
          if staff.Member(user.username) {
            sessions.Clear(key);
          }
        case BackToPanel =>
          if staff.Member(user.username) {
            sessions.Clear(key);
          }
        case CreateReport =>
          sessions.Set(key, WaitingForProblem);
        case AddHelper =>
          if staff.Admin(user.username) {
            sessions.Set(key, WaitingForUsername);
          }
        case _ =>
      }
    }

    /** The handlers that act on the store, the helpers or the platform. */
    method Process(handler: Handler, event: Event, state: State, clock: Clock)
      returns (ghost order: seq<string>, ghost chats: seq<int>)
      requires Valid() && Timestamps.Valid(clock.local) && Timestamps.Valid(clock.utc)
      requires handler in {ReportText, ReplyText, HelperNameText, ReplyReport, RemoveHelper}
      requires handler in {ReportText, ReplyText, HelperNameText} ==> event.MessageEvent?
      requires handler == ReplyText ==> state.WaitingForReply?
      requires handler in {ReplyReport, RemoveHelper} ==> event.CallbackEvent?
      requires handler == RemoveHelper ==> StartsWith(event.data, RemovePrefix)
      modifies store, staff, sessions, platform
      ensures Valid()
      ensures Handled(handler, old(Snapshot()), Snapshot(), event, state, staff.admins, platform.script,
                      Format(clock.utc), Format(clock.local), order, chats)
      ensures StaysAnswered(old(store.rows), store.rows)
    {
      ghost var w0 := Snapshot();
      order, chats := [], [];
      var key := KeyOf(event);
      var user := event.from;
      match handler {
        case ReportText =>
          var id;
          id, order, chats := ProcessReport(user, key, event.text, clock);
        case ReplyText =>
          ProcessReply(user, key, state.reportId, event.text, clock);
        case HelperNameText =>
          ProcessAddHelper(user, key, event.text);
        case ReplyReport =>
          ReplyButton(user, key, event.data);
        case RemoveHelper =>
          var _ := RemoveHelperButton(user, event.data);
      }
      HandledKeepsReports(handler, w0, Snapshot(), event, state, staff.admins, platform.script,
                          Format(clock.utc), Format(clock.local), order, chats);
    }
  }
}
