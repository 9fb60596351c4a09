/**
 * How an update reaches a handler: the handlers of `main_router` are tried in
 * the order they are registered, and the first whose filters accept the
 * update (a command, a conversation state, the callback data) handles it.
 */
module Routing {
  import opened Common
  import opened Text
  import opened CallbackData
  import opened Conversation

  /** The sender of an update (`from_user`). */
  datatype User = User(id: int, username: Option<string>, firstName: Option<string>)

  /** A message (its text, `None` for a photo or sticker) or a button press (its `callback_data`). */
  datatype Event =
    | MessageEvent(from: User, chat: int, text: Option<string>)
    | CallbackEvent(from: User, chat: int, data: string)

  /** The live handlers, in registration order. */
  datatype Handler =
    | StartCommand | PanelCommand | ReportText | ReplyText | HelperNameText
    | BackToMenu | Connect | Support | CreateReport | MyReports | OpenReports | AnsweredReports
    | BackToPanel | ViewReport | ReplyReport | ManageHelpers | AddHelper | RemoveHelper
    | Unhandled

  /** The leading characters of `s` up to the first whitespace. */
  function TakeWord(s: string): (w: string)
    ensures |w| <= |s| && w == s[..|w|]
    ensures forall i :: 0 <= i < |w| ==> !IsSpace(w[i])
    ensures |w| < |s| ==> IsSpace(s[|w|])
  {
    if s == [] || IsSpace(s[0]) then [] else [s[0]] + TakeWord(s[1..])
  }

  /** `text.split(maxsplit=1)[0]`: the first whitespace-separated word, empty when there is none. */
  function FirstWord(text: string): string {
    TakeWord(StripLeft(text))
  }

  /**
   * `body.partition("@")`: the part before the first `@` is the command; a
   * mention after it must be this bot's name, compared case-insensitively.
   */
  function Addressed(body: string, botName: string): (command: Option<string>)
    ensures command.Some? ==> '@' !in command.value
    ensures command.Some? ==> |command.value| <= |body| && command.value == body[..|command.value|]
    ensures '@' !in body ==> command == Some(body)
  {
    if '@' !in body then Some(body)
    else
      var at := IndexOf(body, '@');
      if at + 1 == |body| || Lower(body[at + 1..]) == Lower(botName) then Some(body[..at]) else None
  }

  /**
   * The command a message names, as the `Command` filters read it: the first
   * word must start with `/`, and what follows is the command, addressed to
   * no bot or to this one.
   */
  function CommandOf(text: string, botName: string): (command: Option<string>)
    ensures command.Some? ==> '@' !in command.value
    ensures command.Some? ==> FirstWord(text) != [] && FirstWord(text)[0] == '/'
  {
    var word := FirstWord(text);
    if word == [] || word[0] != '/' then None else Addressed(word[1..], botName)
  }

  /** The handler of `main_router` that an event reaches in conversation state `state`. */
  function Route(event: Event, state: State, botName: string): Handler {
    match event
    case MessageEvent(_, _, text) =>
      if text.Some? && CommandOf(text.value, botName) == Some("start") then StartCommand
      else if text.Some? && CommandOf(text.value, botName) == Some("panel") then PanelCommand
      else if state == WaitingForProblem then ReportText
      else if state.WaitingForReply? then ReplyText
      else if state == WaitingForUsername then HelperNameText
      else Unhandled
    case CallbackEvent(_, _, data) =>
      if data == "back_to_menu" then BackToMenu
      else if data == "connect" then Connect
      else if data == "support" then Support
      else if data == "create_report" then CreateReport
      else if data == "my_reports" then MyReports
      else if data == "staff_open_reports" then OpenReports
      else if data == "staff_answered_reports" then AnsweredReports
      else if data == "back_to_panel" then BackToPanel
      else if StartsWith(data, ViewPrefix) then ViewReport
      else if StartsWith(data, ReplyPrefix) then ReplyReport
      else if data == "manage_helpers" then ManageHelpers
      else if data == "add_helper" then AddHelper
      else if StartsWith(data, RemovePrefix) then RemoveHelper
      else Unhandled
  }

  /**
   * What each handler may rely on: the text handlers get messages, the reply
   * handler a conversation waiting for a reply, and the button handlers
   * callbacks whose data has their prefix.
   */
  lemma RoutedShape(event: Event, state: State, botName: string)
    ensures var h := Route(event, state, botName);
            && (h in {ReportText, ReplyText, HelperNameText, StartCommand, PanelCommand} ==> event.MessageEvent?)
            && (h == ReportText ==> state == WaitingForProblem)
            && (h == ReplyText ==> state.WaitingForReply?)
            && (h == HelperNameText ==> state == WaitingForUsername)
            && (h == ViewReport ==> event.CallbackEvent? && StartsWith(event.data, ViewPrefix))
            && (h == ReplyReport ==> event.CallbackEvent? && StartsWith(event.data, ReplyPrefix))
            && (h == RemoveHelper ==> event.CallbackEvent? && StartsWith(event.data, RemovePrefix))
  {
  }

  /** `/name`, alone or followed by arguments, is the command `name`. */
  lemma CommandOfPlain(name: string, rest: string, botName: string)
    requires '@' !in name && forall i :: 0 <= i < |name| ==> !IsSpace(name[i])
    requires rest == [] || IsSpace(rest[0])
    ensures CommandOf(['/'] + name + rest, botName) == Some(name)
  {
    var text := ['/'] + name + rest;
    StripTrimmedLeft(text);
    TakeWordPrefix(['/'] + name, rest);
    assert (['/'] + name)[1..] == name;
  }

  /** `/name@target` is read as the body `name@target`, whatever the target. */
  lemma CommandOfAddressed(name: string, target: string, botName: string)
    requires '@' !in name && forall i :: 0 <= i < |name| ==> !IsSpace(name[i])
    requires target != [] && forall i :: 0 <= i < |target| ==> !IsSpace(target[i])
    ensures CommandOf(['/'] + name + ['@'] + target, botName) == Addressed(name + ['@'] + target, botName)
  {
    var body := name + ['@'] + target;
    var word := ['/'] + body;
    assert ['/'] + name + ['@'] + target == word;
    StripTrimmedLeft(word);
    assert forall i :: 0 <= i < |word| ==> !IsSpace(word[i]) by {
      forall i | 0 <= i < |word| ensures !IsSpace(word[i]) {
        if 1 <= i <= |name| {
          assert word[i] == name[i - 1];
        } else if i > |name| + 1 {
          assert word[i] == target[i - |name| - 2];
        }
      }
    }
    TakeWordPrefix(word, []);
    assert word + [] == word;
    assert word[1..] == body;
  }

  /** `/name@bot` addressed to this bot is the command `name`. */
  lemma CommandOfMention(name: string, botName: string)
    requires '@' !in name && forall i :: 0 <= i < |name| ==> !IsSpace(name[i])
    requires botName != [] && forall i :: 0 <= i < |botName| ==> !IsSpace(botName[i])
    ensures CommandOf(['/'] + name + ['@'] + botName, botName) == Some(name)
  {
    CommandOfAddressed(name, botName, botName);
    AddressedToBot(name, botName);
  }

  /** `/name@other` addressed to another bot is no command of this one. */
  lemma CommandOfOtherBot(name: string, other: string, botName: string)
    requires '@' !in name && forall i :: 0 <= i < |name| ==> !IsSpace(name[i])
    requires other != [] && forall i :: 0 <= i < |other| ==> !IsSpace(other[i])
    requires Lower(other) != Lower(botName)
    ensures CommandOf(['/'] + name + ['@'] + other, botName).None?
  {
    var body := name + ['@'] + other;
    CommandOfAddressed(name, other, botName);
    IndexOfAfter(name, '@', other);
    assert body[|name| + 1..] == other;
  }

  lemma AddressedToBot(name: string, botName: string)
    requires '@' !in name && botName != []
    ensures Addressed(name + ['@'] + botName, botName) == Some(name)
  {
    var body := name + ['@'] + botName;
    IndexOfAfter(name, '@', botName);
    assert body[|name| + 1..] == botName;
    assert body[..|name|] == name;
  }

  lemma StripTrimmedLeft(s: string)
    requires s != [] && !IsSpace(s[0])
    ensures StripLeft(s) == s
  {
  }

  /** A word followed by nothing or by whitespace is taken whole. */
  lemma {:induction false} TakeWordPrefix(w: string, rest: string)
    requires forall i :: 0 <= i < |w| ==> !IsSpace(w[i])
    requires rest == [] || IsSpace(rest[0])
    ensures TakeWord(w + rest) == w
  {
    if w != [] {
      assert (w + rest)[1..] == w[1..] + rest;
      TakeWordPrefix(w[1..], rest);
    } else {
      assert w + rest == rest;
    }
  }

  /** A `/start` message reaches the start handler in every conversation state. */
  lemma StartFromAnyState(from: User, chat: int, state: State, botName: string)
    ensures Route(MessageEvent(from, chat, Some("/start")), state, botName) == StartCommand
  {
    CommandOfPlain("start", [], botName);
    assert ['/'] + "start" + [] == "/start";
  }

  /** `/start@bot`, addressed to this bot, reaches the start handler in every conversation state. */
  lemma MentionedStartFromAnyState(from: User, chat: int, state: State, botName: string)
    requires botName != [] && forall i :: 0 <= i < |botName| ==> !IsSpace(botName[i])
    ensures Route(MessageEvent(from, chat, Some("/start@" + botName)), state, botName) == StartCommand
  {
    assert "/start@" == ['/'] + "start" + ['@'];
    assert "/start@" + botName == ['/'] + "start" + ['@'] + botName;
    CommandOfMention("start", botName);
  }

  /** A `/start` or `/panel` addressed to another bot is routed like a message without text. */
  lemma OtherBotCommandIgnored(from: User, chat: int, name: string, other: string, state: State, botName: string)
    requires name in {"start", "panel"}
    requires other != [] && forall i :: 0 <= i < |other| ==> !IsSpace(other[i])
    requires Lower(other) != Lower(botName)
    ensures Route(MessageEvent(from, chat, Some("/" + name + "@" + other)), state, botName)
            == Route(MessageEvent(from, chat, None), state, botName)
  {
    CommandOfOtherBot(name, other, botName);
    assert ['/'] + name + ['@'] + other == "/" + name + "@" + other;
  }

  /**
   * A message that is not a command goes to the handler of the step the
   * conversation is waiting for, and to no handler when it waits for nothing.
   */
  lemma PlainTextFollowsState(from: User, chat: int, text: Option<string>, state: State, botName: string)
    requires text.None? || CommandOf(text.value, botName).None?
    ensures Route(MessageEvent(from, chat, text), state, botName) ==
              match state
              case Idle => Unhandled
              case WaitingForProblem => ReportText
              case WaitingForReply(_) => ReplyText
              case WaitingForUsername => HelperNameText
  {
  }

  /** A reply or edit-reply button reaches the handler that asks for the answer. */
  lemma ReplyButtonRouted(from: User, chat: int, id: int, state: State, botName: string)
    ensures Route(CallbackEvent(from, chat, ReplyData(id)), state, botName) == ReplyReport
  {
    var d := ReplyData(id);
    assert d[0] == 'r';
    assert d !in {"back_to_menu", "connect", "support", "create_report", "my_reports",
                  "staff_open_reports", "staff_answered_reports", "back_to_panel"};
    assert d[..|ViewPrefix|][0] == 'r';
  }

  /** A report button of the staff listings reaches the handler that shows the report. */
  lemma ViewButtonRouted(from: User, chat: int, id: int, state: State, botName: string)
    ensures Route(CallbackEvent(from, chat, ViewData(id)), state, botName) == ViewReport
  {
    var d := ViewData(id);
    assert d[0] == 'v';
    assert d !in {"back_to_menu", "connect", "support", "create_report", "my_reports",
                  "staff_open_reports", "staff_answered_reports", "back_to_panel"};
  }

  /** A helper's remove button reaches the handler that removes helpers. */
  lemma RemoveButtonRouted(from: User, chat: int, helper: string, state: State, botName: string)
    ensures Route(CallbackEvent(from, chat, RemoveData(helper)), state, botName) == RemoveHelper
  {
    var d := RemoveData(helper);
    assert d[0] == 'r' && d[2] == 'm';
    assert d !in {"back_to_menu", "connect", "support", "create_report", "my_reports",
                  "staff_open_reports", "staff_answered_reports", "back_to_panel"};
    assert d != "manage_helpers" && d != "add_helper";
    assert d[..|ViewPrefix|][0] == 'r';
    assert d[..|ReplyPrefix|][2] == 'm';
  }
}
