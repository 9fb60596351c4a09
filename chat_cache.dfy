/**
 * `_chat_id_cache`: the last chat each username was seen in, filled by the
 * `CacheChatIdMiddleware` and read when staff are notified.
 */
module ChatCache {
  import opened Common
  import opened Text

  class ChatIdCache {
    /** Lower-cased username to chat id. */
    var entries: map<string, int>

    constructor ()
      ensures entries == map[]
    {
      entries := map[];
    }

    /** `_chat_id_cache.get(username)`. */
    function Resolve(name: string): (chat: Option<int>)
      reads this
      ensures chat.Some? <==> name in entries
      ensures chat.Some? ==> chat.value == entries[name]
    {
      if name in entries then Some(entries[name]) else None
    }

    /**
     * The middleware: a sender with a non-empty username is remembered under
     * its lower-cased name, replacing whatever chat was remembered before.
     */
    method Remember(username: Option<string>, chat: int)
      modifies this
      ensures username.Some? && username.value != [] ==> entries == old(entries)[Lower(username.value) := chat]
      ensures username.None? || username.value == [] ==> entries == old(entries)
      ensures username.Some? && username.value != [] ==> Resolve(Lower(username.value)) == Some(chat)
    {
      if username.Some? && username.value != [] {
        entries := entries[Lower(username.value) := chat];
      }
    }
  }
}
