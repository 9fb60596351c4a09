/**
 * The per-user conversation slot (aiogram's FSM storage): at most one
 * pending step per chat and user.
 */
module Conversation {

  /** `ReportStates`, `ReplyStates` and `AddHelperStates`, with `None` as `Idle`. */
  datatype State =
    | Idle
    | WaitingForProblem
    | WaitingForReply(reportId: int)  // the `report_id` kept in the state data
    | WaitingForUsername

  /** aiogram keys a user's state by the chat and the user. */
  datatype Key = Key(chat: int, user: int)

  class Sessions {
    var slots: map<Key, State>

    constructor ()
      ensures slots == map[]
    {
      slots := map[];
    }

    /** The state of `key`; a user never seen is idle. */
    function StateOf(key: Key): State
      reads this
    {
      if key in slots then slots[key] else Idle
    }

    /** `state.set_state(...)` (with `update_data`): the new step replaces the old one. */
    method Set(key: Key, s: State)
      modifies this
      ensures slots == old(slots)[key := s]
      ensures StateOf(key) == s
      ensures forall k :: k != key ==> StateOf(k) == old(StateOf(k))
    {
      slots := slots[key := s];
    }

    /** `state.clear()`: back to idle, the step's data discarded. */
    method Clear(key: Key)
      modifies this
      ensures slots == old(slots)[key := Idle]
      ensures StateOf(key) == Idle
      ensures forall k :: k != key ==> StateOf(k) == old(StateOf(k))
    {
      slots := slots[key := Idle];
    }
  }
}
