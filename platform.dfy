/**
 * The chat platform as the core sees it: every send, edit or delete is one
 * call, and the platform's answers are supplied in advance as a script whose
 * `i`-th entry answers the `i`-th call. Calls beyond the script fail.
 */
module Platform {

  /** What the platform answered: a delivered message's id, or an error. */
  datatype Outcome = Delivered(msgId: int) | Failed

  /** Which notice a message carries; the text itself is presentation. */
  datatype Notice =
    | Announcement(reportId: int)   // the staff notice with the reply button
    | AnswerToAuthor(reportId: int) // the answer sent to the report's author
    | MarkedAnswered(reportId: int) // the staff notice edited to show the answer

  datatype Call =
    | Send(chat: int, notice: Notice)
    | Edit(chat: int, msg: int, notice: Notice)
    | Delete(chat: int, msg: int)

  /** The answer the `i`-th call gets. */
  function OutcomeAt(script: seq<Outcome>, i: nat): (o: Outcome)
    ensures i >= |script| ==> o == Failed
  {
    if i < |script| then script[i] else Failed
  }

  class Transport {
    /** The platform's answers, one per call in the order the calls are made. */
    const script: seq<Outcome>
    /** Every call made so far, in order. */
    var calls: seq<Call>

    constructor (script: seq<Outcome>)
      ensures this.script == script && calls == []
    {
      this.script := script;
      calls := [];
    }

    /** One call to the platform; it gets the next answer of the script. */
    method Perform(call: Call) returns (o: Outcome)
      modifies this
      ensures o == OutcomeAt(script, |old(calls)|)
      ensures calls == old(calls) + [call]
    {
      o := OutcomeAt(script, |calls|);
      calls := calls + [call];
    }
  }
}
