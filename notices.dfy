/**
 * What the staff notices of a report amount to: who is sent one when the
 * report is created, which receipts come back, and which calls the reply
 * handler and the cleanup job make for the stored receipts.
 */
module Notices {
  import opened Common
  import opened Receipts
  import opened Platform

  /** No name occurs twice: the order in which a Python `set` is iterated. */
  predicate NoDuplicates(order: seq<string>) {
    forall i, j :: 0 <= i < j < |order| ==> order[i] != order[j]
  }

  /** `order` lists every name of `names` exactly once. */
  ghost predicate Enumerates(order: seq<string>, names: set<string>) {
    NoDuplicates(order) && forall n :: n in order <==> n in names
  }

  /** A cached chat id that `if chat_id:` lets through. */
  predicate Reachable(entries: map<string, int>, name: string) {
    name in entries && entries[name] != 0
  }

  /** The names, in iteration order, whose notice is attempted. */
  function Recipients(order: seq<string>, entries: map<string, int>): (names: seq<string>)
    ensures |names| <= |order|
    ensures forall i :: 0 <= i < |names| ==> Reachable(entries, names[i])
  {
    if order == [] then []
    else
      var last := order[|order| - 1];
      Recipients(order[..|order| - 1], entries) + (if Reachable(entries, last) then [last] else [])
  }

  /** A name is a recipient exactly when it is iterated over and has a usable cached chat. */
  lemma {:induction false} RecipientsExact(order: seq<string>, entries: map<string, int>)
    ensures forall n :: n in Recipients(order, entries) <==> n in order && Reachable(entries, n)
  {
    if order != [] {
      var init := order[..|order| - 1];
      RecipientsExact(init, entries);
      assert order == init + [order[|order| - 1]];
    }
  }

  /** Each recipient is sent one notice: no name is notified twice. */
  lemma {:induction false} RecipientsOnce(order: seq<string>, entries: map<string, int>)
    requires NoDuplicates(order)
    ensures NoDuplicates(Recipients(order, entries))
  {
    if order != [] {
      var init := order[..|order| - 1];
      var last := order[|order| - 1];
      RecipientsOnce(init, entries);
      RecipientsExact(init, entries);
      assert last !in init by {
        forall k | 0 <= k < |init| ensures init[k] != last {
          assert order[k] == init[k];
        }
      }
    }
  }

  /** The chat each recipient's notice is sent to. */
  function Chats(names: seq<string>, entries: map<string, int>): (chats: seq<int>)
    requires forall i :: 0 <= i < |names| ==> Reachable(entries, names[i])
    ensures |chats| == |names|
    ensures forall i :: 0 <= i < |names| ==> Reachable(entries, names[i]) && chats[i] == entries[names[i]] && chats[i] != 0
  {
    seq(|names|, i requires 0 <= i < |names| && Reachable(entries, names[i]) => entries[names[i]])
  }

  /**
   * The fan-out's recipients: `order` lists the names of `names` once each,
   * as the set is iterated, and `chats` are the chats of those of them with
   * a usable cached chat, in that order.
   */
  ghost predicate FanoutOrder(order: seq<string>, chats: seq<int>, names: set<string>, entries: map<string, int>) {
    Enumerates(order, names) && chats == Chats(Recipients(order, entries), entries)
  }

  /** One `send_message` per chat, in order, each with the new-report notice. */
  function SendAll(chats: seq<int>, notice: Notice): (calls: seq<Call>)
    ensures |calls| == |chats|
    ensures forall i :: 0 <= i < |chats| ==> calls[i] == Send(chats[i], notice)
  {
    seq(|chats|, i requires 0 <= i < |chats| => Send(chats[i], notice))
  }

  /**
   * `sent_msg_ids` after sending to `chats`, the first send being call
   * number `base` of the platform: a receipt for every send that was
   * delivered, in order.
   */
  function Fanout(chats: seq<int>, script: seq<Outcome>, base: nat): (rs: seq<Receipt>)
    ensures |rs| <= |chats|
  {
    if chats == [] then []
    else
      var n := |chats| - 1;
      var o := OutcomeAt(script, base + n);
      Fanout(chats[..n], script, base) + (if o.Delivered? then [Receipt(chats[n], o.msgId)] else [])
  }

  /** A receipt is recorded exactly for a send the platform delivered, with the message id it gave. */
  lemma {:induction false} FanoutExact(chats: seq<int>, script: seq<Outcome>, base: nat)
    ensures forall r :: r in Fanout(chats, script, base) <==>
              exists i :: 0 <= i < |chats| && chats[i] == r.chat && OutcomeAt(script, base + i) == Delivered(r.msg)
  {
    if chats != [] {
      var n := |chats| - 1;
      FanoutExact(chats[..n], script, base);
      forall r: Receipt | (exists i :: 0 <= i < |chats| && chats[i] == r.chat && OutcomeAt(script, base + i) == Delivered(r.msg))
        ensures r in Fanout(chats, script, base)
      {
        var i :| 0 <= i < |chats| && chats[i] == r.chat && OutcomeAt(script, base + i) == Delivered(r.msg);
        if i < n {
          assert chats[..n][i] == r.chat;
        }
      }
      forall r: Receipt | r in Fanout(chats, script, base)
        ensures exists i :: 0 <= i < |chats| && chats[i] == r.chat && OutcomeAt(script, base + i) == Delivered(r.msg)
      {
        if r in Fanout(chats[..n], script, base) {
          var i :| 0 <= i < n && chats[..n][i] == r.chat && OutcomeAt(script, base + i) == Delivered(r.msg);
          assert chats[i] == r.chat;
        }
      }
    }
  }

  /** How many of the `n` sends made from call number `base` on the platform delivered. */
  function DeliveredCount(script: seq<Outcome>, base: nat, n: nat): (m: nat)
    ensures m <= n
  {
    if n == 0 then 0
    else DeliveredCount(script, base, n - 1) + (if OutcomeAt(script, base + n - 1).Delivered? then 1 else 0)
  }

  /** `m` delivered sends leave exactly `m` receipts: a failure loses its own receipt and no other. */
  lemma {:induction false} FanoutCount(chats: seq<int>, script: seq<Outcome>, base: nat)
    ensures |Fanout(chats, script, base)| == DeliveredCount(script, base, |chats|)
  {
    if chats != [] {
      FanoutCount(chats[..|chats| - 1], script, base);
    }
  }

  /** A later pass over the stored receipts of `m` delivered sends makes exactly `m` calls. */
  lemma StoredCallsCount(chats: seq<int>, script: seq<Outcome>, base: nat, a: Action)
    ensures |CallsFor(a, ParseAll(EncodeAll(Fanout(chats, script, base))))| == DeliveredCount(script, base, |chats|)
  {
    FanoutCount(chats, script, base);
    StoredNoticesReached(chats, script, base, a);
  }

  /** Every send yields a receipt exactly when none of them failed. */
  lemma {:induction false} FanoutComplete(chats: seq<int>, script: seq<Outcome>, base: nat)
    ensures |Fanout(chats, script, base)| == |chats| <==>
              forall i: nat :: base <= i < base + |chats| ==> OutcomeAt(script, i).Delivered?
  {
    if chats != [] {
      var n := |chats| - 1;
      FanoutComplete(chats[..n], script, base);
      var last := OutcomeAt(script, base + n);
      if |Fanout(chats, script, base)| == |chats| {
        assert |Fanout(chats[..n], script, base)| == n && last.Delivered?;
      }
    }
  }

  /** When no staff member has a usable cached chat, nothing is sent and the stored receipts are empty. */
  lemma NoReachableNoReceipts(order: seq<string>, chats: seq<int>, names: set<string>, entries: map<string, int>,
                              script: seq<Outcome>, base: nat)
    requires FanoutOrder(order, chats, names, entries)
    requires forall n :: n in names ==> !Reachable(entries, n)
    ensures chats == [] && SendAll(chats, Announcement(0)) == [] && EncodeAll(Fanout(chats, script, base)) == []
  {
    RecipientsNone(order, entries);
  }

  lemma {:induction false} RecipientsNone(order: seq<string>, entries: map<string, int>)
    requires forall n :: n in order ==> !Reachable(entries, n)
    ensures Recipients(order, entries) == []
  {
    if order != [] {
      var init := order[..|order| - 1];
      assert forall n :: n in init ==> n in order;
      RecipientsNone(init, entries);
      assert order[|order| - 1] in order;
    }
  }

  /** One more name iterated over: it is a recipient, at the end, iff its chat is usable. */
  lemma RecipientsSnoc(order: seq<string>, name: string, entries: map<string, int>)
    ensures Recipients(order + [name], entries) ==
              Recipients(order, entries) + (if Reachable(entries, name) then [name] else [])
  {
    assert (order + [name])[..|order|] == order;
  }

  lemma ChatsSnoc(names: seq<string>, name: string, entries: map<string, int>)
    requires forall i :: 0 <= i < |names| ==> Reachable(entries, names[i])
    requires Reachable(entries, name)
    ensures Chats(names + [name], entries) == Chats(names, entries) + [entries[name]]
  {
  }

  /** One more send, answered `o`: its receipt, if it was delivered, goes at the end. */
  lemma FanoutSnoc(receipts: seq<Receipt>, chats: seq<int>, chat: int, script: seq<Outcome>, base: nat, o: Outcome)
    requires receipts == Fanout(chats, script, base) && o == OutcomeAt(script, base + |chats|)
    ensures o.Delivered? ==> receipts + [Receipt(chat, o.msgId)] == Fanout(chats + [chat], script, base)
    ensures o.Failed? ==> receipts == Fanout(chats + [chat], script, base)
  {
    assert (chats + [chat])[..|chats|] == chats;
  }

  /** One more send after `before`: the calls so far number `|before| + |chats|`, and the new one goes at the end. */
  lemma SendAllSnoc(before: seq<Call>, chats: seq<int>, chat: int, notice: Notice)
    ensures |before + SendAll(chats, notice)| == |before| + |chats|
    ensures before + SendAll(chats, notice) + [Send(chat, notice)] == before + SendAll(chats + [chat], notice)
  {
    assert SendAll(chats + [chat], notice) == SendAll(chats, notice) + [Send(chat, notice)];
  }

  /** What the reply handler and the cleanup job do with each stored receipt. */
  datatype Action = EditTo(notice: Notice) | Remove

  function CallFor(a: Action, r: Receipt): (call: Call)
    ensures call.chat == r.chat
  {
    match a
    case EditTo(notice) => Edit(r.chat, r.msg, notice)
    case Remove => Delete(r.chat, r.msg)
  }

  /** One call per receipt, in order. */
  function CallsFor(a: Action, rs: seq<Receipt>): (calls: seq<Call>)
    ensures |calls| == |rs|
  {
    if rs == [] then [] else [CallFor(a, rs[0])] + CallsFor(a, rs[1..])
  }

  lemma {:induction false} CallsForEach(a: Action, rs: seq<Receipt>)
    ensures forall i :: 0 <= i < |rs| ==> CallsFor(a, rs)[i] == CallFor(a, rs[i])
  {
    if rs != [] {
      CallsForEach(a, rs[1..]);
    }
  }

  /**
   * The notices the fan-out recorded are the notices later edited or
   * deleted: one call per delivered notice, to its chat and message, in the
   * order they were sent, and none to a staff member whose send failed.
   */
  lemma StoredNoticesReached(chats: seq<int>, script: seq<Outcome>, base: nat, a: Action)
    ensures var rs := Fanout(chats, script, base);
            CallsFor(a, ParseAll(EncodeAll(rs))) == CallsFor(a, rs)
  {
    ParseEncodeAll(Fanout(chats, script, base));
  }

  lemma {:induction false} CallsForAppend(a: Action, rs: seq<Receipt>, more: seq<Receipt>)
    ensures CallsFor(a, rs + more) == CallsFor(a, rs) + CallsFor(a, more)
  {
    if rs == [] {
      assert rs + more == more;
    } else {
      assert (rs + more)[1..] == rs[1..] + more;
      CallsForAppend(a, rs[1..], more);
    }
  }

  /** The calls for `rs`, then those for `more`, after the calls `before`. */
  lemma CallsAfter(before: seq<Call>, a: Action, rs: seq<Receipt>, more: seq<Receipt>)
    ensures before + CallsFor(a, rs) + CallsFor(a, more) == before + CallsFor(a, rs + more)
  {
    CallsForAppend(a, rs, more);
  }
}
