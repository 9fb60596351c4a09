/**
 * Delivery receipts of staff notices. Each successful send is remembered as
 * the text `"chat:msg"`; a report keeps the receipts of its notices as one
 * comma-joined string (`notify_msg_ids`), which the reply handler and the
 * cleanup job split up again to edit or delete those notices.
 */
module Receipts {
  import opened Common
  import opened Text
  import opened Numbers

  /** The chat a notice went to and the id the platform gave the message. */
  datatype Receipt = Receipt(chat: int, msg: int)

  /** `f"{chat_id}:{msg.message_id}"`. */
  function Encode(r: Receipt): (item: string)
    ensures ':' in item && ',' !in item
  {
    var s := IntToString(r.chat) + [':'] + IntToString(r.msg);
    assert s[|IntToString(r.chat)|] == ':';
    s
  }

  function EncodeEach(rs: seq<Receipt>): (items: seq<string>)
    ensures |items| == |rs|
    ensures forall i :: 0 <= i < |rs| ==> items[i] == Encode(rs[i])
  {
    if rs == [] then [] else [Encode(rs[0])] + EncodeEach(rs[1..])
  }

  /** `",".join(sent_msg_ids)`: the stored form of a list of receipts. */
  function EncodeAll(rs: seq<Receipt>): (stored: string)
    ensures rs == [] <==> stored == []
  {
    var items := EncodeEach(rs);
    assert |items| >= 2 ==> Join(items, ',')[|items[0]|] == ',';
    Join(items, ',')
  }

  /**
   * `chat_id, msg_id = item.split(":")` followed by `int(chat_id)` and
   * `int(msg_id)`; `None` when any of them raises (wrong number of parts,
   * a part that is not a number).
   */
  function Decode(item: string): Option<Receipt> {
    var parts := Split(item, ':');
    if |parts| != 2 then None
    else match (ParseInt(parts[0]), ParseInt(parts[1]))
      case (Some(c), Some(m)) => Some(Receipt(c, m))
      case _ => None
  }

  /** What one stored item yields: its receipt if it contains `:` and decodes, else nothing. */
  function ItemReceipt(item: string): (rs: seq<Receipt>)
    ensures |rs| <= 1
    ensures rs != [] <==> ':' in item && Decode(item).Some?
  {
    if ':' in item && Decode(item).Some? then [Decode(item).value] else []
  }

  /** The items, in order, that contain `:` and decode; an item that fails is skipped. */
  function Collect(items: seq<string>): seq<Receipt> {
    if items == [] then [] else ItemReceipt(items[0]) + Collect(items[1..])
  }

  /** Collecting one more item adds what that item yields at the end. */
  lemma {:induction false} CollectSnoc(items: seq<string>, item: string)
    ensures Collect(items + [item]) == Collect(items) + ItemReceipt(item)
  {
    if items == [] {
      assert items + [item] == [item];
      assert Collect([item]) == ItemReceipt(item) + Collect([]);
    } else {
      var all := items + [item];
      assert all[0] == items[0] && all[1..] == items[1..] + [item];
      CollectSnoc(items[1..], item);
      assert Collect(all) == ItemReceipt(items[0]) + Collect(items[1..] + [item]);
    }
  }

  /** Collecting the first `i + 1` items adds what item `i` yields. */
  lemma CollectStep(items: seq<string>, i: nat)
    requires i < |items|
    ensures Collect(items[..i + 1]) == Collect(items[..i]) + ItemReceipt(items[i])
  {
    var init, item := items[..i], items[i];
    assert items[..i + 1] == init + [item];
    CollectSnoc(init, item);
  }

  /**
   * The receipts the reply handler edits and the cleanup job deletes:
   * `if notify_msg_ids: for item in notify_msg_ids.split(","): if ":" in item: ...`.
   */
  function ParseAll(stored: string): (rs: seq<Receipt>)
    ensures stored == [] ==> rs == []
  {
    if stored == [] then [] else Collect(Split(stored, ','))
  }

  lemma DecodeEncode(r: Receipt)
    ensures Decode(Encode(r)) == Some(r)
  {
    var a, b := IntToString(r.chat), IntToString(r.msg);
    assert Join([a, b], ':') == Encode(r);
    SplitJoin([a, b], ':');
    ParseIntOfIntToString(r.chat);
    ParseIntOfIntToString(r.msg);
  }

  /** A stored item yields back the receipt it was written from. */
  lemma ItemOfEncode(r: Receipt)
    ensures ItemReceipt(Encode(r)) == [r]
  {
    DecodeEncode(r);
  }

  lemma {:induction false} CollectEncodeEach(rs: seq<Receipt>)
    ensures Collect(EncodeEach(rs)) == rs
  {
    if rs != [] {
      var items := EncodeEach(rs);
      ItemOfEncode(rs[0]);
      assert items[1..] == EncodeEach(rs[1..]);
      CollectEncodeEach(rs[1..]);
      assert Collect(items) == ItemReceipt(items[0]) + Collect(items[1..]);
    }
  }

  /**
   * Storing receipts and reading them back gives the same receipts in the
   * same order; in particular no receipts are stored as the empty string and
   * read back as none.
   */
  lemma ParseEncodeAll(rs: seq<Receipt>)
    ensures ParseAll(EncodeAll(rs)) == rs
  {
    if rs != [] {
      SplitJoin(EncodeEach(rs), ',');
      CollectEncodeEach(rs);
    }
  }
}
