/**
 * The `reports` table: rows keyed by an AUTOINCREMENT id, the three updates
 * the bot issues, the cleanup `DELETE`, and the `SELECT`s behind the listings.
 */
module Reports {
  import opened Common
  import opened Text

  datatype Status = Open | Answered

  /** The `reply`, `replied_by` and `replied_at` columns, which are always written together. */
  datatype Answer = Answer(reply: string, repliedBy: string, repliedAt: string)

  datatype Report = Report(
    userId: int,
    username: string,
    firstName: string,
    message: string,
    status: Status,
    answer: Option<Answer>,
    createdAt: string,
    notifyMsgIds: string)

  /** An open report has no answer; an answered one has all three answer columns. */
  predicate WellFormed(r: Report) {
    r.status == Open <==> r.answer.None?
  }

  /** A row as `INSERT INTO reports (user_id, username, first_name, message)` creates it. */
  function NewReport(userId: int, username: string, firstName: string, message: string, createdAt: string): (r: Report)
    ensures WellFormed(r) && r.status == Open && r.answer.None? && r.notifyMsgIds == []
  {
    Report(userId, username, firstName, message, Open, None, createdAt, [])
  }

  /** An answered report stays answered: no update sets the status back to `open`. */
  ghost predicate StaysAnswered(before: map<int, Report>, after: map<int, Report>) {
    forall id :: id in before && id in after && before[id].status == Answered ==> after[id].status == Answered
  }

  /** The `WHERE` clauses the bot uses. */
  datatype Filter =
    | WithStatus(status: Status)
    | FromUser(userId: int)
    | AnsweredUpTo(threshold: string)  // status = 'answered' AND replied_at <= threshold

  predicate Matches(r: Report, f: Filter) {
    match f
    case WithStatus(s) => r.status == s
    case FromUser(u) => r.userId == u
    case AnsweredUpTo(t) => r.status == Answered && r.answer.Some? && LessEq(r.answer.value.repliedAt, t)
  }

  /** The ids up to `k` of the rows that match `f`, in ascending id order. */
  function Select(rows: map<int, Report>, k: int, f: Filter): (ids: seq<int>)
    ensures forall i, j :: 0 <= i < j < |ids| ==> ids[i] < ids[j]
    ensures forall i :: 0 <= i < |ids| ==> 1 <= ids[i] <= k && ids[i] in rows && Matches(rows[ids[i]], f)
    ensures forall id :: 1 <= id <= k && id in rows && Matches(rows[id], f) ==> id in ids
    decreases k
  {
    if k <= 0 then []
    else Select(rows, k - 1, f) + (if k in rows && Matches(rows[k], f) then [k] else [])
  }

  function Reverse(s: seq<int>): (r: seq<int>)
    ensures |r| == |s|
    ensures forall i :: 0 <= i < |s| ==> r[i] == s[|s| - 1 - i]
  {
    seq(|s|, i requires 0 <= i < |s| => s[|s| - 1 - i])
  }

  /** `... WHERE <f> ORDER BY id DESC`: every matching row, newest first. */
  function NewestFirst(rows: map<int, Report>, k: int, f: Filter): (ids: seq<int>)
    ensures forall i, j :: 0 <= i < j < |ids| ==> ids[i] > ids[j]
    ensures forall i :: 0 <= i < |ids| ==> ids[i] in rows && Matches(rows[ids[i]], f)
    ensures forall id :: 1 <= id <= k && id in rows && Matches(rows[id], f) ==> id in ids
  {
    var asc := Select(rows, k, f);
    var r := Reverse(asc);
    assert forall id :: id in asc ==> id in r by {
      forall id | id in asc ensures id in r {
        var i :| 0 <= i < |asc| && asc[i] == id;
        assert r[|asc| - 1 - i] == id;
      }
    }
    r
  }

  /** `LIMIT n`: the first `n` entries, or all of them when there are fewer. */
  function Limit(all: seq<int>, n: nat): (kept: seq<int>)
    ensures |kept| <= n && |kept| <= |all| && kept == all[..|kept|]
    ensures |all| <= n ==> kept == all
  {
    if |all| <= n then all else all[..n]
  }

  /**
   * `LIMIT n` on a list in descending order: what is left off is smaller
   * than everything kept, and nothing is left off while fewer than `n` are kept.
   */
  lemma LimitDescending(all: seq<int>, n: nat)
    requires forall i, j :: 0 <= i < j < |all| ==> all[i] > all[j]
    ensures forall x :: x in all && x !in Limit(all, n) ==>
              |Limit(all, n)| == n && forall i :: 0 <= i < n ==> x < Limit(all, n)[i]
  {
    var kept := Limit(all, n);
    forall x | x in all && x !in kept
      ensures |kept| == n && forall i :: 0 <= i < n ==> x < kept[i]
    {
      var k :| 0 <= k < |all| && all[k] == x;
      assert k >= |kept|;
      forall i | 0 <= i < n
        ensures x < kept[i]
      {
        assert kept[i] == all[i];
      }
    }
  }

  /**
   * `... WHERE <f> ORDER BY id DESC LIMIT n`: at most `n` matching rows,
   * newest first, and a matching row is left off only when `n` rows are
   * kept and it is older than all of them.
   */
  function NewestLimited(rows: map<int, Report>, k: int, f: Filter, n: nat): (ids: seq<int>)
    ensures |ids| <= n
    ensures forall i, j :: 0 <= i < j < |ids| ==> ids[i] > ids[j]
    ensures forall i :: 0 <= i < |ids| ==> ids[i] in rows && Matches(rows[ids[i]], f)
    ensures forall id :: 1 <= id <= k && id in rows && Matches(rows[id], f) && id !in ids ==>
              |ids| == n && forall i :: 0 <= i < n ==> id < ids[i]
  {
    var all := NewestFirst(rows, k, f);
    LimitDescending(all, n);
    Limit(all, n)
  }

  /** The `replied_at` of a row, `NULL` (and a missing row) read as the empty string. */
  function AnswerTime(rows: map<int, Report>, id: int): string {
    if id in rows && rows[id].answer.Some? then rows[id].answer.value.repliedAt else []
  }

  /** Newest answer first: `replied_at` never increases along the list. */
  ghost predicate NewestAnswerFirst(rows: map<int, Report>, ids: seq<int>) {
    forall i, j :: 0 <= i < j < |ids| ==> LessEq(AnswerTime(rows, ids[j]), AnswerTime(rows, ids[i]))
  }

  lemma LessEqTransitive(a: string, b: string, c: string)
    requires LessEq(a, b) && LessEq(b, c)
    ensures LessEq(a, c)
  {
    if a != b && b != c {
      LessTransitive(a, b, c);
    }
  }

  /** Places `id` in front of the first row answered no later than it. */
  function InsertByAnswer(rows: map<int, Report>, id: int, sorted: seq<int>): (r: seq<int>)
    ensures multiset(r) == multiset(sorted) + multiset{id}
    ensures forall x :: x in r ==> x == id || x in sorted
  {
    if sorted == [] then [id]
    else if LessEq(AnswerTime(rows, sorted[0]), AnswerTime(rows, id)) then [id] + sorted
    else
      assert sorted == [sorted[0]] + sorted[1..];
      [sorted[0]] + InsertByAnswer(rows, id, sorted[1..])
  }

  /** Inserting into a list ordered newest answer first keeps it so ordered. */
  lemma {:induction false} InsertKeepsOrder(rows: map<int, Report>, id: int, sorted: seq<int>)
    requires NewestAnswerFirst(rows, sorted)
    ensures NewestAnswerFirst(rows, InsertByAnswer(rows, id, sorted))
  {
    var r := InsertByAnswer(rows, id, sorted);
    if sorted == [] {
    } else if LessEq(AnswerTime(rows, sorted[0]), AnswerTime(rows, id)) {
      forall i, j | 0 <= i < j < |r|
        ensures LessEq(AnswerTime(rows, r[j]), AnswerTime(rows, r[i]))
      {
        if i == 0 && j > 1 {
          LessEqTransitive(AnswerTime(rows, r[j]), AnswerTime(rows, sorted[0]), AnswerTime(rows, id));
        }
      }
    } else {
      var rest := InsertByAnswer(rows, id, sorted[1..]);
      InsertKeepsOrder(rows, id, sorted[1..]);
      var top := AnswerTime(rows, sorted[0]);
      LessTotal(AnswerTime(rows, id), top);
      forall i, j | 0 <= i < j < |r|
        ensures LessEq(AnswerTime(rows, r[j]), AnswerTime(rows, r[i]))
      {
        if i == 0 {
          assert r[j] in rest;
          if r[j] != id {
            var k :| 0 <= k < |sorted[1..]| && sorted[1..][k] == r[j];
            assert sorted[k + 1] == r[j];
          }
        } else {
          assert r[i] == rest[i - 1] && r[j] == rest[j - 1];
        }
      }
    }
  }

  /** Insertion sort by `replied_at`, latest first. */
  function SortByAnswer(rows: map<int, Report>, ids: seq<int>): (r: seq<int>)
    ensures multiset(r) == multiset(ids)
  {
    if ids == [] then []
    else
      assert ids == [ids[0]] + ids[1..];
      InsertByAnswer(rows, ids[0], SortByAnswer(rows, ids[1..]))
  }

  /** `... ORDER BY replied_at DESC` yields the same rows, latest answer first. */
  lemma {:induction false} SortByAnswerOrdered(rows: map<int, Report>, ids: seq<int>)
    ensures NewestAnswerFirst(rows, SortByAnswer(rows, ids))
  {
    if ids != [] {
      SortByAnswerOrdered(rows, ids[1..]);
      InsertKeepsOrder(rows, ids[0], SortByAnswer(rows, ids[1..]));
    }
  }

  /**
   * `... WHERE status = 'answered' ORDER BY replied_at DESC`: every answered
   * row up to `k`, each once, latest answer first.
   */
  function LatestAnswered(rows: map<int, Report>, k: int): (ids: seq<int>)
    ensures NewestAnswerFirst(rows, ids)
    ensures multiset(ids) == multiset(Select(rows, k, WithStatus(Answered)))
    ensures forall id :: id in ids <==> 1 <= id <= k && id in rows && rows[id].status == Answered
  {
    var answered := Select(rows, k, WithStatus(Answered));
    SortByAnswerOrdered(rows, answered);
    var sorted := SortByAnswer(rows, answered);
    assert forall id :: id in sorted <==> id in answered by {
      forall id ensures id in sorted <==> id in answered {
        assert id in sorted <==> id in multiset(sorted);
      }
    }
    sorted
  }

  class ReportStore {
    var rows: map<int, Report>
    /** The largest id ever handed out (`sqlite_sequence`); ids are never reused. */
    var lastId: int

    ghost predicate Valid()
      reads this
    {
      && lastId >= 0
      && (forall id :: id in rows ==> 1 <= id <= lastId && WellFormed(rows[id]))
    }

    /**
     * Opening the database file: `CREATE TABLE IF NOT EXISTS` keeps the rows
     * and the id sequence a previous run left, or starts both empty.
     */
    constructor Load(persisted: map<int, Report>, sequence: int)
      requires sequence >= 0
      requires forall id :: id in persisted ==> 1 <= id <= sequence && WellFormed(persisted[id])
      ensures Valid() && rows == persisted && lastId == sequence
    {
      rows := persisted;
      lastId := sequence;
    }

    /** `SELECT ... FROM reports WHERE id = ?`. */
    function Get(id: int): (r: Option<Report>)
      reads this
      ensures r.Some? <==> id in rows
      ensures r.Some? ==> r.value == rows[id]
    {
      if id in rows then Some(rows[id]) else None
    }

    /** `INSERT INTO reports ...` followed by `cursor.lastrowid`. */
    method Create(userId: int, username: string, firstName: string, message: string, createdAt: string)
      returns (id: int)
      requires Valid()
      modifies this
      ensures Valid()
      ensures id == old(lastId) + 1 && lastId == id && id !in old(rows)
      ensures rows == old(rows)[id := NewReport(userId, username, firstName, message, createdAt)]
      ensures StaysAnswered(old(rows), rows)
    {
      lastId := lastId + 1;
      id := lastId;
      rows := rows[id := NewReport(userId, username, firstName, message, createdAt)];
    }

    /** `UPDATE reports SET notify_msg_ids = ? WHERE id = ?`. */
    method SetReceipts(id: int, stored: string)
      requires Valid()
      modifies this
      ensures Valid() && lastId == old(lastId)
      ensures rows == if id in old(rows) then old(rows)[id := old(rows)[id].(notifyMsgIds := stored)] else old(rows)
      ensures StaysAnswered(old(rows), rows)
    {
      if id in rows {
        rows := rows[id := rows[id].(notifyMsgIds := stored)];
      }
    }

    /**
     * `UPDATE reports SET status = 'answered', reply = ?, replied_by = ?, replied_at = ? WHERE id = ?`:
     * a second answer replaces the first.
     */
    method MarkAnswered(id: int, reply: string, repliedBy: string, repliedAt: string) returns (found: bool)
      requires Valid()
      modifies this
      ensures Valid() && lastId == old(lastId)
      ensures found <==> id in old(rows)
      ensures rows == if found then old(rows)[id := old(rows)[id].(status := Answered, answer := Some(Answer(reply, repliedBy, repliedAt)))] else old(rows)
      ensures StaysAnswered(old(rows), rows)
    {
      found := id in rows;
      if found {
        rows := rows[id := rows[id].(status := Answered, answer := Some(Answer(reply, repliedBy, repliedAt)))];
      }
    }

    /** `DELETE FROM reports WHERE status = 'answered' AND replied_at <= ?`. */
    method DeleteAnsweredUpTo(threshold: string)
      requires Valid()
      modifies this
      ensures Valid() && lastId == old(lastId)
      ensures forall id :: id in rows <==> id in old(rows) && !Matches(old(rows)[id], AnsweredUpTo(threshold))
      ensures forall id :: id in rows ==> rows[id] == old(rows)[id]
    {
      rows := map id | id in rows && !Matches(rows[id], AnsweredUpTo(threshold)) :: rows[id];
    }
  }
}
