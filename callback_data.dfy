/**
 * The `callback_data` strings of the inline buttons that carry an argument,
 * and how the handlers read the argument back.
 */
module CallbackData {
  import opened Common
  import opened Text
  import opened Numbers

  const ReplyPrefix: string := "reply_report_"
  const ViewPrefix: string := "view_report_"
  const RemovePrefix: string := "remove_helper_"

  /** `str.startswith`: the filter `F.data.startswith(prefix)`. */
  predicate StartsWith(s: string, prefix: string) {
    |prefix| <= |s| && s[..|prefix|] == prefix
  }

  /** `f"reply_report_{report_id}"`, the data of the reply and edit-reply buttons. */
  function ReplyData(id: int): (data: string)
    ensures StartsWith(data, ReplyPrefix)
  {
    ReplyPrefix + IntToString(id)
  }

  /** `f"view_report_{rid}"`, the data of a report button in the staff listings. */
  function ViewData(id: int): (data: string)
    ensures StartsWith(data, ViewPrefix)
  {
    ViewPrefix + IntToString(id)
  }

  /** `int(callback.data.split("_")[2])`; `None` when Python raises. */
  function ReportIdOf(data: string): Option<int> {
    var parts := Split(data, '_');
    if |parts| < 3 then None else ParseInt(parts[2])
  }

  /** Three separator-free pieces joined by the separator split back into those pieces. */
  lemma SplitThree(a: string, b: string, c: string, sep: char)
    requires sep !in a && sep !in b && sep !in c
    ensures Split(a + [sep] + b + [sep] + c, sep) == [a, b, c]
  {
    assert [a, b, c][1..] == [b, c];
    assert Join([b, c], sep) == b + [sep] + c;
    assert Join([a, b, c], sep) == a + [sep] + b + [sep] + c;
    SplitJoin([a, b, c], sep);
  }

  /** The id at the third `_`-separated place of `word_report_<id>` is read back. */
  lemma ReportIdAfter(word: string, id: int)
    requires '_' !in word
    ensures ReportIdOf(word + ['_'] + "report" + ['_'] + IntToString(id)) == Some(id)
  {
    var n := IntToString(id);
    assert '_' !in n;
    SplitThree(word, "report", n, '_');
    var parts := Split(word + ['_'] + "report" + ['_'] + n, '_');
    assert parts[2] == n;
    ParseIntOfIntToString(id);
  }

  /** The id written into a reply or view button is the id its handler reads back. */
  lemma ReportIdRoundTrip(id: int)
    ensures ReportIdOf(ReplyData(id)) == Some(id)
    ensures ReportIdOf(ViewData(id)) == Some(id)
  {
    var n := IntToString(id);
    assert ReplyPrefix == "reply" + ['_'] + "report" + ['_'];
    assert ViewPrefix == "view" + ['_'] + "report" + ['_'];
    ReportIdAfter("reply", id);
    ReportIdAfter("view", id);
  }

  /** `f"remove_helper_{h[0]}"`, the data of a helper's remove button. */
  function RemoveData(username: string): (data: string)
    ensures StartsWith(data, RemovePrefix)
  {
    RemovePrefix + username
  }

  /**
   * `callback.data.replace("remove_helper_", "")` as the source has it: every
   * occurrence of the prefix is deleted, not only the leading one.
   */
  function HelperOfDataAsWritten(data: string): string {
    ReplaceAll(data, RemovePrefix)
  }

  /** The helper name a remove button was made for: the data without its prefix. */
  function HelperOfData(data: string): (username: string)
    requires StartsWith(data, RemovePrefix)
    ensures RemoveData(username) == data
  {
    data[|RemovePrefix|..]
  }

  /** Every helper name is read back from its remove button. */
  lemma HelperOfDataRoundTrip(username: string)
    ensures HelperOfData(RemoveData(username)) == username
  {
  }

  /** As written, the read-back is right for names in which the prefix never occurs. */
  lemma AsWrittenRoundTripWithoutPrefix(username: string)
    requires forall i :: 0 <= i <= |username| ==> !OccursAt(username, RemovePrefix, i)
    ensures HelperOfDataAsWritten(RemoveData(username)) == username
  {
    var data := RemoveData(username);
    assert data[..|RemovePrefix|] == RemovePrefix;
    assert data[|RemovePrefix|..] == username;
    ReplaceAllAbsent(username, RemovePrefix);
  }

  lemma ReplaceAllSkip(c: char, s: string, pat: string)
    requires pat != [] && |pat| <= |s| + 1 && c != pat[0]
    ensures ReplaceAll([c] + s, pat) == [c] + ReplaceAll(s, pat)
  {
    assert ([c] + s)[1..] == s;
  }

  lemma ReplaceAllDrop(s: string, pat: string)
    requires pat != []
    ensures ReplaceAll(pat + s, pat) == ReplaceAll(s, pat)
  {
    assert (pat + s)[..|pat|] == pat && (pat + s)[|pat|..] == s;
  }

  /**
   * As written, a helper named `a_remove_helper_b` gets a remove button whose
   * handler deletes `a_b` instead, so that helper cannot be removed.
   */
  lemma AsWrittenLosesHelper()
    ensures HelperOfDataAsWritten(RemoveData("a_remove_helper_b")) == "a_b"
  {
    var p := RemovePrefix;
    assert "a_remove_helper_b" == ['a'] + (['_'] + (p + "b"));
    ReplaceAllDrop("b", p);
    ReplaceAllSkip('_', p + "b", p);
    ReplaceAllSkip('a', ['_'] + (p + "b"), p);
    ReplaceAllDrop("a_remove_helper_b", p);
  }
}
