/**
 * `get_all`: the transcript with one phone number, i.e. the SQL query that
 * selects the messages sent to or received from that number, orders them by
 * creation time and projects each onto (creation, sender label, content).
 * The query is modelled on the message table given as a sequence.
 */
module Transcript {
  import opened Wrappers
  import opened Records

  /** The sender label used when a message's `to` column is empty. */
  const ADMINISTRATOR: string := "Administrator"

  /** One row of the query's result. */
  datatype Row = Row(creation: nat, senderUserNo: string, content: Option<string>)

  /** The WHERE clause: `to` or `from` equals the number (a NULL column never matches). */
  predicate Involves(m: Message, userNo: string)
  {
    m.to == Some(userNo) || m.from == Some(userNo)
  }

  /** `case when "to" <> '' then "to" else 'Administrator' end`; a NULL `to` takes the else branch. */
  function SenderLabel(to: Option<string>): string
  {
    if to.Some? && to.value != "" then to.value else ADMINISTRATOR
  }

  /** `case when content_type = 'text' then message else attach end`. */
  function Content(m: Message): Option<string>
  {
    if m.contentType == TEXT then m.message else m.attach
  }

  function RowOf(m: Message): Row
  {
    Row(m.creation, SenderLabel(m.to), Content(m))
  }

  /** The messages of `log` that satisfy the WHERE clause, in the order of `log`. */
  function Select(log: seq<Message>, userNo: string): seq<Message>
  {
    if log == [] then []
    else
      var rest := Select(log[..|log| - 1], userNo);
      if Involves(log[|log| - 1], userNo) then rest + [log[|log| - 1]] else rest
  }

  /** Ascending creation order, ties allowed. */
  predicate Ascending(s: seq<Message>)
  {
    forall i, j :: 0 <= i < j < |s| ==> s[i].creation <= s[j].creation
  }

  /** Places `x` into an ascending sequence after every message created no later than it. */
  function Insert(s: seq<Message>, x: Message): (r: seq<Message>)
    requires Ascending(s)
    ensures Ascending(r)
    ensures multiset(r) == multiset(s) + multiset{x}
    decreases |s|
  {
    if s == [] || s[|s| - 1].creation <= x.creation then s + [x]
    else
      var init, last := s[..|s| - 1], s[|s| - 1];
      assert s == init + [last];
      var r' := Insert(init, x);
      assert forall k :: 0 <= k < |r'| ==> r'[k] in multiset(init) + multiset{x};
      r' + [last]
  }

  /** `order by creation asc`: a stable insertion sort on the creation stamp. */
  function SortByCreation(s: seq<Message>): (r: seq<Message>)
    ensures Ascending(r)
    ensures multiset(r) == multiset(s)
    decreases |s|
  {
    if s == [] then []
    else
      assert s == s[..|s| - 1] + [s[|s| - 1]];
      Insert(SortByCreation(s[..|s| - 1]), s[|s| - 1])
  }

  /** The selected messages in the order the query returns them. */
  function Selected(log: seq<Message>, userNo: string): seq<Message>
  {
    SortByCreation(Select(log, userNo))
  }

  /** The result of `get_all(room, user_no)` on the message table `log`. */
  function GetAll(log: seq<Message>, userNo: string): seq<Row>
  {
    Rows(Selected(log, userNo))
  }

  /** The SELECT list applied to each message. */
  function Rows(ms: seq<Message>): seq<Row>
  {
    seq(|ms|, i requires 0 <= i < |ms| => RowOf(ms[i]))
  }

  /**
   * The WHERE clause keeps exactly the matching messages: each matching
   * message as often as it is stored, and no other.
   */
  lemma {:induction false} SelectCount(log: seq<Message>, userNo: string, m: Message)
    ensures multiset(Select(log, userNo))[m] == if Involves(m, userNo) then multiset(log)[m] else 0
    decreases |log|
  {
    if log != [] {
      var init, last := log[..|log| - 1], log[|log| - 1];
      assert log == init + [last];
      SelectCount(init, userNo, m);
    }
  }

  /** Filtering an ascending log keeps it ascending. */
  lemma {:induction false} SelectAscending(log: seq<Message>, userNo: string)
    requires Ascending(log)
    ensures Ascending(Select(log, userNo))
    decreases |log|
  {
    if log != [] {
      var init, last := log[..|log| - 1], log[|log| - 1];
      var rest := Select(init, userNo);
      assert Ascending(init);
      SelectAscending(init, userNo);
      forall k | 0 <= k < |rest| ensures rest[k].creation <= last.creation {
        SelectCount(init, userNo, rest[k]);
        assert rest[k] in multiset(init);
      }
    }
  }

  /** A message created no earlier than the last one goes at the end. */
  lemma InsertAtEnd(s: seq<Message>, x: Message)
    requires Ascending(s)
    requires forall k :: 0 <= k < |s| ==> s[k].creation <= x.creation
    ensures Insert(s, x) == s + [x]
  {
  }

  /** Sorting a sequence that is already ascending changes nothing. */
  lemma {:induction false} SortAscendingIsIdentity(s: seq<Message>)
    requires Ascending(s)
    ensures SortByCreation(s) == s
    decreases |s|
  {
    if s != [] {
      var init, last := s[..|s| - 1], s[|s| - 1];
      assert Ascending(init);
      SortAscendingIsIdentity(init);
      InsertAtEnd(init, last);
      assert s == init + [last];
    }
  }

  /**
   * `get_all` returns one row per stored message that involves the number,
   * counted with multiplicity; the rows are in ascending creation order; and
   * each row is the projection of its message.
   */
  lemma GetAllCorrect(log: seq<Message>, userNo: string)
    ensures |GetAll(log, userNo)| == |Selected(log, userNo)|
    ensures forall i :: 0 <= i < |Selected(log, userNo)| ==>
      GetAll(log, userNo)[i] == RowOf(Selected(log, userNo)[i])
    ensures forall m :: multiset(Selected(log, userNo))[m] ==
                        if Involves(m, userNo) then multiset(log)[m] else 0
    ensures forall i, j :: 0 <= i < j < |GetAll(log, userNo)| ==>
      GetAll(log, userNo)[i].creation <= GetAll(log, userNo)[j].creation
  {
    forall m ensures multiset(Selected(log, userNo))[m] == if Involves(m, userNo) then multiset(log)[m] else 0 {
      SelectCount(log, userNo, m);
    }
  }

  /** Every row's sender label and content follow the two CASE expressions. */
  lemma GetAllRowFields(log: seq<Message>, userNo: string, i: nat)
    requires i < |GetAll(log, userNo)|
    ensures var m := Selected(log, userNo)[i];
      && GetAll(log, userNo)[i].senderUserNo == (if m.to.Some? && m.to.value != "" then m.to.value else ADMINISTRATOR)
      && GetAll(log, userNo)[i].content == (if m.contentType == TEXT then m.message else m.attach)
      && Involves(m, userNo)
  {
    var ms := Selected(log, userNo);
    SelectCount(log, userNo, ms[i]);
    assert ms[i] in multiset(ms);
  }

  /**
   * When the table is stored in ascending creation order, the query returns
   * the matching messages in table order.
   */
  lemma GetAllInTableOrder(log: seq<Message>, userNo: string)
    requires Ascending(log)
    ensures Selected(log, userNo) == Select(log, userNo)
  {
    SelectAscending(log, userNo);
    SortAscendingIsIdentity(Select(log, userNo));
  }

  /**
   * Adding a message created no earlier than every stored one appends its
   * row to the transcript of each number it involves and leaves every other
   * transcript as it was.
   */
  lemma {:induction false} GetAllAppend(log: seq<Message>, m: Message, userNo: string)
    requires forall k :: 0 <= k < |log| ==> log[k].creation <= m.creation
    ensures GetAll(log + [m], userNo) ==
      GetAll(log, userNo) + (if Involves(m, userNo) then [RowOf(m)] else [])
  {
    var sel := Select(log, userNo);
    SelectAppend(log, m, userNo);
    if Involves(m, userNo) {
      forall x: Message | x in multiset(sel) ensures x.creation <= m.creation {
        SelectCount(log, userNo, x);
        assert x in log;
      }
      SortAppend(sel, m);
      RowsAppend(SortByCreation(sel), m);
    }
  }

  /** The SELECT list on one more message. */
  lemma RowsAppend(ms: seq<Message>, m: Message)
    ensures Rows(ms + [m]) == Rows(ms) + [RowOf(m)]
  {
  }

  /** The WHERE clause on a table with one more message. */
  lemma {:induction false} SelectAppend(log: seq<Message>, m: Message, userNo: string)
    ensures Select(log + [m], userNo) == Select(log, userNo) + (if Involves(m, userNo) then [m] else [])
  {
    assert (log + [m])[..|log|] == log;
  }

  /** A message no older than every element goes last when sorted. */
  lemma {:induction false} SortAppend(s: seq<Message>, m: Message)
    requires forall x :: x in multiset(s) ==> x.creation <= m.creation
    ensures SortByCreation(s + [m]) == SortByCreation(s) + [m]
  {
    assert (s + [m])[..|s|] == s;
    var sorted := SortByCreation(s);
    forall k | 0 <= k < |sorted| ensures sorted[k].creation <= m.creation {
      assert sorted[k] in multiset(sorted);
    }
    InsertAtEnd(sorted, m);
  }
}
