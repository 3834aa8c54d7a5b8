/**
 * The conversation log of the team-debate page (index3.py): one table,
 * `subject_talk`, whose threads are keyed by `subject_seq` alone. The
 * subject number is counted over the whole table, not per user, and there is
 * no history limit and no archiving.
 */
module DebateLog {
  import opened Tables

  datatype DebateRow = DebateRow(id: int, subjectTitle: string, subjectSeq: int, talkSeq: int,
                                 fromTo: string, text: string)

  /** The rows of one subject, in table order. */
  function Subject(rows: seq<DebateRow>, subjectSeq: int): (t: seq<DebateRow>)
    ensures |t| <= |rows|
  {
    if rows == [] then []
    else
      var last := rows[|rows| - 1];
      Subject(rows[..|rows| - 1], subjectSeq) + (if last.subjectSeq == subjectSeq then [last] else [])
  }

  lemma SubjectSnoc(init: seq<DebateRow>, last: DebateRow, subjectSeq: int)
    ensures Subject(init + [last], subjectSeq)
         == Subject(init, subjectSeq) + (if last.subjectSeq == subjectSeq then [last] else [])
  {
    assert (init + [last])[..|init|] == init;
  }

  /** The subject holds exactly the table's rows with that `subject_seq`. */
  lemma {:induction false} SubjectMembers(rows: seq<DebateRow>, subjectSeq: int)
    ensures forall k :: 0 <= k < |Subject(rows, subjectSeq)| ==>
      Subject(rows, subjectSeq)[k].subjectSeq == subjectSeq && Subject(rows, subjectSeq)[k] in rows
    ensures forall i :: 0 <= i < |rows| && rows[i].subjectSeq == subjectSeq ==> rows[i] in Subject(rows, subjectSeq)
    decreases |rows|
  {
    if rows != [] {
      var init, last := rows[..|rows| - 1], rows[|rows| - 1];
      SubjectMembers(init, subjectSeq);
      assert rows == init + [last];
      assert forall i :: 0 <= i < |init| ==> rows[i] == init[i];
    }
  }

  function TalkSeqs(rows: seq<DebateRow>): (xs: seq<int>)
    ensures |xs| == |rows| && forall i :: 0 <= i < |rows| ==> xs[i] == rows[i].talkSeq
  {
    seq(|rows|, i requires 0 <= i < |rows| => rows[i].talkSeq)
  }

  function SubjectSeqs(rows: seq<DebateRow>): (xs: seq<int>)
    ensures |xs| == |rows| && forall i :: 0 <= i < |rows| ==> xs[i] == rows[i].subjectSeq
  {
    seq(|rows|, i requires 0 <= i < |rows| => rows[i].subjectSeq)
  }

  /** `get_next_talk_seq(subject_seq)`: one more than the subject's largest `talk_seq`, or 1. */
  function NextTalkSeqOf(rows: seq<DebateRow>, subjectSeq: int): (n: int)
    ensures Subject(rows, subjectSeq) == [] ==> n == 1
    ensures forall k :: 0 <= k < |Subject(rows, subjectSeq)| ==> Subject(rows, subjectSeq)[k].talkSeq < n
    ensures Subject(rows, subjectSeq) != [] ==>
      exists k :: 0 <= k < |Subject(rows, subjectSeq)| && Subject(rows, subjectSeq)[k].talkSeq == n - 1
  {
    var t := Subject(rows, subjectSeq);
    if t == [] then 1
    else
      var xs := TalkSeqs(t);
      assert Max(xs) in xs;
      Max(xs) + 1
  }

  /** `get_last_subject_seq()`: the largest `subject_seq` in the whole table, or 0. */
  function LastSubjectSeqOf(rows: seq<DebateRow>): (s: int)
    ensures rows == [] ==> s == 0
    ensures forall i :: 0 <= i < |rows| ==> rows[i].subjectSeq <= s
    ensures rows != [] ==> exists i :: 0 <= i < |rows| && rows[i].subjectSeq == s
  {
    var xs := SubjectSeqs(rows);
    if xs == [] then 0
    else
      assert Max(xs) in xs;
      Max(xs)
  }

  /** The next talk number is above every number already used in the subject. */
  lemma NextTalkSeqAbove(rows: seq<DebateRow>, subjectSeq: int)
    ensures forall i :: 0 <= i < |rows| && rows[i].subjectSeq == subjectSeq ==>
      rows[i].talkSeq < NextTalkSeqOf(rows, subjectSeq)
    ensures Subject(rows, subjectSeq) == [] ==> NextTalkSeqOf(rows, subjectSeq) == 1
  {
    var t := Subject(rows, subjectSeq);
    SubjectMembers(rows, subjectSeq);
    forall i | 0 <= i < |rows| && rows[i].subjectSeq == subjectSeq
      ensures rows[i].talkSeq < NextTalkSeqOf(rows, subjectSeq)
    {
      var k :| 0 <= k < |t| && t[k] == rows[i];
      assert TalkSeqs(t)[k] == rows[i].talkSeq;
    }
  }

  /** A new debate session (`last + 1`) opens a subject with no row, so its history starts empty. */
  lemma NewSessionIsEmpty(rows: seq<DebateRow>)
    ensures Subject(rows, LastSubjectSeqOf(rows) + 1) == []
  {
    var s := LastSubjectSeqOf(rows) + 1;
    assert forall i :: 0 <= i < |rows| ==> rows[i].subjectSeq == SubjectSeqs(rows)[i] < s;
    SubjectNone(rows, s);
  }

  lemma {:induction false} SubjectNone(rows: seq<DebateRow>, subjectSeq: int)
    requires forall i :: 0 <= i < |rows| ==> rows[i].subjectSeq != subjectSeq
    ensures Subject(rows, subjectSeq) == []
    decreases |rows|
  {
    if rows != [] {
      SubjectNone(rows[..|rows| - 1], subjectSeq);
    }
  }

  /** Ids increase in table order, and so do `talk_seq` values within each subject. */
  predicate Ordered(rows: seq<DebateRow>) {
    forall i, j :: 0 <= i < j < |rows| ==>
      rows[i].id < rows[j].id && (rows[i].subjectSeq == rows[j].subjectSeq ==> rows[i].talkSeq < rows[j].talkSeq)
  }

  /** `order('talk_seq')` over an ordered table is table order: the subject's numbers increase. */
  lemma {:induction false} SubjectIncreasing(rows: seq<DebateRow>, subjectSeq: int)
    requires Ordered(rows)
    ensures StrictlyIncreasing(TalkSeqs(Subject(rows, subjectSeq)))
    decreases |rows|
  {
    if rows != [] {
      var init, last := rows[..|rows| - 1], rows[|rows| - 1];
      assert forall i :: 0 <= i < |init| ==> init[i] == rows[i];
      SubjectIncreasing(init, subjectSeq);
      SubjectMembers(init, subjectSeq);
      var t := Subject(init, subjectSeq);
      if last.subjectSeq == subjectSeq {
        forall k | 0 <= k < |t| ensures t[k].talkSeq < last.talkSeq {
          var m :| 0 <= m < |init| && init[m] == t[k];
        }
        var u := t + [last];
        assert forall k :: 0 <= k < |u| ==> TalkSeqs(u)[k] == u[k].talkSeq;
        assert forall k :: 0 <= k < |t| ==> u[k] == t[k];
      }
    }
  }

  /** `get_conversation_history(subject_seq)`: every turn of the subject as `(from_to, text)`, in order. */
  function HistoryOf(rows: seq<DebateRow>, subjectSeq: int): (h: seq<(string, string)>)
    ensures |h| == |Subject(rows, subjectSeq)|
    ensures forall k :: 0 <= k < |h| ==>
      h[k] == (Subject(rows, subjectSeq)[k].fromTo, Subject(rows, subjectSeq)[k].text)
  {
    var t := Subject(rows, subjectSeq);
    seq(|t|, k requires 0 <= k < |t| => (t[k].fromTo, t[k].text))
  }

  class SubjectTalk {
    /** `subject_talk`, in insertion order. */
    var rows: seq<DebateRow>
    var nextId: int

    ghost predicate Valid()
      reads this
    {
      Ordered(rows) && forall r :: r in rows ==> r.id < nextId
    }

    constructor ()
      ensures Valid() && rows == []
    {
      rows := [];
      nextId := 1;
    }

    /** The `.eq('subject_seq', subject_seq)` selection. */
    method SelectSubject(subjectSeq: int) returns (t: seq<DebateRow>)
      ensures t == Subject(rows, subjectSeq)
    {
      t := [];
      for i := 0 to |rows|
        invariant t == Subject(rows[..i], subjectSeq)
      {
        assert rows[..i + 1] == rows[..i] + [rows[i]];
        SubjectSnoc(rows[..i], rows[i], subjectSeq);
        if rows[i].subjectSeq == subjectSeq {
          t := t + [rows[i]];
        }
      }
      assert rows[..|rows|] == rows;
    }

    method NextTalkSeq(subjectSeq: int) returns (n: int)
      ensures n == NextTalkSeqOf(rows, subjectSeq)
    {
      var t := SelectSubject(subjectSeq);
      if t == [] {
        n := 1;
      } else {
        var m := MaxOf(TalkSeqs(t));
        n := m + 1;
      }
    }

    method LastSubjectSeq() returns (s: int)
      ensures s == LastSubjectSeqOf(rows)
    {
      if rows == [] {
        s := 0;
      } else {
        s := MaxOf(SubjectSeqs(rows));
      }
    }

    /** `save_conversation`: insert one row with a fresh id. */
    method Save(subjectTitle: string, subjectSeq: int, talkSeq: int, fromTo: string, text: string)
      modifies this
      ensures rows == old(rows) + [DebateRow(old(nextId), subjectTitle, subjectSeq, talkSeq, fromTo, text)]
      ensures nextId == old(nextId) + 1
      ensures old(Valid()) && talkSeq >= NextTalkSeqOf(old(rows), subjectSeq) ==> Valid()
    {
      var row := DebateRow(nextId, subjectTitle, subjectSeq, talkSeq, fromTo, text);
      if Valid() && talkSeq >= NextTalkSeqOf(rows, subjectSeq) {
        NextTalkSeqAbove(rows, subjectSeq);
        var s := rows + [row];
        forall i, j | 0 <= i < j < |s|
          ensures s[i].id < s[j].id && (s[i].subjectSeq == s[j].subjectSeq ==> s[i].talkSeq < s[j].talkSeq)
        {
          assert s[i] == rows[i];
          if j < |rows| { assert s[j] == rows[j]; }
        }
      }
      rows := rows + [row];
      nextId := nextId + 1;
    }

    /** A turn saved as the page saves every turn: under the subject's next `talk_seq`. */
    method AppendTurn(subjectTitle: string, subjectSeq: int, fromTo: string, text: string)
      requires Valid()
      modifies this
      ensures Valid()
      ensures rows == old(rows)
        + [DebateRow(old(nextId), subjectTitle, subjectSeq, NextTalkSeqOf(old(rows), subjectSeq), fromTo, text)]
      ensures nextId == old(nextId) + 1
    {
      var talkSeq := NextTalkSeq(subjectSeq);
      Save(subjectTitle, subjectSeq, talkSeq, fromTo, text);
    }

    method History(subjectSeq: int) returns (history: seq<(string, string)>)
      ensures history == HistoryOf(rows, subjectSeq)
    {
      var t := SelectSubject(subjectSeq);
      history := [];
      for k := 0 to |t|
        invariant |history| == k
        invariant forall j :: 0 <= j < k ==> history[j] == (t[j].fromTo, t[j].text)
      {
        history := history + [(t[k].fromTo, t[k].text)];
      }
    }
  }
}
