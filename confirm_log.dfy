/**
 * The conversation log of the report-review mode (index2.py): the
 * `talk_latest` table of turns and the `talk_old` table of archived
 * summaries, kept in memory. A thread is the set of turns that share a user
 * name and a `subject_seq`; `talk_seq` numbers the turns of a thread.
 *
 * The database answers `order('talk_seq')` queries; here the tables are
 * sequences in insertion order, and the class invariant `Valid` states that
 * insertion order is `talk_seq` order within each thread and `id` order
 * overall, which is what the application's own writes maintain.
 */
module ConfirmLog {
  import opened Tables
  import opened Wrappers
  import DialoguePrompt

  datatype TalkRow = TalkRow(id: int, name: string, subjectSeq: int, talkSeq: int, fromTo: string, text: string)
  datatype ArchiveRow = ArchiveRow(id: int, name: string, subjectSeq: int, text: string)

  /** `limit` of `get_conversation_history`. */
  const HistoryLimit: nat := 20
  /** Row count from which a thread is archived. */
  const SummarizeThreshold: nat := 40
  /** Rows moved into one archived summary. */
  const ArchiveBatch: nat := 20
  const SummaryHeader: string := "이전 대화 요약:\n"
  /** The conversation-mode option that starts a new subject. */
  const NewConversation: string := "새롭게 대화 시작"

  predicate InThread(r: TalkRow, name: string, subjectSeq: int) {
    r.name == name && r.subjectSeq == subjectSeq
  }

  predicate SameThread(a: TalkRow, b: TalkRow) {
    a.name == b.name && a.subjectSeq == b.subjectSeq
  }

  /** The rows of one thread, in table order. */
  function Thread(rows: seq<TalkRow>, name: string, subjectSeq: int): (t: seq<TalkRow>)
    ensures |t| <= |rows|
  {
    if rows == [] then []
    else
      var last := rows[|rows| - 1];
      Thread(rows[..|rows| - 1], name, subjectSeq) + (if InThread(last, name, subjectSeq) then [last] else [])
  }

  /** The thread holds exactly the table's rows of that thread. */
  lemma {:induction false} ThreadMembers(rows: seq<TalkRow>, name: string, subjectSeq: int)
    ensures forall k :: 0 <= k < |Thread(rows, name, subjectSeq)| ==>
      InThread(Thread(rows, name, subjectSeq)[k], name, subjectSeq) && Thread(rows, name, subjectSeq)[k] in rows
    ensures forall i :: 0 <= i < |rows| && InThread(rows[i], name, subjectSeq) ==> rows[i] in Thread(rows, name, subjectSeq)
    decreases |rows|
  {
    if rows != [] {
      var init, last := rows[..|rows| - 1], rows[|rows| - 1];
      ThreadMembers(init, name, subjectSeq);
      assert rows == init + [last];
      assert forall i :: 0 <= i < |init| ==> rows[i] == init[i];
    }
  }

  function TalkSeqs(rows: seq<TalkRow>): (xs: seq<int>)
    ensures |xs| == |rows| && forall i :: 0 <= i < |rows| ==> xs[i] == rows[i].talkSeq
  {
    seq(|rows|, i requires 0 <= i < |rows| => rows[i].talkSeq)
  }

  function Ids(rows: seq<TalkRow>): set<int> {
    set r | r in rows :: r.id
  }

  /** `get_next_talk_seq`: one more than the thread's largest `talk_seq`, or 1 for an empty thread. */
  function NextTalkSeqOf(rows: seq<TalkRow>, name: string, subjectSeq: int): (n: int)
    ensures Thread(rows, name, subjectSeq) == [] ==> n == 1
    ensures forall k :: 0 <= k < |Thread(rows, name, subjectSeq)| ==> Thread(rows, name, subjectSeq)[k].talkSeq < n
    ensures Thread(rows, name, subjectSeq) != [] ==>
      exists k :: 0 <= k < |Thread(rows, name, subjectSeq)| && Thread(rows, name, subjectSeq)[k].talkSeq == n - 1
  {
    var t := Thread(rows, name, subjectSeq);
    if t == [] then 1
    else
      var xs := TalkSeqs(t);
      assert Max(xs) in xs;
      Max(xs) + 1
  }

  /** The next number is above every number of the thread, and is 1 exactly when the thread has no row. */
  lemma NextTalkSeqAbove(rows: seq<TalkRow>, name: string, subjectSeq: int)
    ensures forall i :: 0 <= i < |rows| && InThread(rows[i], name, subjectSeq) ==>
      rows[i].talkSeq < NextTalkSeqOf(rows, name, subjectSeq)
    ensures Thread(rows, name, subjectSeq) == [] ==> NextTalkSeqOf(rows, name, subjectSeq) == 1
    ensures Thread(rows, name, subjectSeq) != [] ==>
      exists k :: 0 <= k < |Thread(rows, name, subjectSeq)|
        && Thread(rows, name, subjectSeq)[k].talkSeq == NextTalkSeqOf(rows, name, subjectSeq) - 1
  {
    var t := Thread(rows, name, subjectSeq);
    ThreadMembers(rows, name, subjectSeq);
    forall i | 0 <= i < |rows| && InThread(rows[i], name, subjectSeq)
      ensures rows[i].talkSeq < NextTalkSeqOf(rows, name, subjectSeq)
    {
      var k :| 0 <= k < |t| && t[k] == rows[i];
      assert TalkSeqs(t)[k] == rows[i].talkSeq;
    }
    if t != [] {
      var xs := TalkSeqs(t);
      var k :| 0 <= k < |xs| && xs[k] == Max(xs);
      assert t[k].talkSeq == NextTalkSeqOf(rows, name, subjectSeq) - 1;
    }
  }

  /** The `subject_seq` values of one user's rows, in table order. */
  function SubjectSeqs(rows: seq<TalkRow>, name: string): (xs: seq<int>)
    ensures xs == [] <==> forall i :: 0 <= i < |rows| ==> rows[i].name != name
    ensures forall i :: 0 <= i < |rows| && rows[i].name == name ==> rows[i].subjectSeq in xs
    ensures forall k :: 0 <= k < |xs| ==> exists i :: 0 <= i < |rows| && rows[i].name == name && rows[i].subjectSeq == xs[k]
  {
    if rows == [] then []
    else
      var init, last := rows[..|rows| - 1], rows[|rows| - 1];
      var xs := SubjectSeqs(init, name);
      assert forall i :: 0 <= i < |init| ==> init[i] == rows[i];
      xs + (if last.name == name then [last.subjectSeq] else [])
  }

  /** `get_last_subject_seq`: the user's largest `subject_seq`, or 0 when the user has no row. */
  function LastSubjectSeqOf(rows: seq<TalkRow>, name: string): (s: int)
    ensures (forall i :: 0 <= i < |rows| ==> rows[i].name != name) ==> s == 0
    ensures forall i :: 0 <= i < |rows| && rows[i].name == name ==> rows[i].subjectSeq <= s
    ensures (exists i :: 0 <= i < |rows| && rows[i].name == name) ==>
      exists i :: 0 <= i < |rows| && rows[i].name == name && rows[i].subjectSeq == s
  {
    var xs := SubjectSeqs(rows, name);
    if xs == [] then 0
    else
      assert forall i :: 0 <= i < |rows| && rows[i].name == name ==> exists k :: 0 <= k < |xs| && xs[k] == rows[i].subjectSeq;
      assert Max(xs) in xs;
      Max(xs)
  }

  /**
   * The subject number chosen when the conversation mode changes: a new
   * conversation takes the next number; continuing takes the last number,
   * or 1 when there is none yet.
   */
  function ChooseSubjectSeq(conversationMode: string, last: int): (s: int)
    ensures conversationMode == NewConversation ==> s == last + 1
    ensures conversationMode != NewConversation ==> s >= 1 && (last >= 1 ==> s == last)
    ensures conversationMode != NewConversation && last < 1 ==> s == 1
  {
    if conversationMode == NewConversation then last + 1
    else if last > 0 then last else 1
  }

  /** A new conversation starts an empty thread. */
  lemma NewConversationIsEmpty(rows: seq<TalkRow>, name: string)
    ensures Thread(rows, name, ChooseSubjectSeq(NewConversation, LastSubjectSeqOf(rows, name))) == []
  {
    var s := ChooseSubjectSeq(NewConversation, LastSubjectSeqOf(rows, name));
    forall i | 0 <= i < |rows| ensures !InThread(rows[i], name, s) {
      if rows[i].name == name {
        assert rows[i].subjectSeq in SubjectSeqs(rows, name);
      }
    }
    ThreadEmpty(rows, name, s);
  }

  lemma {:induction false} ThreadEmpty(rows: seq<TalkRow>, name: string, subjectSeq: int)
    requires forall i :: 0 <= i < |rows| ==> !InThread(rows[i], name, subjectSeq)
    ensures Thread(rows, name, subjectSeq) == []
    decreases |rows|
  {
    if rows != [] {
      ThreadEmpty(rows[..|rows| - 1], name, subjectSeq);
    }
  }

  /** Continuing, when the user has a positive subject number, resumes the thread of that number. */
  lemma ContinueResumesLast(rows: seq<TalkRow>, name: string, conversationMode: string)
    requires conversationMode != NewConversation
    requires LastSubjectSeqOf(rows, name) > 0
    ensures ChooseSubjectSeq(conversationMode, LastSubjectSeqOf(rows, name)) == LastSubjectSeqOf(rows, name)
    ensures Thread(rows, name, LastSubjectSeqOf(rows, name)) != []
  {
    var xs := SubjectSeqs(rows, name);
    assert xs != [];
    var k :| 0 <= k < |xs| && xs[k] == Max(xs);
    var i :| 0 <= i < |rows| && rows[i].name == name && rows[i].subjectSeq == xs[k];
    ThreadMembers(rows, name, LastSubjectSeqOf(rows, name));
    assert rows[i] in Thread(rows, name, LastSubjectSeqOf(rows, name));
  }

  /* ---------- ordering ---------- */

  predicate Before(a: TalkRow, b: TalkRow) {
    a.id < b.id && (SameThread(a, b) ==> a.talkSeq < b.talkSeq)
  }

  /** Ids increase in table order, and so do `talk_seq` values within each thread. */
  predicate Ordered(rows: seq<TalkRow>) {
    forall i, j :: 0 <= i < j < |rows| ==> Before(rows[i], rows[j])
  }

  lemma OrderedAppend(rows: seq<TalkRow>, r: TalkRow)
    requires Ordered(rows)
    requires forall k :: 0 <= k < |rows| ==> Before(rows[k], r)
    ensures Ordered(rows + [r])
  {
    var s := rows + [r];
    forall i, j | 0 <= i < j < |s| ensures Before(s[i], s[j]) {
      if j == |rows| { assert s[i] == rows[i]; } else { assert s[i] == rows[i] && s[j] == rows[j]; }
    }
  }

  lemma BeforeLast(rows: seq<TalkRow>, x: TalkRow)
    requires Ordered(rows) && rows != []
    requires x in rows[..|rows| - 1]
    ensures Before(x, rows[|rows| - 1])
  {
    var m :| 0 <= m < |rows| - 1 && rows[..|rows| - 1][m] == x;
    assert rows[m] == x;
  }

  lemma OrderedInit(rows: seq<TalkRow>)
    requires Ordered(rows) && rows != []
    ensures Ordered(rows[..|rows| - 1])
  {
    var init := rows[..|rows| - 1];
    assert forall i :: 0 <= i < |init| ==> init[i] == rows[i];
  }

  lemma {:induction false} ThreadOrdered(rows: seq<TalkRow>, name: string, subjectSeq: int)
    requires Ordered(rows)
    ensures Ordered(Thread(rows, name, subjectSeq))
    decreases |rows|
  {
    if rows != [] {
      var init, last := rows[..|rows| - 1], rows[|rows| - 1];
      OrderedInit(rows);
      ThreadOrdered(init, name, subjectSeq);
      ThreadMembers(init, name, subjectSeq);
      var t0 := Thread(init, name, subjectSeq);
      if InThread(last, name, subjectSeq) {
        forall k | 0 <= k < |t0| ensures Before(t0[k], last) {
          assert t0[k] in init;
          BeforeLast(rows, t0[k]);
        }
        OrderedAppend(t0, last);
      }
    }
  }

  /** Within an ordered table a thread's `talk_seq` values strictly increase. */
  lemma ThreadIncreasing(rows: seq<TalkRow>, name: string, subjectSeq: int)
    requires Ordered(rows)
    ensures StrictlyIncreasing(TalkSeqs(Thread(rows, name, subjectSeq)))
  {
    ThreadOrdered(rows, name, subjectSeq);
    ThreadMembers(rows, name, subjectSeq);
    var t := Thread(rows, name, subjectSeq);
    assert forall i, j :: 0 <= i < j < |t| ==> Before(t[i], t[j]) && SameThread(t[i], t[j]);
  }

  /* ---------- history ---------- */

  /** The newest `HistoryLimit` rows of the thread, oldest first. */
  function HistoryRows(rows: seq<TalkRow>, name: string, subjectSeq: int): (r: seq<TalkRow>)
    ensures |r| <= HistoryLimit
    ensures |r| == HistoryLimit || r == Thread(rows, name, subjectSeq)
    ensures |r| <= |Thread(rows, name, subjectSeq)|
      && r == Thread(rows, name, subjectSeq)[|Thread(rows, name, subjectSeq)| - |r|..]
  {
    var t := Thread(rows, name, subjectSeq);
    t[|t| - (if |t| > HistoryLimit then HistoryLimit else |t|)..]
  }

  /**
   * `order('talk_seq', desc=True).limit(20)` reversed: at most 20 rows of the
   * thread, the thread's last ones, in increasing `talk_seq`, and every thread
   * row left out is older than every row kept.
   */
  lemma HistoryIsNewest(rows: seq<TalkRow>, name: string, subjectSeq: int)
    requires Ordered(rows)
    ensures var t, h := Thread(rows, name, subjectSeq), HistoryRows(rows, name, subjectSeq);
      && |h| == (if |t| > HistoryLimit then HistoryLimit else |t|)
      && h == t[|t| - |h|..]
      && StrictlyIncreasing(TalkSeqs(h))
      && forall p, k :: 0 <= p < |t| && t[p] !in h && 0 <= k < |h| ==> t[p].talkSeq < h[k].talkSeq
  {
    var t := Thread(rows, name, subjectSeq);
    var h := HistoryRows(rows, name, subjectSeq);
    var d := |t| - (if |t| > HistoryLimit then HistoryLimit else |t|);
    assert h == t[d..];
    assert |h| == |t| - d;
    ThreadIncreasing(rows, name, subjectSeq);
    SuffixNewer(t, d);
  }

  /** In a thread of increasing `talk_seq`, a row outside a suffix is older than every row of it. */
  lemma SuffixNewer(t: seq<TalkRow>, d: nat)
    requires StrictlyIncreasing(TalkSeqs(t)) && d <= |t|
    ensures StrictlyIncreasing(TalkSeqs(t[d..]))
    ensures forall p, k :: 0 <= p < |t| && t[p] !in t[d..] && 0 <= k < |t| - d ==> t[p].talkSeq < t[d..][k].talkSeq
  {
    var h := t[d..];
    assert forall k :: 0 <= k < |h| ==> h[k] == t[d + k] && TalkSeqs(h)[k] == TalkSeqs(t)[d + k];
    forall p, k | 0 <= p < |t| && t[p] !in h && 0 <= k < |h|
      ensures t[p].talkSeq < h[k].talkSeq
    {
      assert forall q :: d <= q < |t| ==> t[q] == h[q - d];
      assert p < d;
      assert TalkSeqs(t)[p] < TalkSeqs(t)[d + k];
    }
  }

  function Entries(rows: seq<TalkRow>): (es: seq<(string, string)>)
    ensures |es| == |rows| && forall i :: 0 <= i < |rows| ==> es[i] == (rows[i].fromTo, rows[i].text)
  {
    seq(|rows|, i requires 0 <= i < |rows| => (rows[i].fromTo, rows[i].text))
  }

  predicate ArchiveInThread(a: ArchiveRow, name: string, subjectSeq: int) {
    a.name == name && a.subjectSeq == subjectSeq
  }

  /** `talk_old` ordered by descending id, first row: the last matching archive row in table order. */
  function LatestSummary(archive: seq<ArchiveRow>, name: string, subjectSeq: int): (s: Option<string>)
    ensures s.None? <==> forall i :: 0 <= i < |archive| ==> !ArchiveInThread(archive[i], name, subjectSeq)
  {
    if archive == [] then None
    else if ArchiveInThread(archive[|archive| - 1], name, subjectSeq) then Some(archive[|archive| - 1].text)
    else
      var init := archive[..|archive| - 1];
      assert forall i :: 0 <= i < |init| ==> init[i] == archive[i];
      LatestSummary(init, name, subjectSeq)
  }

  predicate IdsIncreasing(archive: seq<ArchiveRow>) {
    forall i, j :: 0 <= i < j < |archive| ==> archive[i].id < archive[j].id
  }

  /** Position `i` holds the matching archive row with the largest id, whose text is the latest summary. */
  predicate NewestSummaryAt(archive: seq<ArchiveRow>, name: string, subjectSeq: int, i: int)
    requires 0 <= i < |archive|
  {
    && ArchiveInThread(archive[i], name, subjectSeq)
    && LatestSummary(archive, name, subjectSeq) == Some(archive[i].text)
    && forall j :: 0 <= j < |archive| && ArchiveInThread(archive[j], name, subjectSeq) ==> archive[j].id <= archive[i].id
  }

  /** The summary returned is the text of the matching archive row with the largest id. */
  lemma {:induction false} LatestSummaryNewest(archive: seq<ArchiveRow>, name: string, subjectSeq: int)
    requires IdsIncreasing(archive)
    requires LatestSummary(archive, name, subjectSeq).Some?
    ensures exists i :: 0 <= i < |archive| && NewestSummaryAt(archive, name, subjectSeq, i)
    decreases |archive|
  {
    var n := |archive| - 1;
    if ArchiveInThread(archive[n], name, subjectSeq) {
      assert forall j :: 0 <= j < |archive| ==> archive[j].id <= archive[n].id;
      assert NewestSummaryAt(archive, name, subjectSeq, n);
    } else {
      var init := archive[..n];
      assert forall i :: 0 <= i < |init| ==> init[i] == archive[i];
      LatestSummaryNewest(init, name, subjectSeq);
      var i :| 0 <= i < |init| && NewestSummaryAt(init, name, subjectSeq, i);
      assert archive[i] == init[i];
      assert NewestSummaryAt(archive, name, subjectSeq, i);
    }
  }

  /** `get_conversation_history`: the latest summary first, tagged `SUMMARY`, then the recent turns oldest first. */
  function HistoryOf(latest: seq<TalkRow>, archive: seq<ArchiveRow>, name: string, subjectSeq: int)
    : (h: seq<(string, string)>)
    ensures |h| <= HistoryLimit + 1
    ensures LatestSummary(archive, name, subjectSeq).Some? ==>
      |h| > 0 && h[0] == (DialoguePrompt.SummaryTag, LatestSummary(archive, name, subjectSeq).value)
    ensures var s := if LatestSummary(archive, name, subjectSeq).Some? then 1 else 0;
      s <= |h| && h[s..] == Entries(HistoryRows(latest, name, subjectSeq))
  {
    var summary := LatestSummary(archive, name, subjectSeq);
    var head := if summary.Some? then [(DialoguePrompt.SummaryTag, summary.value)] else [];
    head + Entries(HistoryRows(latest, name, subjectSeq))
  }

  /* ---------- archiving ---------- */

  /** The rows whose id is not in `ids`, in table order. */
  function Without(rows: seq<TalkRow>, ids: set<int>): (r: seq<TalkRow>)
    ensures |r| <= |rows|
  {
    if rows == [] then []
    else
      var last := rows[|rows| - 1];
      Without(rows[..|rows| - 1], ids) + (if last.id in ids then [] else [last])
  }

  /** Deleting keeps exactly the rows whose id is not deleted. */
  lemma {:induction false} WithoutMembers(rows: seq<TalkRow>, ids: set<int>)
    ensures forall k :: 0 <= k < |Without(rows, ids)| ==> Without(rows, ids)[k] in rows && Without(rows, ids)[k].id !in ids
    ensures forall i :: 0 <= i < |rows| && rows[i].id !in ids ==> rows[i] in Without(rows, ids)
    decreases |rows|
  {
    if rows != [] {
      var init, last := rows[..|rows| - 1], rows[|rows| - 1];
      WithoutMembers(init, ids);
      assert rows == init + [last];
      assert forall i :: 0 <= i < |init| ==> rows[i] == init[i];
    }
  }

  /** One more row at the end of the table: it is kept or deleted on its own. */
  lemma WithoutSnoc(init: seq<TalkRow>, last: TalkRow, ids: set<int>)
    ensures Without(init + [last], ids) == Without(init, ids) + (if last.id in ids then [] else [last])
  {
    assert (init + [last])[..|init|] == init;
  }

  lemma ThreadSnoc(init: seq<TalkRow>, last: TalkRow, name: string, subjectSeq: int)
    ensures Thread(init + [last], name, subjectSeq)
         == Thread(init, name, subjectSeq) + (if InThread(last, name, subjectSeq) then [last] else [])
  {
    assert (init + [last])[..|init|] == init;
  }

  /** Deleting by one id after another is deleting by the set of those ids. */
  lemma {:induction false} WithoutTwice(rows: seq<TalkRow>, s: set<int>, t: set<int>)
    ensures Without(Without(rows, s), t) == Without(rows, s + t)
    decreases |rows|
  {
    if rows != [] {
      var init, last := rows[..|rows| - 1], rows[|rows| - 1];
      WithoutTwice(init, s, t);
      var w := Without(init, s);
      assert rows == init + [last];
      WithoutSnoc(init, last, s);
      WithoutSnoc(init, last, s + t);
      if last.id !in s {
        assert Without(rows, s) == w + [last];
        WithoutSnoc(w, last, t);
      } else {
        assert Without(rows, s) == w;
      }
    }
  }

  lemma {:induction false} WithoutOrdered(rows: seq<TalkRow>, ids: set<int>)
    requires Ordered(rows)
    ensures Ordered(Without(rows, ids))
    decreases |rows|
  {
    if rows != [] {
      var init, last := rows[..|rows| - 1], rows[|rows| - 1];
      OrderedInit(rows);
      WithoutOrdered(init, ids);
      WithoutMembers(init, ids);
      var w := Without(init, ids);
      if last.id !in ids {
        forall k | 0 <= k < |w| ensures Before(w[k], last) { BeforeLast(rows, w[k]); }
        OrderedAppend(w, last);
      }
    }
  }

  /** Selecting a thread and deleting rows commute. */
  lemma {:induction false} ThreadWithout(rows: seq<TalkRow>, ids: set<int>, name: string, subjectSeq: int)
    ensures Thread(Without(rows, ids), name, subjectSeq) == Without(Thread(rows, name, subjectSeq), ids)
    decreases |rows|
  {
    if rows != [] {
      var init, last := rows[..|rows| - 1], rows[|rows| - 1];
      ThreadWithout(init, ids, name, subjectSeq);
      var w, t := Without(init, ids), Thread(init, name, subjectSeq);
      var keep := if last.id in ids then [] else [last];
      var pick := if InThread(last, name, subjectSeq) then [last] else [];
      assert Without(rows, ids) == w + keep;
      assert Thread(rows, name, subjectSeq) == t + pick;
      ThreadSnoc(w, last, name, subjectSeq);
      WithoutSnoc(t, last, ids);
      calc {
        Thread(Without(rows, ids), name, subjectSeq);
        Thread(w + keep, name, subjectSeq);
        { assert last.id in ids ==> w + keep == w; }
        Thread(w, name, subjectSeq) + (if last.id in ids then [] else pick);
        Without(t, ids) + (if InThread(last, name, subjectSeq) then keep else []);
        { assert !InThread(last, name, subjectSeq) ==> t + pick == t; }
        Without(t + pick, ids);
      }
    }
  }

  /** Rows none of whose ids are deleted are all kept. */
  lemma {:induction false} WithoutNone(rows: seq<TalkRow>, ids: set<int>)
    requires forall k :: 0 <= k < |rows| ==> rows[k].id !in ids
    ensures Without(rows, ids) == rows
    decreases |rows|
  {
    if rows != [] {
      WithoutNone(rows[..|rows| - 1], ids);
      assert rows == rows[..|rows| - 1] + [rows[|rows| - 1]];
    }
  }

  /** In an id-ordered sequence, deleting the ids of the first `n` rows leaves the rows from `n` on. */
  lemma {:induction false} WithoutPrefix(rows: seq<TalkRow>, n: nat)
    requires Ordered(rows) && n <= |rows|
    ensures Without(rows, Ids(rows[..n])) == rows[n..]
    decreases |rows|
  {
    if |rows| > n {
      var init, last := rows[..|rows| - 1], rows[|rows| - 1];
      OrderedInit(rows);
      WithoutPrefix(init, n);
      assert init[..n] == rows[..n];
      assert last.id !in Ids(rows[..n]) by {
        forall r | r in rows[..n] ensures r.id != last.id {
          var m :| 0 <= m < n && rows[..n][m] == r;
          assert Before(rows[m], last);
        }
      }
      assert rows[n..] == init[n..] + [last];
    } else {
      WithoutAll(rows);
      assert rows[..n] == rows;
    }
  }

  lemma WithoutAll(rows: seq<TalkRow>)
    ensures Without(rows, Ids(rows)) == []
  {
    assert forall k :: 0 <= k < |rows| ==> rows[k].id in Ids(rows);
    WithoutCovered(rows, Ids(rows));
  }

  lemma {:induction false} WithoutCovered(rows: seq<TalkRow>, ids: set<int>)
    requires forall k :: 0 <= k < |rows| ==> rows[k].id in ids
    ensures Without(rows, ids) == []
    decreases |rows|
  {
    if rows != [] {
      WithoutCovered(rows[..|rows| - 1], ids);
    }
  }

  lemma IdsSnoc(rows: seq<TalkRow>, k: nat)
    requires k < |rows|
    ensures Ids(rows[..k + 1]) == Ids(rows[..k]) + {rows[k].id}
  {
    assert rows[..k + 1] == rows[..k] + [rows[k]];
  }

  /** The oldest `ArchiveBatch` rows of the thread: the rows `summarize_and_archive_conversations` takes. */
  function OldestBatch(rows: seq<TalkRow>, name: string, subjectSeq: int): (b: seq<TalkRow>)
    ensures b <= Thread(rows, name, subjectSeq)
    ensures |b| <= ArchiveBatch
    ensures |b| == ArchiveBatch || b == Thread(rows, name, subjectSeq)
  {
    var t := Thread(rows, name, subjectSeq);
    t[..if |t| > ArchiveBatch then ArchiveBatch else |t|]
  }

  /**
   * Archiving deletes exactly the batch: the thread loses its oldest rows and
   * keeps the rest in order, and every other thread is unchanged.
   */
  lemma ArchiveDeletesBatch(rows: seq<TalkRow>, name: string, subjectSeq: int, otherName: string, otherSeq: int)
    requires Ordered(rows)
    ensures var b := OldestBatch(rows, name, subjectSeq);
      && Thread(Without(rows, Ids(b)), name, subjectSeq) == Thread(rows, name, subjectSeq)[|b|..]
      && ((otherName, otherSeq) != (name, subjectSeq) ==>
            Thread(Without(rows, Ids(b)), otherName, otherSeq) == Thread(rows, otherName, otherSeq))
  {
    var t := Thread(rows, name, subjectSeq);
    var b := OldestBatch(rows, name, subjectSeq);
    ThreadOrdered(rows, name, subjectSeq);
    ThreadWithout(rows, Ids(b), name, subjectSeq);
    WithoutPrefix(t, |b|);
    if (otherName, otherSeq) != (name, subjectSeq) {
      ArchiveKeepsOthers(rows, name, subjectSeq, otherName, otherSeq);
    }
  }

  /** Archiving one thread's batch leaves every other thread as it was. */
  lemma ArchiveKeepsOthers(rows: seq<TalkRow>, name: string, subjectSeq: int, otherName: string, otherSeq: int)
    requires Ordered(rows) && (otherName, otherSeq) != (name, subjectSeq)
    ensures Thread(Without(rows, Ids(OldestBatch(rows, name, subjectSeq))), otherName, otherSeq)
         == Thread(rows, otherName, otherSeq)
  {
    var b := OldestBatch(rows, name, subjectSeq);
    var u := Thread(rows, otherName, otherSeq);
    ThreadWithout(rows, Ids(b), otherName, otherSeq);
    ThreadIdsApart(rows, name, subjectSeq, otherName, otherSeq);
    assert Ids(b) <= Ids(Thread(rows, name, subjectSeq));
    WithoutNone(u, Ids(b));
  }

  /** In an ordered table, no row of one thread shares its id with a row of another. */
  lemma ThreadIdsApart(rows: seq<TalkRow>, name: string, subjectSeq: int, otherName: string, otherSeq: int)
    requires Ordered(rows) && (otherName, otherSeq) != (name, subjectSeq)
    ensures forall k :: 0 <= k < |Thread(rows, otherName, otherSeq)| ==>
      Thread(rows, otherName, otherSeq)[k].id !in Ids(Thread(rows, name, subjectSeq))
  {
    var t := Thread(rows, name, subjectSeq);
    var u := Thread(rows, otherName, otherSeq);
    ThreadMembers(rows, otherName, otherSeq);
    ThreadMembers(rows, name, subjectSeq);
    forall k | 0 <= k < |u| ensures u[k].id !in Ids(t) {
      forall r | r in t ensures r.id != u[k].id {
        var i :| 0 <= i < |rows| && rows[i] == r;
        var j :| 0 <= j < |rows| && rows[j] == u[k];
        assert rows[i] != rows[j];
        if i < j { assert Before(rows[i], rows[j]); } else { assert Before(rows[j], rows[i]); }
      }
    }
  }

  /** The text of one archived row: the header, then `from_to: text` per row, each ending in a newline. */
  function SummaryText(rows: seq<TalkRow>): (s: string)
    ensures |SummaryHeader| <= |s| && s[..|SummaryHeader|] == SummaryHeader
  {
    if rows == [] then SummaryHeader
    else
      var prev := SummaryText(rows[..|rows| - 1]);
      var last := rows[|rows| - 1];
      assert (prev + last.fromTo + ": " + last.text + "\n")[..|SummaryHeader|] == prev[..|SummaryHeader|];
      prev + last.fromTo + ": " + last.text + "\n"
  }

  /* ---------- the store ---------- */

  class TalkStore {
    /** `talk_latest`, in insertion order. */
    var latest: seq<TalkRow>
    /** `talk_old`, in insertion order. */
    var archive: seq<ArchiveRow>
    /** The next auto-increment id of each table. */
    var nextId: int
    var nextArchiveId: int

    ghost predicate Valid()
      reads this
    {
      && Ordered(latest)
      && (forall r :: r in latest ==> r.id < nextId)
      && IdsIncreasing(archive)
      && (forall a :: a in archive ==> a.id < nextArchiveId)
    }

    constructor ()
      ensures Valid()
      ensures latest == [] && archive == []
    {
      latest := [];
      archive := [];
      nextId := 1;
      nextArchiveId := 1;
    }

    /** `get_next_talk_seq`. */
    method NextTalkSeq(name: string, subjectSeq: int) returns (n: int)
      ensures n == NextTalkSeqOf(latest, name, subjectSeq)
    {
      var t := SelectThread(name, subjectSeq);
      if t == [] {
        n := 1;
      } else {
        var m := MaxOf(TalkSeqs(t));
        n := m + 1;
      }
    }

    /** `get_last_subject_seq`. */
    method LastSubjectSeq(name: string) returns (s: int)
      ensures s == LastSubjectSeqOf(latest, name)
    {
      var found := false;
      s := 0;
      for i := 0 to |latest|
        invariant found <==> SubjectSeqs(latest[..i], name) != []
        invariant s == MaxOr(SubjectSeqs(latest[..i], name), 0)
      {
        assert latest[..i + 1][..i] == latest[..i];
        var xs := SubjectSeqs(latest[..i], name);
        var r := latest[i];
        if r.name == name {
          if found {
            MaxSnoc(xs, r.subjectSeq);
          } else {
            assert xs + [r.subjectSeq] == [r.subjectSeq];
          }
          if !found || r.subjectSeq > s {
            s := r.subjectSeq;
          }
          found := true;
        }
      }
      assert latest[..|latest|] == latest;
    }

    /** `save_conversation`: insert one row with a fresh id. */
    method Save(name: string, subjectSeq: int, talkSeq: int, fromTo: string, text: string)
      modifies this
      ensures latest == old(latest) + [TalkRow(old(nextId), name, subjectSeq, talkSeq, fromTo, text)]
      ensures archive == old(archive) && nextId == old(nextId) + 1 && nextArchiveId == old(nextArchiveId)
      ensures old(Valid()) && talkSeq >= NextTalkSeqOf(old(latest), name, subjectSeq) ==> Valid()
    {
      var row := TalkRow(nextId, name, subjectSeq, talkSeq, fromTo, text);
      if Valid() && talkSeq >= NextTalkSeqOf(latest, name, subjectSeq) {
        NextTalkSeqAbove(latest, name, subjectSeq);
        OrderedAppend(latest, row);
      }
      latest := latest + [row];
      nextId := nextId + 1;
    }

    /** A turn saved the way the application saves every turn: under the thread's next `talk_seq`. */
    method AppendTurn(name: string, subjectSeq: int, fromTo: string, text: string)
      requires Valid()
      modifies this
      ensures Valid()
      ensures latest == old(latest)
        + [TalkRow(old(nextId), name, subjectSeq, NextTalkSeqOf(old(latest), name, subjectSeq), fromTo, text)]
      ensures archive == old(archive) && nextId == old(nextId) + 1 && nextArchiveId == old(nextArchiveId)
    {
      var talkSeq := NextTalkSeq(name, subjectSeq);
      Save(name, subjectSeq, talkSeq, fromTo, text);
    }

    /** The `.eq('name', name).eq('subject_seq', subject_seq)` selection on `talk_latest`. */
    method SelectThread(name: string, subjectSeq: int) returns (thread: seq<TalkRow>)
      ensures thread == Thread(latest, name, subjectSeq)
    {
      thread := [];
      for i := 0 to |latest|
        invariant thread == Thread(latest[..i], name, subjectSeq)
      {
        assert latest[..i + 1][..i] == latest[..i];
        if latest[i].name == name && latest[i].subjectSeq == subjectSeq {
          thread := thread + [latest[i]];
        }
      }
      assert latest[..|latest|] == latest;
    }

    /** The `talk_old` query: the summary text of the thread's newest archive row. */
    method FindSummary(name: string, subjectSeq: int) returns (summary: Option<string>)
      ensures summary == LatestSummary(archive, name, subjectSeq)
    {
      summary := None;
      for i := 0 to |archive|
        invariant summary == LatestSummary(archive[..i], name, subjectSeq)
      {
        assert archive[..i + 1][..i] == archive[..i];
        if archive[i].name == name && archive[i].subjectSeq == subjectSeq {
          summary := Some(archive[i].text);
        }
      }
      assert archive[..|archive|] == archive;
    }

    /** `get_conversation_history` with the default limit of 20. */
    method History(name: string, subjectSeq: int) returns (history: seq<(string, string)>)
      ensures history == HistoryOf(latest, archive, name, subjectSeq)
    {
      var thread := SelectThread(name, subjectSeq);
      var recent := thread[|thread| - (if |thread| > HistoryLimit then HistoryLimit else |thread|)..];
      var summary := FindSummary(name, subjectSeq);

      history := [];
      if summary.Some? {
        history := history + [(DialoguePrompt.SummaryTag, summary.value)];
      }
      assert recent == HistoryRows(latest, name, subjectSeq);
      history := AppendEntries(history, recent);
    }

    /**
     * `should_summarize_conversations`: the thread holds at least 40 rows, and
     * then archiving takes a full batch of 20.
     */
    function ShouldSummarize(name: string, subjectSeq: int): (b: bool)
      reads this
      ensures b ==> |OldestBatch(latest, name, subjectSeq)| == ArchiveBatch
      ensures !b ==> |Thread(latest, name, subjectSeq)| < SummarizeThreshold
      ensures |Thread(latest, name, subjectSeq)| < SummarizeThreshold ==> !b
    {
      |Thread(latest, name, subjectSeq)| >= SummarizeThreshold
    }

    /**
     * `summarize_and_archive_conversations`: the oldest 20 rows of the thread
     * are written into one summary row and then deleted one id at a time.
     */
    method SummarizeAndArchive(name: string, subjectSeq: int)
      requires Valid()
      modifies this
      ensures Valid()
      ensures var batch := OldestBatch(old(latest), name, subjectSeq);
        if batch == [] then latest == old(latest) && archive == old(archive)
        else
          && latest == Without(old(latest), Ids(batch))
          && archive == old(archive) + [ArchiveRow(old(nextArchiveId), name, subjectSeq, SummaryText(batch))]
      ensures nextId == old(nextId)
      ensures nextArchiveId == old(nextArchiveId) + if OldestBatch(old(latest), name, subjectSeq) == [] then 0 else 1
    {
      var thread := SelectThread(name, subjectSeq);
      var conversations := thread[..if |thread| > ArchiveBatch then ArchiveBatch else |thread|];
      if conversations != [] {
        var summaryText := BuildSummaryText(conversations);
        archive := archive + [ArchiveRow(nextArchiveId, name, subjectSeq, summaryText)];
        nextArchiveId := nextArchiveId + 1;
        DeleteRows(conversations);
      }
    }

    /** The user's half of an exchange: the turn is saved, then the prompt is built over the history ending with it. */
    method AskReview(userName: string, subjectSeq: int, preliminaryInfo: string, reportTopic: string,
                     reportContent: string, userInput: string)
      returns (prompt: string)
      requires Valid()
      modifies this
      ensures Valid()
      ensures latest == old(latest)
        + [TalkRow(old(nextId), userName, subjectSeq, NextTalkSeqOf(old(latest), userName, subjectSeq), "Q", userInput)]
      ensures archive == old(archive) && nextId == old(nextId) + 1 && nextArchiveId == old(nextArchiveId)
      ensures prompt == DialoguePrompt.Prompt(userName, HistoryOf(latest, archive, userName, subjectSeq),
                                              preliminaryInfo, reportTopic, reportContent, userInput)
    {
      AppendTurn(userName, subjectSeq, "Q", userInput);
      var history := History(userName, subjectSeq);
      prompt := DialoguePrompt.CreateGptPrompt(userName, history, preliminaryInfo, reportTopic, reportContent, userInput);
    }

    /**
     * The answer's half: the model's answer (a parameter here) is saved and,
     * once the thread holds 40 rows, its oldest 20 are archived, so a thread
     * of at most 40 rows ends below 40.
     */
    method RecordAnswer(userName: string, subjectSeq: int, aiResponse: string)
      requires Valid()
      modifies this
      ensures Valid()
      ensures var answered := old(latest)
          + [TalkRow(old(nextId), userName, subjectSeq, NextTalkSeqOf(old(latest), userName, subjectSeq), "A", aiResponse)];
        var batch := OldestBatch(answered, userName, subjectSeq);
        if |Thread(answered, userName, subjectSeq)| >= SummarizeThreshold then
          && latest == Without(answered, Ids(batch))
          && archive == old(archive) + [ArchiveRow(old(nextArchiveId), userName, subjectSeq, SummaryText(batch))]
          && nextArchiveId == old(nextArchiveId) + 1
        else
          latest == answered && archive == old(archive) && nextArchiveId == old(nextArchiveId)
      ensures nextId == old(nextId) + 1
      ensures |Thread(old(latest), userName, subjectSeq)| <= SummarizeThreshold ==>
        |Thread(latest, userName, subjectSeq)| < SummarizeThreshold
    {
      ghost var n0 := |Thread(latest, userName, subjectSeq)|;
      AppendTurn(userName, subjectSeq, "A", aiResponse);
      ThreadSnoc(old(latest), latest[|latest| - 1], userName, subjectSeq);
      assert latest == old(latest) + [latest[|latest| - 1]];
      assert |Thread(latest, userName, subjectSeq)| == n0 + 1;
      if ShouldSummarize(userName, subjectSeq) {
        ghost var full := latest;
        ghost var batch := OldestBatch(full, userName, subjectSeq);
        assert |batch| == ArchiveBatch;
        ArchiveDeletesBatch(full, userName, subjectSeq, userName, subjectSeq);
        SummarizeAndArchive(userName, subjectSeq);
        assert latest == Without(full, Ids(batch));
        assert |Thread(latest, userName, subjectSeq)| == n0 + 1 - ArchiveBatch;
      }
    }

    /**
     * One exchange of the report-review chat: the question is saved, the prompt
     * is built, the answer is saved under the next id and `talk_seq`, and the
     * thread is archived once it holds 40 rows. A thread kept below 40 rows
     * stays below 40 rows.
     */
    method ReviewExchange(userName: string, subjectSeq: int, preliminaryInfo: string, reportTopic: string,
                          reportContent: string, userInput: string, aiResponse: string)
      returns (prompt: string)
      requires Valid()
      modifies this
      ensures Valid()
      ensures var asked := old(latest)
          + [TalkRow(old(nextId), userName, subjectSeq, NextTalkSeqOf(old(latest), userName, subjectSeq), "Q", userInput)];
        prompt == DialoguePrompt.Prompt(userName, HistoryOf(asked, old(archive), userName, subjectSeq),
                                        preliminaryInfo, reportTopic, reportContent, userInput)
      ensures var asked := old(latest)
          + [TalkRow(old(nextId), userName, subjectSeq, NextTalkSeqOf(old(latest), userName, subjectSeq), "Q", userInput)];
        var answered := asked
          + [TalkRow(old(nextId) + 1, userName, subjectSeq, NextTalkSeqOf(asked, userName, subjectSeq), "A", aiResponse)];
        var batch := OldestBatch(answered, userName, subjectSeq);
        if |Thread(answered, userName, subjectSeq)| >= SummarizeThreshold then
          && latest == Without(answered, Ids(batch))
          && archive == old(archive) + [ArchiveRow(old(nextArchiveId), userName, subjectSeq, SummaryText(batch))]
          && nextArchiveId == old(nextArchiveId) + 1
        else
          latest == answered && archive == old(archive) && nextArchiveId == old(nextArchiveId)
      ensures nextId == old(nextId) + 2
      ensures |Thread(old(latest), userName, subjectSeq)| < SummarizeThreshold ==>
        |Thread(latest, userName, subjectSeq)| < SummarizeThreshold
    {
      prompt := AskReview(userName, subjectSeq, preliminaryInfo, reportTopic, reportContent, userInput);
      ThreadSnoc(old(latest), latest[|latest| - 1], userName, subjectSeq);
      RecordAnswer(userName, subjectSeq, aiResponse);
    }

    /** One `delete().eq('id', conv_id)`: the rows with that id leave the table. */
    method DeleteRow(convId: int)
      requires Valid()
      modifies this
      ensures Valid()
      ensures latest == Without(old(latest), {convId})
      ensures archive == old(archive) && nextId == old(nextId) && nextArchiveId == old(nextArchiveId)
    {
      WithoutOrdered(latest, {convId});
      WithoutMembers(latest, {convId});
      latest := Without(latest, {convId});
    }

    /** The per-id `delete().eq('id', conv_id)` loop. */
    method DeleteRows(rows: seq<TalkRow>)
      requires Valid()
      modifies this
      ensures Valid()
      ensures latest == Without(old(latest), Ids(rows))
      ensures archive == old(archive) && nextId == old(nextId) && nextArchiveId == old(nextArchiveId)
    {
      ghost var before := latest;
      WithoutNone(before, Ids(rows[..0]));
      for k := 0 to |rows|
        invariant latest == Without(before, Ids(rows[..k]))
        invariant Valid()
        invariant archive == old(archive) && nextId == old(nextId) && nextArchiveId == old(nextArchiveId)
      {
        WithoutTwice(before, Ids(rows[..k]), {rows[k].id});
        IdsSnoc(rows, k);
        DeleteRow(rows[k].id);
      }
      assert rows[..|rows|] == rows;
    }
  }

  /** The `history.append((from_to, content))` loop over the recent rows. */
  method AppendEntries(start: seq<(string, string)>, recent: seq<TalkRow>) returns (history: seq<(string, string)>)
    ensures history == start + Entries(recent)
  {
    history := start;
    ghost var entries := Entries(recent);
    for i := 0 to |recent|
      invariant history == start + entries[..i]
    {
      PrefixSnoc(entries, i);
      history := history + [(recent[i].fromTo, recent[i].text)];
    }
    assert entries[..|recent|] == entries;
  }

  /** The summary loop of `summarize_and_archive_conversations`. */
  method BuildSummaryText(rows: seq<TalkRow>) returns (text: string)
    ensures text == SummaryText(rows)
  {
    text := SummaryHeader;
    for k := 0 to |rows|
      invariant text == SummaryText(rows[..k])
    {
      assert rows[..k + 1][..k] == rows[..k];
      text := text + rows[k].fromTo + ": " + rows[k].text + "\n";
    }
    assert rows[..|rows|] == rows;
  }
}
