/**
 * The text handed to the debate team for one user turn on the team-debate
 * page (index3.py): the optional setting parts, the subject's conversation so
 * far and the current question, separated by blank lines.
 */
module DebateContext {
  import opened Text
  import opened DebateLog
  import opened Wrappers

  const PrelimLabel: string := "사전 정보: "
  const TopicLabel: string := "토론 주제: "
  const DiscussionLabel: string := "토론의 관점과 포인트: "
  const HistoryHeader: string := "\n이전 대화 이력:\n"
  const QuestionLabel: string := "현재 질문: "
  const PartSeparator: string := "\n\n"
  const UserSpeaker: string := "사용자"
  const TeamSpeaker: string := "AI 팀"

  /** Who spoke a stored turn: the user for `Q`, the team for anything else. */
  function Speaker(fromTo: string): (speaker: string)
    ensures speaker == UserSpeaker || speaker == TeamSpeaker
    ensures speaker == UserSpeaker <==> fromTo == "Q"
  {
    if fromTo == "Q" then UserSpeaker else TeamSpeaker
  }

  /** One line of the history block: `speaker: content` and a newline. */
  function HistoryLine(entry: (string, string)): string {
    Speaker(entry.0) + ": " + entry.1 + "\n"
  }

  /** The lines of all turns, oldest first. */
  function HistoryBody(history: seq<(string, string)>): string {
    if history == [] then ""
    else HistoryBody(history[..|history| - 1]) + HistoryLine(history[|history| - 1])
  }

  /** A setting part: the labelled text, kept only when it is not blank. */
  function SettingPart(heading: string, text: string): (part: seq<string>)
    ensures |part| <= 1
    ensures part != [] <==> !IsBlank(text)
    ensures part != [] ==> part[0] == heading + text
  {
    if IsBlank(text) then [] else [heading + text]
  }

  /** The history part: present exactly when the subject has at least one turn. */
  function HistoryPart(history: seq<(string, string)>): (part: seq<string>)
    ensures |part| <= 1
    ensures part != [] <==> history != []
  {
    if history == [] then [] else [HistoryHeader + HistoryBody(history)]
  }

  /** Every part before the question, in their fixed order. */
  function LeadingParts(prelim: string, topic: string, discussion: string,
                        history: seq<(string, string)>): seq<string> {
    SettingPart(PrelimLabel, prelim) + SettingPart(TopicLabel, topic)
      + SettingPart(DiscussionLabel, discussion) + HistoryPart(history)
  }

  /** `context_parts`. */
  function ContextParts(prelim: string, topic: string, discussion: string,
                        history: seq<(string, string)>, input: string): seq<string> {
    LeadingParts(prelim, topic, discussion, history) + [QuestionLabel + input]
  }

  /** `full_context`. */
  function FullContext(prelim: string, topic: string, discussion: string,
                       history: seq<(string, string)>, input: string): string {
    Join(ContextParts(prelim, topic, discussion, history, input), PartSeparator)
  }

  function Count(b: bool): nat {
    if b then 1 else 0
  }

  /**
   * One part per non-blank setting, one for a non-empty history, and the
   * question last; the first part is the preliminary information when that
   * is not blank.
   */
  lemma ContextPartsShape(prelim: string, topic: string, discussion: string,
                          history: seq<(string, string)>, input: string)
    ensures |ContextParts(prelim, topic, discussion, history, input)|
         == Count(!IsBlank(prelim)) + Count(!IsBlank(topic)) + Count(!IsBlank(discussion))
            + Count(history != []) + 1
    ensures ContextParts(prelim, topic, discussion, history, input)[
              |ContextParts(prelim, topic, discussion, history, input)| - 1] == QuestionLabel + input
    ensures !IsBlank(prelim) ==> ContextParts(prelim, topic, discussion, history, input)[0] == PrelimLabel + prelim
    ensures IsBlank(prelim) && IsBlank(topic) && IsBlank(discussion) && history == []
        ==> ContextParts(prelim, topic, discussion, history, input) == [QuestionLabel + input]
  {
  }

  /** The question always closes the context, after a blank line when anything precedes it. */
  lemma QuestionLast(prelim: string, topic: string, discussion: string,
                     history: seq<(string, string)>, input: string)
    ensures var lead := LeadingParts(prelim, topic, discussion, history);
      FullContext(prelim, topic, discussion, history, input)
        == (if lead == [] then "" else Join(lead, PartSeparator) + PartSeparator) + QuestionLabel + input
  {
    var lead, question := LeadingParts(prelim, topic, discussion, history), QuestionLabel + input;
    assert ContextParts(prelim, topic, discussion, history, input) == lead + [question];
    JoinSnoc(lead, question, PartSeparator);
  }

  lemma HistoryBodySnoc(init: seq<(string, string)>, last: (string, string))
    ensures HistoryBody(init + [last]) == HistoryBody(init) + HistoryLine(last)
  {
    assert (init + [last])[..|init|] == init;
  }

  /** The history lines of two stretches of turns are the lines of each, one after the other. */
  lemma {:induction false} HistoryBodyAppend(a: seq<(string, string)>, b: seq<(string, string)>)
    ensures HistoryBody(a + b) == HistoryBody(a) + HistoryBody(b)
    decreases |b|
  {
    if b == [] {
      assert a + b == a;
    } else {
      var init, last := b[..|b| - 1], b[|b| - 1];
      assert b == init + [last];
      assert a + b == (a + init) + [last];
      calc {
        HistoryBody(a + b);
        { HistoryBodySnoc(a + init, last); }
        HistoryBody(a + init) + HistoryLine(last);
        { HistoryBodyAppend(a, init); }
        HistoryBody(a) + HistoryBody(init) + HistoryLine(last);
        { HistoryBodySnoc(init, last); }
        HistoryBody(a) + HistoryBody(b);
      }
    }
  }

  /** The history text of a single turn is that turn's line. */
  lemma HistoryBodySingle(entry: (string, string))
    ensures HistoryBody([entry]) == HistoryLine(entry)
  {
    HistoryBodySnoc([], entry);
  }

  /** The history lines are the turns' lines, one per turn, in order. */
  lemma {:induction false} HistoryBodyLines(history: seq<(string, string)>)
    ensures HistoryBody(history) == Concat(Lines(history))
    decreases |history|
  {
    if history != [] {
      var rest := history[1..];
      assert history == [history[0]] + rest;
      HistoryBodyAppend([history[0]], rest);
      HistoryBodySingle(history[0]);
      HistoryBodyLines(rest);
      assert Lines(history)[1..] == Lines(rest);
    }
  }

  function Lines(history: seq<(string, string)>): (lines: seq<string>)
    ensures |lines| == |history|
    ensures forall i :: 0 <= i < |history| ==> lines[i] == HistoryLine(history[i])
  {
    seq(|history|, i requires 0 <= i < |history| => HistoryLine(history[i]))
  }

  /** `history_text`: the header, then `history_text +=` one line per turn. */
  method BuildHistoryText(history: seq<(string, string)>) returns (historyText: string)
    ensures historyText == HistoryHeader + HistoryBody(history)
  {
    historyText := HistoryHeader;
    for k := 0 to |history|
      invariant historyText == HistoryHeader + HistoryBody(history[..k])
    {
      PrefixSnoc(history, k);
      HistoryBodySnoc(history[..k], history[k]);
      historyText := historyText + HistoryLine(history[k]);
    }
    assert history[..|history|] == history;
  }

  /** One setting of the page: `context_parts.append` of the labelled text when it is not blank. */
  method AddSetting(parts: seq<string>, heading: string, text: string) returns (r: seq<string>)
    ensures r == parts + SettingPart(heading, text)
  {
    r := parts;
    if Strip(text) != "" {
      r := r + [heading + text];
    }
  }

  /** The page's steps: each non-blank setting appended, `history_text +=` per turn, then the join. */
  method BuildContext(prelim: string, topic: string, discussion: string,
                      history: seq<(string, string)>, input: string) returns (context: string)
    ensures context == FullContext(prelim, topic, discussion, history, input)
  {
    var parts := AddSetting([], PrelimLabel, prelim);
    parts := AddSetting(parts, TopicLabel, topic);
    parts := AddSetting(parts, DiscussionLabel, discussion);
    if history != [] {
      var historyText := BuildHistoryText(history);
      parts := parts + [historyText];
    }
    assert parts == LeadingParts(prelim, topic, discussion, history);
    parts := parts + [QuestionLabel + input];
    context := Join(parts, PartSeparator);
  }

  /** The stored history of a subject ends with the turn just saved to it. */
  lemma HistoryEndsWithSaved(rows: seq<DebateRow>, row: DebateRow)
    ensures HistoryOf(rows + [row], row.subjectSeq) != []
    ensures HistoryOf(rows + [row], row.subjectSeq)[|HistoryOf(rows + [row], row.subjectSeq)| - 1]
         == (row.fromTo, row.text)
  {
    SubjectSnoc(rows, row, row.subjectSeq);
  }

  /**
   * A user turn on the debate page: the question is stored under the next
   * `talk_seq` first, so the history read back for the context already ends
   * with it, and the history part is always present.
   */
  method AskTeam(log: SubjectTalk, topic: string, subjectSeq: int, prelim: string, discussion: string,
                 input: string) returns (context: string)
    requires log.Valid()
    modifies log
    ensures log.Valid()
    ensures log.rows == old(log.rows)
      + [DebateRow(old(log.nextId), topic, subjectSeq, NextTalkSeqOf(old(log.rows), subjectSeq), "Q", input)]
    ensures log.nextId == old(log.nextId) + 1
    ensures context == FullContext(prelim, topic, discussion, HistoryOf(log.rows, subjectSeq), input)
    ensures HistoryOf(log.rows, subjectSeq) != []
    ensures HistoryOf(log.rows, subjectSeq)[|HistoryOf(log.rows, subjectSeq)| - 1] == ("Q", input)
  {
    log.AppendTurn(topic, subjectSeq, "Q", input);
    HistoryEndsWithSaved(old(log.rows),
      DebateRow(old(log.nextId), topic, subjectSeq, NextTalkSeqOf(old(log.rows), subjectSeq), "Q", input));
    var history := log.History(subjectSeq);
    context := BuildContext(prelim, topic, discussion, history, input);
  }
}
