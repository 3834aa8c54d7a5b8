/**
 * `create_gpt_prompt` (index2.py): the XML-tagged prompt sent to the model
 * in the one-to-one report-review mode. The prompt is six blocks joined by
 * '\n': the persona, the dialogue guide, the conversation history, the
 * report contexts, the current input and the closing instructions.
 *
 * A history entry is the pair `(from_to, content)` that the talk store
 * returns: `from_to` is "Q" for the user, "A" for the assistant and
 * "SUMMARY" for an archived summary.
 */
module DialoguePrompt {
  import opened Text
  import opened PromptTemplates
  import Wrappers

  const SummaryTag: string := "SUMMARY"

  /* ---------- XML escaping of turn content ---------- */

  /** What each character becomes under the three replacements. */
  function EscapeChar(c: char): string {
    if c == '&' then "&amp;" else if c == '<' then "&lt;" else if c == '>' then "&gt;" else [c]
  }

  /** Character-by-character reference for the escaping. */
  function EscapeChars(s: string): string {
    if s == [] then [] else EscapeChar(s[0]) + EscapeChars(s[1..])
  }

  /** Reading the three entities back; every other character stands for itself. */
  function Unescape(s: string): string
    decreases |s|
  {
    if s == [] then []
    else if |s| >= 5 && s[..5] == "&amp;" then "&" + Unescape(s[5..])
    else if |s| >= 4 && s[..4] == "&lt;" then "<" + Unescape(s[4..])
    else if |s| >= 4 && s[..4] == "&gt;" then ">" + Unescape(s[4..])
    else [s[0]] + Unescape(s[1..])
  }

  /**
   * `content.replace("&", "&amp;").replace("<", "&lt;").replace(">", "&gt;")`:
   * the result holds no angle bracket, so turn text cannot open or close a
   * tag, and the original text can be read back from it.
   */
  function EscapeXml(s: string): string {
    ReplaceChar(ReplaceChar(ReplaceChar(s, '&', "&amp;"), '<', "&lt;"), '>', "&gt;")
  }

  /** The escaped text holds no angle bracket, and reading the entities back gives the original. */
  lemma EscapeXmlSafe(s: string)
    ensures '<' !in EscapeXml(s) && '>' !in EscapeXml(s)
    ensures Unescape(EscapeXml(s)) == s
  {
    EscapeXmlChars(s);
    EscapeCharsNoBrackets(s);
    UnescapeEscapeChars(s);
  }

  /** The chain of replacements, taken in the source's order, is the per-character escaping. */
  lemma {:induction false} EscapeXmlChars(s: string)
    ensures ReplaceChar(ReplaceChar(ReplaceChar(s, '&', "&amp;"), '<', "&lt;"), '>', "&gt;")
            == EscapeChars(s)
    decreases |s|
  {
    if s != [] {
      var c, rest := s[0], s[1..];
      assert s == [c] + rest;
      ReplaceAllAppend([c], rest);
      EscapeOne(c);
      EscapeXmlChars(rest);
    }
  }

  lemma ReplaceAllAppend(a: string, b: string)
    ensures ReplaceChar(ReplaceChar(ReplaceChar(a + b, '&', "&amp;"), '<', "&lt;"), '>', "&gt;")
            == ReplaceChar(ReplaceChar(ReplaceChar(a, '&', "&amp;"), '<', "&lt;"), '>', "&gt;")
               + ReplaceChar(ReplaceChar(ReplaceChar(b, '&', "&amp;"), '<', "&lt;"), '>', "&gt;")
  {
    ReplaceCharAppend(a, b, '&', "&amp;");
    var a1, b1 := ReplaceChar(a, '&', "&amp;"), ReplaceChar(b, '&', "&amp;");
    ReplaceCharAppend(a1, b1, '<', "&lt;");
    var a2, b2 := ReplaceChar(a1, '<', "&lt;"), ReplaceChar(b1, '<', "&lt;");
    ReplaceCharAppend(a2, b2, '>', "&gt;");
  }

  lemma EscapeOne(c: char)
    ensures ReplaceChar(ReplaceChar(ReplaceChar([c], '&', "&amp;"), '<', "&lt;"), '>', "&gt;")
            == EscapeChar(c)
  {
    ReplaceSingle(c, '&', "&amp;");
    if c == '&' {
      ReplaceNone("&amp;", '<', "&lt;");
      ReplaceNone("&amp;", '>', "&gt;");
    } else {
      ReplaceSingle(c, '<', "&lt;");
      if c == '<' {
        ReplaceNone("&lt;", '>', "&gt;");
      } else {
        ReplaceSingle(c, '>', "&gt;");
      }
    }
  }

  lemma ReplaceSingle(c: char, x: char, t: string)
    ensures ReplaceChar([c], x, t) == if c == x then t else [c]
  {
    assert [c][1..] == [];
  }

  lemma ReplaceNone(s: string, x: char, t: string)
    requires x !in s
    ensures ReplaceChar(s, x, t) == s
  {
  }

  lemma {:induction false} EscapeCharsNoBrackets(s: string)
    ensures '<' !in EscapeChars(s) && '>' !in EscapeChars(s)
    decreases |s|
  {
    if s != [] {
      EscapeCharsNoBrackets(s[1..]);
    }
  }

  lemma {:induction false} UnescapeEscapeChars(s: string)
    ensures Unescape(EscapeChars(s)) == s
    decreases |s|
  {
    if s != [] {
      var c, rest := s[0], s[1..];
      assert EscapeChars(s) == EscapeChar(c) + EscapeChars(rest);
      UnescapeFront(c, EscapeChars(rest));
      UnescapeEscapeChars(rest);
      assert s == [c] + rest;
    }
  }

  /** An escaped character in front reads back as that character. */
  lemma UnescapeFront(c: char, rest: string)
    ensures Unescape(EscapeChar(c) + rest) == [c] + Unescape(rest)
  {
    if c == '&' {
      UnescapeAmp(rest);
    } else if c == '<' {
      UnescapeEntity("&lt;", '<', rest);
    } else if c == '>' {
      UnescapeEntity("&gt;", '>', rest);
    } else {
      UnescapePlain(c, rest);
    }
  }

  lemma UnescapeAmp(rest: string)
    ensures Unescape("&amp;" + rest) == "&" + Unescape(rest)
  {
    var e := "&amp;" + rest;
    assert e[..5] == "&amp;" && e[5..] == rest;
  }

  lemma UnescapeEntity(entity: string, c: char, rest: string)
    requires (entity == "&lt;" && c == '<') || (entity == "&gt;" && c == '>')
    ensures Unescape(entity + rest) == [c] + Unescape(rest)
  {
    var e := entity + rest;
    assert e[1] == entity[1] != 'a';
    assert |e| < 5 || e[..5] != "&amp;" by {
      if |e| >= 5 { assert e[..5][1] == e[1]; }
    }
    assert e[..4] == entity && e[4..] == rest;
  }

  lemma UnescapePlain(c: char, rest: string)
    requires c != '&'
    ensures Unescape([c] + rest) == [c] + Unescape(rest)
  {
    var e := [c] + rest;
    assert e[0] == c;
    assert |e| >= 5 ==> e[..5][0] == c;
    assert |e| >= 4 ==> e[..4][0] == c;
    assert e[1..] == rest;
  }

  /* ---------- the history block ---------- */

  /** `"user" if from_to == 'Q' else "assistant"`. */
  function Role(fromTo: string): (role: string)
    ensures role == "user" || role == "assistant"
    ensures role == "user" <==> fromTo == "Q"
  {
    if fromTo == "Q" then "user" else "assistant"
  }

  function TurnOpen(role: string): string {
    "<turn role=\"" + role + "\">"
  }

  /** `f'<turn role="{role}">{safe}</turn>'`. */
  function TurnXml(entry: (string, string)): string {
    TurnOpen(Role(entry.0)) + EscapeXml(entry.1) + "</turn>"
  }

  /**
   * A turn element is its opening tag, then text with no angle bracket, then
   * `</turn>`; that text reads back as the entry's content.
   */
  lemma TurnXmlContent(entry: (string, string))
    ensures var x, o := TurnXml(entry), TurnOpen(Role(entry.0));
      && |o| + 7 <= |x|
      && x[..|o|] == o
      && x[|x| - 7..] == "</turn>"
      && '<' !in x[|o|..|x| - 7] && '>' !in x[|o|..|x| - 7]
      && Unescape(x[|o|..|x| - 7]) == entry.1
  {
    var o, body := TurnOpen(Role(entry.0)), EscapeXml(entry.1);
    EscapeXmlSafe(entry.1);
    var x := TurnXml(entry);
    assert x == o + body + "</turn>";
    assert x[..|o|] == o;
    assert x[|o|..|x| - 7] == body;
    assert x[|x| - 7..] == "</turn>";
  }

  /** `<summary>…</summary>` for a leading archived summary, and nothing otherwise. */
  function SummaryItems(history: seq<(string, string)>): (items: seq<string>)
    ensures |items| <= 1
    ensures items != [] <==> (history != [] && history[0].0 == SummaryTag)
  {
    if history != [] && history[0].0 == SummaryTag then ["<summary>" + history[0].1 + "</summary>"] else []
  }

  /** The `for` loop of the source: one turn element per entry, skipping every summary entry. */
  function TurnItems(history: seq<(string, string)>): seq<string>
  {
    if history == [] then []
    else
      var last := history[|history| - 1];
      TurnItems(history[..|history| - 1]) + (if last.0 == SummaryTag then [] else [TurnXml(last)])
  }

  /** The entries that are turns rather than summaries, in order. */
  function Spoken(history: seq<(string, string)>): (turns: seq<(string, string)>)
    ensures |turns| <= |history|
    ensures forall i :: 0 <= i < |turns| ==> turns[i].0 != SummaryTag && turns[i] in history
    ensures forall i :: 0 <= i < |history| && history[i].0 != SummaryTag ==> history[i] in turns
  {
    if history == [] then []
    else
      var rest := Spoken(history[1..]);
      assert forall i :: 1 <= i < |history| ==> history[i] == history[1..][i - 1];
      (if history[0].0 == SummaryTag then [] else [history[0]]) + rest
  }

  /** The items of the history block (the summary, then the turns). */
  function HistoryItems(history: seq<(string, string)>): seq<string>
  {
    SummaryItems(history) + TurnItems(history)
  }

  /** `items` are the turn elements of `turns`, one each, in order. */
  predicate ElementsOf(items: seq<string>, turns: seq<(string, string)>) {
    |items| == |turns| && forall i :: 0 <= i < |turns| ==> items[i] == TurnXml(turns[i])
  }

  lemma ElementsOfSnoc(items: seq<string>, turns: seq<(string, string)>, last: (string, string))
    requires ElementsOf(items, turns)
    ensures ElementsOf(items + [TurnXml(last)], turns + [last])
  {
    var a, b := items + [TurnXml(last)], turns + [last];
    forall i | 0 <= i < |b| ensures a[i] == TurnXml(b[i]) {
      if i < |turns| {
        assert a[i] == items[i] && b[i] == turns[i];
      }
    }
  }

  /** Every turn item is the element of the corresponding spoken entry, in order. */
  lemma {:induction false} TurnItemsOfSpoken(history: seq<(string, string)>)
    ensures |TurnItems(history)| == |Spoken(history)|
    ensures forall i :: 0 <= i < |Spoken(history)| ==> TurnItems(history)[i] == TurnXml(Spoken(history)[i])
    decreases |history|
  {
    if history != [] {
      var init, last := history[..|history| - 1], history[|history| - 1];
      Wrappers.SplitLast(history);
      TurnItemsOfSpoken(init);
      SpokenSnoc(init, last);
      var t, p := TurnItems(init), Spoken(init);
      assert ElementsOf(t, p);
      if last.0 != SummaryTag {
        ElementsOfSnoc(t, p, last);
        assert TurnItems(history) == t + [TurnXml(last)];
        assert Spoken(history) == p + [last];
      } else {
        assert TurnItems(history) == t;
        assert Spoken(history) == p;
      }
      assert ElementsOf(TurnItems(history), Spoken(history));
    }
  }

  /** `Spoken` read from the other end: appending an entry appends it when it is a turn. */
  lemma {:induction false} SpokenSnoc(init: seq<(string, string)>, last: (string, string))
    ensures Spoken(init + [last]) == Spoken(init) + (if last.0 == SummaryTag then [] else [last])
    decreases |init|
  {
    if init == [] {
      assert [last][1..] == [];
    } else {
      var h := init + [last];
      assert h[0] == init[0];
      assert h[1..] == init[1..] + [last];
      SpokenSnoc(init[1..], last);
    }
  }

  lemma TurnItemShape(entry: (string, string))
    ensures |TurnXml(entry)| >= 9 && TurnXml(entry)[..9] != "<summary>"
  {
    var x := TurnXml(entry);
    assert x[1] == 't';
  }

  lemma {:induction false} TurnItemsAreTurns(history: seq<(string, string)>)
    ensures forall i :: 0 <= i < |TurnItems(history)| ==>
      |TurnItems(history)[i]| >= 9 && TurnItems(history)[i][..9] != "<summary>"
    decreases |history|
  {
    if history != [] {
      var last := history[|history| - 1];
      TurnItemsAreTurns(history[..|history| - 1]);
      TurnItemShape(last);
    }
  }

  predicate IsSummaryItem(item: string) {
    |item| >= 9 && item[..9] == "<summary>"
  }

  /**
   * The history block opens with a summary element exactly when the first
   * entry is an archived summary, and it holds no other summary element.
   */
  lemma SummaryOnlyFirst(history: seq<(string, string)>)
    ensures var items := HistoryItems(history);
      && ((items != [] && IsSummaryItem(items[0])) <==> (history != [] && history[0].0 == SummaryTag))
      && forall i :: 1 <= i < |items| ==> !IsSummaryItem(items[i])
  {
    var items := HistoryItems(history);
    TurnItemsAreTurns(history);
    var s := SummaryItems(history);
    if s != [] {
      assert items[0] == s[0];
      assert forall i :: 1 <= i < |items| ==> items[i] == TurnItems(history)[i - 1];
    } else {
      assert items == TurnItems(history);
    }
  }

  /** One turn element built as the loop builds it: the role, then the three replacements. */
  method BuildTurnItem(entry: (string, string)) returns (item: string)
    ensures item == TurnXml(entry)
  {
    var role := if entry.0 == "Q" then "user" else "assistant";
    var safe := ReplaceChar(ReplaceChar(ReplaceChar(entry.1, '&', "&amp;"), '<', "&lt;"), '>', "&gt;");
    item := "<turn role=\"" + role + "\">" + safe + "</turn>";
  }

  /** One more entry of the loop adds its turn element, or nothing for a summary entry. */
  lemma HistoryItemsStep(history: seq<(string, string)>, i: nat)
    requires i < |history|
    ensures SummaryItems(history) + TurnItems(history[..i + 1])
         == SummaryItems(history) + TurnItems(history[..i])
            + (if history[i].0 == SummaryTag then [] else [TurnXml(history[i])])
  {
    assert history[..i + 1][..i] == history[..i];
  }

  /** The loop that fills `history_items`. */
  method BuildHistoryItems(history: seq<(string, string)>) returns (items: seq<string>)
    ensures items == HistoryItems(history)
  {
    items := [];
    if history != [] && history[0].0 == SummaryTag {
      items := items + ["<summary>" + history[0].1 + "</summary>"];
    }
    for i := 0 to |history|
      invariant items == SummaryItems(history) + TurnItems(history[..i])
    {
      HistoryItemsStep(history, i);
      var entry := history[i];
      if entry.0 == SummaryTag {
        continue;
      }
      var item := BuildTurnItem(entry);
      items := items + [item];
    }
    assert history[..|history|] == history;
  }

  function HistoryXml(items: seq<string>): string {
    "<history>\n  " + Join(items, "\n  ") + "\n</history>"
  }

  /** The history block is always emitted; without any turn it is an empty line between the tags. */
  lemma EmptyHistoryXml()
    ensures HistoryXml(HistoryItems([])) == "<history>\n  \n</history>"
  {
  }

  /** Escaping is not idempotent: an escaped `&lt;` is escaped again, its ampersand first. */
  lemma EscapeTwice()
    ensures EscapeXml("&lt;") == "&amp;lt;"
  {
    EscapeXmlChars("&lt;");
    EscapeEntity();
  }

  lemma EscapeEntity()
    ensures EscapeChars("&lt;") == "&amp;lt;"
  {
    var s := "&lt;";
    assert s[1..] == "lt;" && s[1..][1..] == "t;" && s[1..][1..][1..] == ";" && s[1..][1..][1..][1..] == [];
    assert EscapeChars(";") == ";";
    assert EscapeChars("t;") == "t;";
    assert EscapeChars("lt;") == "lt;";
  }

  /* ---------- contexts and input ---------- */

  /** One context element: the text between the tags, present only when the text is not blank. */
  function ContextItem(open: string, text: string, close: string): (item: seq<string>)
    ensures |item| <= 1
    ensures item != [] <==> !IsBlank(text)
    ensures item != [] ==> item[0] == open + text + close
  {
    if Strip(text) != "" then [open + text + close] else []
  }

  /** The context elements, each present only when its text is not blank; the text itself is kept untrimmed. */
  function ContextItems(preliminaryInfo: string, reportTopic: string, reportContent: string): (items: seq<string>)
    ensures |items| == (if IsBlank(preliminaryInfo) then 0 else 1) + (if IsBlank(reportTopic) then 0 else 1)
                       + (if IsBlank(reportContent) then 0 else 1)
    ensures !IsBlank(preliminaryInfo) ==> items[0] == "<preliminary_info>" + preliminaryInfo + "</preliminary_info>"
    ensures !IsBlank(reportContent) ==> items[|items| - 1] == "<context_report>" + reportContent + "</context_report>"
    ensures !IsBlank(reportTopic) ==>
      items[if IsBlank(preliminaryInfo) then 0 else 1] == "<context_subject>" + reportTopic + "</context_subject>"
  {
    var p := ContextItem("<preliminary_info>", preliminaryInfo, "</preliminary_info>");
    var t := ContextItem("<context_subject>", reportTopic, "</context_subject>");
    var c := ContextItem("<context_report>", reportContent, "</context_report>");
    var items := p + t + c;
    assert p != [] ==> items[0] == p[0];
    assert t != [] ==> items[|p|] == t[0];
    assert c != [] ==> items[|items| - 1] == c[0];
    items
  }

  /** The contexts block; the self-closing `<contexts/>` marks exactly the case with no context. */
  function ContextsXml(items: seq<string>): (xml: string)
    ensures xml == "<contexts/>" <==> items == []
  {
    if items != [] then
      var x := "<contexts>\n  " + Join(items, "\n  ") + "\n</contexts>";
      assert x[9] == '>';
      x
    else "<contexts/>"
  }

  function CurrentInputXml(userInput: string): string {
    "<current_input>" + userInput + "</current_input>"
  }

  /* ---------- the template blocks ---------- */

  function PersonaCore(userName: string): string {
    "<persona>" + PersonaHead + userName + PersonaTail + "</persona>"
  }

  function GuideCore(userName: string): string {
    "<dialogue_guide>" + GuideHead + userName + GuideMiddle + userName + GuideTail + "</dialogue_guide>"
  }

  function InstructionsCore(): string {
    "<instructions>" + InstructionsBody + "</instructions>"
  }

  /** A tagged block written between newlines strips back to the block, whatever name is spliced in. */
  lemma StripNewlines(core: string)
    requires |core| > 0 && core[0] == '<' && core[|core| - 1] == '>'
    ensures Strip("\n" + core + "\n") == core
  {
    StripPadded("\n", core, "\n");
  }

  /** The persona f-string after `.strip()`: the block from `<persona>` to `</persona>`. */
  function Persona(userName: string): (block: string)
    ensures block == PersonaCore(userName)
  {
    var core := PersonaCore(userName);
    assert core[0] == '<' && core[|core| - 1] == '>';
    StripNewlines(core);
    Strip("\n" + core + "\n")
  }

  /** The dialogue guide after `.strip()`. */
  function Guide(userName: string): (block: string)
    ensures block == GuideCore(userName)
  {
    var core := GuideCore(userName);
    assert core[0] == '<' && core[|core| - 1] == '>';
    StripNewlines(core);
    Strip("\n" + core + "\n")
  }

  /** The closing instructions after `.strip()`. */
  function FinalInstructions(): (block: string)
    ensures block == InstructionsCore()
  {
    var core := InstructionsCore();
    assert core[0] == '<' && core[|core| - 1] == '>';
    StripNewlines(core);
    Strip("\n" + core + "\n")
  }

  /* ---------- the whole prompt ---------- */

  function Blocks(userName: string, history: seq<(string, string)>, preliminaryInfo: string,
                  reportTopic: string, reportContent: string, userInput: string): seq<string>
  {
    [ Persona(userName),
      Guide(userName),
      HistoryXml(HistoryItems(history)),
      ContextsXml(ContextItems(preliminaryInfo, reportTopic, reportContent)),
      CurrentInputXml(userInput),
      FinalInstructions() ]
  }

  /** `"\n".join([...])` over the six blocks. */
  function Prompt(userName: string, history: seq<(string, string)>, preliminaryInfo: string,
                  reportTopic: string, reportContent: string, userInput: string): string
  {
    Join(Blocks(userName, history, preliminaryInfo, reportTopic, reportContent, userInput), "\n")
  }

  /** A six-way `"\n".join`. */
  lemma JoinSix(a: string, b: string, c: string, d: string, e: string, f: string)
    ensures Join([a, b, c, d, e, f], "\n") == a + "\n" + b + "\n" + c + "\n" + d + "\n" + e + "\n" + f
  {
    assert Join([e, f], "\n") == e + "\n" + f by { assert [e, f][1..] == [f]; }
    assert Join([d, e, f], "\n") == d + "\n" + Join([e, f], "\n") by { assert [d, e, f][1..] == [e, f]; }
    assert Join([c, d, e, f], "\n") == c + "\n" + Join([d, e, f], "\n") by { assert [c, d, e, f][1..] == [d, e, f]; }
    assert Join([b, c, d, e, f], "\n") == b + "\n" + Join([c, d, e, f], "\n") by { assert [b, c, d, e, f][1..] == [c, d, e, f]; }
    assert Join([a, b, c, d, e, f], "\n") == a + "\n" + Join([b, c, d, e, f], "\n") by { assert [a, b, c, d, e, f][1..] == [b, c, d, e, f]; }
  }

  /**
   * The prompt is the persona, the guide, the history, the contexts, the
   * current input and the instructions, in this order and one newline apart.
   */
  lemma PromptLayout(userName: string, history: seq<(string, string)>, preliminaryInfo: string,
                     reportTopic: string, reportContent: string, userInput: string)
    ensures Prompt(userName, history, preliminaryInfo, reportTopic, reportContent, userInput)
         == PersonaCore(userName) + "\n" + GuideCore(userName) + "\n"
            + HistoryXml(HistoryItems(history)) + "\n"
            + ContextsXml(ContextItems(preliminaryInfo, reportTopic, reportContent)) + "\n"
            + CurrentInputXml(userInput) + "\n"
            + InstructionsCore()
  {
    JoinSix(PersonaCore(userName), GuideCore(userName), HistoryXml(HistoryItems(history)),
            ContextsXml(ContextItems(preliminaryInfo, reportTopic, reportContent)),
            CurrentInputXml(userInput), InstructionsCore());
  }

  lemma SliceOfMiddle(a: string, m: string, z: string)
    ensures (a + m + z)[|a|..|a| + |m|] == m
  {
  }

  /** The persona addresses the user by name: the name follows the persona's opening text. */
  lemma PersonaAddressesUser(userName: string)
    ensures var p, k := PersonaCore(userName), |"<persona>" + PersonaHead|;
      k + |userName| <= |p| && p[k..k + |userName|] == userName
  {
    SliceOfMiddle("<persona>" + PersonaHead, userName, PersonaTail + "</persona>");
  }

  /** `create_gpt_prompt`: the history items are collected by the loop, the rest is assembled around them. */
  method CreateGptPrompt(userName: string, history: seq<(string, string)>, preliminaryInfo: string,
                         reportTopic: string, reportContent: string, userInput: string)
    returns (prompt: string)
    ensures prompt == Prompt(userName, history, preliminaryInfo, reportTopic, reportContent, userInput)
  {
    var historyItems := BuildHistoryItems(history);
    var historyXml := HistoryXml(historyItems);
    var contexts := ContextItems(preliminaryInfo, reportTopic, reportContent);
    prompt := Join([Persona(userName), Guide(userName), historyXml, ContextsXml(contexts),
                    CurrentInputXml(userInput), FinalInstructions()], "\n");
  }
}
