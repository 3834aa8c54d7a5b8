# KS simulator: a verified model of its deterministic core

The KS simulator is a Streamlit application with three screens.

- **Meeting screen** (`index.py`). A team of AI agents is built from the selected team leads and holds a meeting.
- **Report-review chat** (`index2.py`). A simulated division head questions the user about a report.
- **Team-debate screen** (`index3.py`). A team of AI agents debates a topic with the user.

Between the widgets, the Supabase calls and the LLM calls, five deterministic pieces remain. This project models them in Dafny and proves what they promise.

1. **Instruction composer.** This covers:
   - the reasoning-depth bundles;
   - the team-mode instructions;
   - the framework tables;
   - how each agent's instruction list is built: personality lines, then the depth bundle, then the framework lines;
   - the team built from the selected leads.

   Modules: `Assets`, `DebateInstructions`, `MeetingInstructions`, `Frameworks`, `TeamBuilder`.
2. **Team-stream post-processor** (`StreamFilter`). It drops empty chunks and chunks that are not strings. It sets off log lines matching `.*\)\s+completed in \d+\.\d+s.*` as inline code, and passes every other chunk through in order. The regular expression is given a declarative meaning (`IsLogLineSpec`). The deterministic scan the model uses is proved equal to it.
3. **Dialogue prompt builder** (`DialoguePrompt`, `PromptTemplates`). This is `create_gpt_prompt`. It builds:
   - the persona and dialogue-guide blocks, which depend only on the user's name;
   - the history as XML: an optional summary first, then the turns, whose text is escaped;
   - the non-blank contexts;
   - the current input;
   - the fixed instructions.

   The six blocks are joined with newlines.
4. **Conversation logs.** The Supabase tables are modelled as in-memory classes.
   - `ConfirmLog.TalkStore` stands for the report-review chat's `talk_latest` and `talk_old` tables. It provides:
     - next `talk_seq` and last `subject_seq`;
     - the history: the latest summary, then at most 20 of the newest rows, oldest first;
     - the 40-row trigger;
     - archiving of the oldest 20 rows into one summary row, then deleting them id by id.
   - `DebateLog.SubjectTalk` stands for the debate screen's `subject_talk` table.
   - `DebateContext` assembles the text the debate team receives for one user turn.
5. **Selection and mapping state** (`Selection`, `Frameworks`). This covers:
   - participant toggling and renaming on the debate screen;
   - checkbox ordering on the meeting screen;
   - the label, key and index tables for thinking frameworks, and the per-lead framework choices.

`Text` holds the string functions the core relies on: `splitlines`, `strip`, `str.replace` and `sep.join`. `Tables` holds the maximum behind every `order(col, desc=True).limit(1)` query. `Wrappers` holds `Option`, dictionary `.get` and list `.index`.

Two kinds of code are modelled as they are written.

- **Meeting-screen bundles.** The MID and HIGH depth bundles (`index.py:243-248`, `index.py:252-257`) have no commas between their string literals. Each is therefore one single-element list holding the six lines glued together (`MeetingInstructions.DepthInstruction`, `MidBundleCollapsed`).
- **`KEY_TO_INDEX`** (`index.py:504`). It enumerates the keys of `LABEL_TO_KEY`, which are labels. Despite its name it therefore maps labels, not framework keys, to positions (`Frameworks.KeyToIndexDomain`). It is never read.

The conversation tables are sequences in insertion order, and each class keeps an invariant `Valid()`: ids increase, and `talk_seq` strictly increases within each thread. Every turn is saved under the thread's next `talk_seq`, and `AppendTurn` shows that this preserves the invariant. So the database's `order('talk_seq')` is the table order (`ThreadIncreasing`, `SubjectIncreasing`, `HistoryIsNewest`).

## Model

| member | source | states |
|---|---|---|
| Text.SplitLines | index3.py:593 | `splitlines` over '\n': no line contains a line break, and an empty text has no lines |
| Text.JoinSplitLines | index3.py:593 | joining the lines of a text with '\n' gives the text back, less one final line break |
| Text.SplitJoinLines | index3.py:603 | lines without line breaks, the last one non-empty, split back out of their '\n' join |
| Text.Strip | index3.py:601 | `strip()` yields "" exactly for blank text, and otherwise has no white space at either end |
| Text.StripPadded | index2.py:363 | any white-space padding around a text without white space at its ends strips back to that text |
| Text.ReplaceChar | index2.py:451 | `replace` of one character leaves a text without it unchanged, and leaves none when the replacement has none |
| Text.ReplaceCharAppend | index2.py:451 | replacing distributes over concatenation |
| Text.JoinSnoc | index3.py:1006 | joining one more part adds one separator and that part, unless the list was empty |
| Tables.Max | index2.py:185-190 | the value of `order(desc).limit(1)` is an element of the column that is at least every element |
| Tables.MaxSnoc | index2.py:185-190 | the maximum after one more value is the larger of the old maximum and the value |
| Tables.MaxOr | index2.py:189-191 | the maximum, or the default when the column is empty |
| Tables.MaxOf | index3.py:346-354 | the running-maximum scan computes `Max` |
| Wrappers.Get | index3.py:599 | dict `.get`: the stored value for a present key, the default for an absent one |
| Wrappers.Find | index3.py:881 | `index` finds the first occurrence; the result is the length exactly when the element is absent |
| DebateInstructions.DepthInstruction | index3.py:362-392 | "낮음" gives the 8-line LOW bundle and "보통" the 6-line MID bundle; every other depth gives the 6-line HIGH bundle, each in both directions |
| DebateInstructions.DepthFallback | index3.py:384-392 | any unrecognised depth behaves exactly as "깊게" |
| DebateInstructions.TeamModeInstructions | index3.py:394-422 | always 7 lines: the coordinate bundle iff the mode is "개인의견 취합", else the debate bundle, then the depth line, "" iff the depth is unknown |
| DebateInstructions.TeamMode | index3.py:615 | the team runs in "coordinate" iff the mode is "개인의견 취합", else "collaborate" |
| MeetingInstructions.DepthInstruction | index.py:223-258 | "low" gives 8 lines; every other depth gives one line, the MID or HIGH bundle run together |
| MeetingInstructions.DebateDepth | index.py:283-287 | exactly "low", "mid" and "high" have a team depth line |
| MeetingInstructions.DebateMode | index.py:263 | "coordinate" corresponds to the opinion-collecting mode, and nothing else does |
| MeetingInstructions.DepthInstructionMatchesDebate | index.py:241-258 | the meeting LOW bundle is the debate one; MID and HIGH are the debate bundles concatenated into one element |
| MeetingInstructions.MidBundleCollapsed | index.py:241-249 | the meeting MID list differs from the six-line bundle but carries the same text |
| MeetingInstructions.TeamModeInstructions | index.py:261-290 | always 7 lines: the coordinate bundle iff the mode is "coordinate", else the collaborate bundle, then the depth line, "" iff unknown |
| MeetingInstructions.TeamModeMatchesDebate | index.py:261-290 | the meeting team instructions equal the debate screen's once mode and depth names are translated |
| Frameworks.EntriesFollowLabels | index.py:486-503 | the table lists the 11 selectbox labels in display order against the 11 framework keys |
| Frameworks.LabelsDistinct | index.py:486-490 | no label is listed twice |
| Frameworks.KeysDistinct | index.py:491-503 | no framework key is listed twice |
| Frameworks.FrameworkKeysListed | index.py:336-483 | the framework texts are keyed by exactly the listed keys |
| Frameworks.ForwardAt | index.py:491-503 | a dict literal maps each entry's label to that entry's key |
| Frameworks.BackwardAt | index.py:920 | the inverted dict maps each entry's key to its label |
| Frameworks.PositionsAt | index.py:504 | the enumerated dict maps each entry's label to its index |
| Frameworks.ForwardThenBackward | index.py:920 | the label of a label's key is that label |
| Frameworks.BackwardThenForward | index.py:920 | the key of a key's label is that key |
| Frameworks.PositionsLocate | index.py:504 | the positions cover exactly the labels, and each label sits at its position |
| Frameworks.LabelToKeyAt | index.py:491-503 | each label maps to the key at the same position |
| Frameworks.LabelToKeyDomain | index.py:486-503 | `LABEL_TO_KEY` holds exactly the 11 labels of `FRAMEWORK_LABELS` |
| Frameworks.LabelToKeyRange | index.py:336-503 | `LABEL_TO_KEY` reaches exactly the keys of `FRAMEWORKS_TEXT` |
| Frameworks.LabelToKeyInjective | index.py:491-503 | no two labels share a key, so the table is a bijection onto the keys |
| Frameworks.KeyToLabelInverse | index.py:920 | `KEY_TO_LABEL` undoes `LABEL_TO_KEY` |
| Frameworks.LabelToKeyInverse | index.py:920 | `LABEL_TO_KEY` undoes `KEY_TO_LABEL` |
| Frameworks.KeyToLabelDomain | index.py:920 | exactly the framework keys have a label |
| Frameworks.KeyToIndexAt | index.py:504 | each `KEY_TO_INDEX` entry is that label's own position among the options |
| Frameworks.KeysAreNotLabels | index.py:486-503 | no framework key is spelled like a label |
| Frameworks.KeyToIndexDomain | index.py:504 | `KEY_TO_INDEX` is keyed by exactly the labels, so no framework key is one of its entries |
| Frameworks.KeyToIndexOfLabel | index.py:504 | the label of a key sits at its `KEY_TO_INDEX` position |
| Frameworks.FrameworkLinesSpec | index3.py:599-603 | framework lines appear iff the key is not "none" and names a non-blank text; they join back to the stripped text and hold no line break |
| Frameworks.KeyOfLabel | index.py:929 | every option has a framework key whose label it is |
| Frameworks.CurrentLabel | index.py:917-921 | the preselected option is the stored key's label, or "기본(없음)" when the lead has none or the key is unknown |
| Frameworks.PreselectedIndex | index.py:926 | `FRAMEWORK_LABELS.index(current_label)` is in range and holds that label |
| Frameworks.SelectedKey | index.py:929 | every option maps to a framework key, whose label it is |
| Frameworks.KeepSelection | index.py:917-929 | leaving the preselected option selects the stored key again; an unknown key becomes "none" |
| Frameworks.Saved | index.py:936 | after saving, the lead reads the new key and every other lead reads what it did before |
| Frameworks.FrameworkSettings.Current | index.py:917 | a lead with an entry reads its stored key; a lead without one reads "none" |
| Frameworks.FrameworkSettings.Save | index.py:931-936 | the selected option's key is stored under the lead's id only |
| TeamBuilder.FindLead | index.py:520 | the first lead with the name, and none iff no lead carries it |
| TeamBuilder.PersonalityLines | index3.py:592-593 | no lines iff the personality is empty; the lines join back to the personality |
| TeamBuilder.LeadInstructionsLayout | index3.py:590-603 | the personality lines, then the depth bundle unchanged, then the framework lines, present iff the key is not "none" and its text is not blank |
| TeamBuilder.ComposeInstructions | index3.py:590-603 | the list extended step by step equals `LeadInstructions` |
| TeamBuilder.ChooseFrameworks | index.py:514-516 | the run configuration's map if non-empty, else the session's if non-empty, else empty; an empty map falls through |
| TeamBuilder.NamesWithLead | index3.py:582-586 | the selected names that have a lead, in order |
| TeamBuilder.Names | index3.py:606 | one agent name per agent, in order |
| TeamBuilder.DebateAgentsNames | index3.py:582-612 | the debate agents are exactly the selected names with a lead, in the order selected |
| TeamBuilder.DebateAgentsFromLeads | index3.py:582-612 | each debate agent is the one built from the lead carrying its name |
| TeamBuilder.BuildDebateTeam | index3.py:575-631 | the members, mode and team instructions are those of the pure specification |
| TeamBuilder.MeetingAgents | index.py:519-547 | one meeting agent per selected name, in order, each built from that name's lead |
| TeamBuilder.MeetingAgentsNames | index.py:519-547 | the meeting agents carry the selected names, in order |
| TeamBuilder.BuildMeetingAgent | index.py:520-547 | one pass of the loop builds the agent of that name and lead |
| TeamBuilder.BuildMeetingAgents | index.py:519-547 | the loop over the selected names builds `MeetingAgents` |
| TeamBuilder.BuildMeetingTeam | index.py:507-564 | members built with the chosen framework map, mode passed through, team instructions of mode and depth |
| StreamFilter.SpaceRun | index3.py:644 | the longest white-space prefix |
| StreamFilter.DigitRun | index3.py:644 | the longest digit prefix |
| StreamFilter.SpaceRunExact | index3.py:644 | a white-space prefix followed by a non-space character is the longest one |
| StreamFilter.DigitRunExact | index3.py:644 | a digit prefix followed by a non-digit is the longest one |
| StreamFilter.TailMatchesSpec | index3.py:644 | the greedy test of `\s+completed in \d+\.\d+s` succeeds iff the pattern's tail matches |
| StreamFilter.TailMatchesSound | index3.py:644 | when the greedy tail test succeeds, the pattern's tail matches |
| StreamFilter.TailMatchesComplete | index3.py:644 | any way of matching the pattern's tail makes the greedy test succeed |
| StreamFilter.ScanFromSpec | index3.py:644 | scanning the first line finds a `)` with a matching tail iff one exists |
| StreamFilter.ScanHere | index3.py:644 | the test at one position of the first line is the pattern's test with its `)` there |
| StreamFilter.IsLogLineCorrect | index3.py:644 | the filter's log-line test holds iff `re.match` of the pattern succeeds, with `.` not crossing a line break |
| StreamFilter.Render | index3.py:646 | a log chunk becomes "\n\n`", the stripped text, then "`\n\n" |
| StreamFilter.Texts | index3.py:640-641 | only non-empty string chunks are kept |
| StreamFilter.RunStream | index3.py:633-648 | the loop yields exactly `Filter` of the chunks; index.py:580-601 is the same loop |
| StreamFilter.FilterStep | index3.py:633-648 | one more chunk adds its transformed text, or nothing when it has no text |
| StreamFilter.FilterIsMapOfTexts | index3.py:636-648 | the output has one element per text chunk, transformed in place, in order |
| StreamFilter.FilterAppend | index.py:586-601 | filtering two stretches of a stream gives the two results one after the other |
| StreamFilter.RenderIsNotLogLine | index3.py:644-646 | a rendered log line starts with a line break and is never itself a log line |
| StreamFilter.TransformIdempotent | index3.py:644-648 | transforming a transformed chunk changes nothing |
| StreamFilter.AsChunks | index3.py:636-637 | the output fed back in as string chunks |
| StreamFilter.FilterOne | index3.py:640-648 | a single non-empty string chunk yields its transformation |
| StreamFilter.FilterIdempotent | index.py:586-601 | filtering the filtered stream again changes nothing |
| DialoguePrompt.EscapeXmlSafe | index2.py:451 | the escaped text has no angle bracket, and unescaping it gives the original back |
| DialoguePrompt.EscapeXmlChars | index2.py:451 | the three replacements in the order &, <, > equal per-character escaping |
| DialoguePrompt.EscapeCharsNoBrackets | index2.py:451 | per-character escaping leaves no angle bracket |
| DialoguePrompt.UnescapeEscapeChars | index2.py:451 | unescaping undoes per-character escaping |
| DialoguePrompt.UnescapeFront | index2.py:451 | an escaped character in front of any text reads back as that character |
| DialoguePrompt.EscapeTwice | index2.py:451 | an already escaped `&lt;` becomes `&amp;lt;` |
| DialoguePrompt.Role | index2.py:449 | the role is "user" iff `from_to` is 'Q', otherwise "assistant" |
| DialoguePrompt.TurnXmlContent | index2.py:449-452 | a turn element is the role's opening tag, bracket-free text that unescapes to the content, and "</turn>" |
| DialoguePrompt.SummaryItems | index2.py:441-443 | at most one summary element, present iff the first history entry is tagged SUMMARY |
| DialoguePrompt.Spoken | index2.py:446-448 | the entries not tagged SUMMARY, all of them and nothing else |
| DialoguePrompt.TurnItemsOfSpoken | index2.py:445-452 | one turn element per non-summary entry, in input order |
| DialoguePrompt.SpokenSnoc | index2.py:446-448 | one more entry is kept unless it is tagged SUMMARY |
| DialoguePrompt.TurnItemShape | index2.py:452 | a turn element never starts like a summary element |
| DialoguePrompt.TurnItemsAreTurns | index2.py:445-452 | every turn element is a `<turn ...>` element |
| DialoguePrompt.SummaryOnlyFirst | index2.py:441-452 | a summary element comes first iff the first entry is SUMMARY, and no summary element appears elsewhere |
| DialoguePrompt.BuildHistoryItems | index2.py:440-452 | the append loop with `continue` builds `HistoryItems` |
| DialoguePrompt.HistoryItemsStep | index2.py:445-452 | one more entry adds its turn element, or nothing for a summary entry |
| DialoguePrompt.BuildTurnItem | index2.py:449-452 | the role choice and the three replacements build `TurnXml` of the entry |
| DialoguePrompt.EmptyHistoryXml | index2.py:454 | an empty history gives exactly "<history>\n  \n</history>" |
| DialoguePrompt.ContextItems | index2.py:457-463 | each context element appears iff its text is not blank after stripping, in fixed order, holding the untrimmed text |
| DialoguePrompt.ContextItem | index2.py:458-463 | one context element, present iff its text is not blank, holding the text between its tags |
| DialoguePrompt.ContextsXml | index2.py:464 | the block is exactly "<contexts/>" iff there is no context element |
| DialoguePrompt.StripNewlines | index2.py:363 | stripping a tag-delimited block between two line breaks leaves the block |
| DialoguePrompt.Persona | index2.py:348-363 | the persona block is the `<persona>` element, built from the user's name alone |
| DialoguePrompt.Guide | index2.py:366-436 | the guide block is the `<dialogue_guide>` element, built from the user's name alone |
| DialoguePrompt.FinalInstructions | index2.py:469-477 | the instructions block is the fixed `<instructions>` element |
| DialoguePrompt.JoinSix | index2.py:480-487 | joining six blocks with "\n" puts one line break between consecutive blocks |
| DialoguePrompt.PromptLayout | index2.py:480-487 | the prompt is persona, guide, history XML, contexts XML, `<current_input>`, instructions, in this order, separated by "\n" |
| DialoguePrompt.SliceOfMiddle | index2.py:355 | the middle of a three-part concatenation is found at the first part's length |
| DialoguePrompt.PersonaAddressesUser | index2.py:355 | the persona calls the user by name at a fixed position |
| DialoguePrompt.CreateGptPrompt | index2.py:337-496 | the prompt built step by step is `Prompt` |
| ConfirmLog.Thread | index2.py:220-223 | the rows of one thread in table order, never more than the table; which rows they are is `ThreadMembers` |
| ConfirmLog.ThreadMembers | index2.py:220-223 | the thread holds exactly the table's rows of that name and subject |
| ConfirmLog.TalkSeqs | index2.py:221 | the `talk_seq` column, row by row |
| ConfirmLog.NextTalkSeqOf | index2.py:253-272 | 1 for an empty thread; otherwise above every `talk_seq` of the thread and one more than one of them |
| ConfirmLog.NextTalkSeqAbove | index2.py:253-272 | the next `talk_seq` is above every one in the thread, and 1 for an empty thread |
| ConfirmLog.SubjectSeqs | index2.py:182-184 | the user's `subject_seq` values: empty iff the user has no row, and exactly those of the user's rows |
| ConfirmLog.LastSubjectSeqOf | index2.py:176-194 | 0 for a user without rows; otherwise the `subject_seq` of one of the user's rows and no smaller than any of them |
| ConfirmLog.ChooseSubjectSeq | index2.py:616-626 | a new conversation takes the last number plus one; continuing takes the last number when it is positive and 1 otherwise |
| ConfirmLog.NewConversationIsEmpty | index2.py:617-622 | a new conversation takes a subject number whose thread is empty |
| ConfirmLog.ThreadEmpty | index2.py:220-223 | a thread none of whose rows are in the table is empty |
| ConfirmLog.ContinueResumesLast | index2.py:623-626 | continuing, with a positive last number, resumes that number's non-empty thread |
| ConfirmLog.OrderedAppend | index2.py:196-209 | an insert newer than every row keeps the table ordered |
| ConfirmLog.BeforeLast | index2.py:196-209 | in an ordered table every earlier row precedes the last |
| ConfirmLog.OrderedInit | index2.py:196-209 | dropping the last row keeps the table ordered |
| ConfirmLog.ThreadOrdered | index2.py:220-223 | a thread of an ordered table is ordered |
| ConfirmLog.ThreadIncreasing | index2.py:224 | within an ordered table a thread's `talk_seq` values strictly increase |
| ConfirmLog.HistoryRows | index2.py:220-228 | a suffix of the thread: its last 20 rows, or the whole thread when it is shorter |
| ConfirmLog.HistoryIsNewest | index2.py:220-228 | the history rows are the thread's last min(20, n), in increasing `talk_seq`, and every row left out is older |
| ConfirmLog.SuffixNewer | index2.py:244-246 | a row outside a suffix of an increasing thread is older than every row of it |
| ConfirmLog.Entries | index2.py:228 | one `(from_to, talk_history)` pair per row, in order |
| ConfirmLog.LatestSummary | index2.py:231-242 | none iff the archive has no row for the thread |
| ConfirmLog.LatestSummaryNewest | index2.py:231-237 | the summary is the text of the thread's archive row with the largest id |
| ConfirmLog.HistoryOf | index2.py:213-251 | at most 21 entries: the latest summary first, tagged SUMMARY, when there is one, then one entry per history row in order |
| ConfirmLog.Without | index2.py:325-331 | the rows left after a delete in table order, never more than before; which rows they are is `WithoutMembers` |
| ConfirmLog.WithoutMembers | index2.py:325-331 | deleting keeps exactly the rows whose id is not deleted |
| ConfirmLog.WithoutSnoc | index2.py:327-331 | a last row is kept or deleted on its own |
| ConfirmLog.ThreadSnoc | index2.py:220-223 | a last row joins the thread iff it belongs to it |
| ConfirmLog.WithoutTwice | index2.py:327-331 | deleting one id after another is deleting the set of those ids |
| ConfirmLog.WithoutOrdered | index2.py:325-331 | deleting keeps the table ordered |
| ConfirmLog.ThreadWithout | index2.py:325-331 | selecting a thread and deleting rows commute |
| ConfirmLog.WithoutNone | index2.py:325-331 | rows none of whose ids are deleted are all kept |
| ConfirmLog.WithoutPrefix | index2.py:325-331 | deleting the ids of the first n rows of an ordered sequence leaves the rows from n on |
| ConfirmLog.WithoutAll | index2.py:325-331 | deleting every id leaves nothing |
| ConfirmLog.WithoutCovered | index2.py:325-331 | rows whose ids are all deleted leave nothing |
| ConfirmLog.IdsSnoc | index2.py:326 | the ids of one more row are the old ids and that row's id |
| ConfirmLog.OldestBatch | index2.py:299-305 | a prefix of the thread: 20 rows, or the whole thread when it is shorter |
| ConfirmLog.ArchiveDeletesBatch | index2.py:298-331 | archiving drops exactly the thread's oldest rows, keeps the rest in order, and leaves every other thread unchanged |
| ConfirmLog.ArchiveKeepsOthers | index2.py:300-303 | deleting one thread's batch leaves every other thread as it was |
| ConfirmLog.ThreadIdsApart | index2.py:325-331 | in an ordered table no row of one thread has the id of a row of another |
| ConfirmLog.SummaryText | index2.py:311-313 | the summary starts with the header "이전 대화 요약:\n" |
| ConfirmLog.BuildSummaryText | index2.py:311-313 | the `summary_text +=` loop produces `SummaryText` |
| ConfirmLog.TalkStore.NextTalkSeq | index2.py:253-272 | computes `NextTalkSeqOf`: the thread's largest `talk_seq` plus 1, or 1 |
| ConfirmLog.TalkStore.LastSubjectSeq | index2.py:176-194 | computes the user's largest `subject_seq`, or 0 |
| ConfirmLog.TalkStore.Save | index2.py:196-211 | appends one row with a fresh id and keeps the ordering invariant when the `talk_seq` is new |
| ConfirmLog.TalkStore.AppendTurn | index2.py:838-848 | saves one row under the next id and the next `talk_seq`, leaves the archive alone and keeps the invariant |
| ConfirmLog.TalkStore.SelectThread | index2.py:220-223 | the selection loop yields the thread |
| ConfirmLog.TalkStore.FindSummary | index2.py:231-242 | the archive query yields the latest summary |
| ConfirmLog.TalkStore.History | index2.py:213-251 | the summary tagged SUMMARY first, then the newest 20 rows oldest first |
| ConfirmLog.TalkStore.ShouldSummarize | index2.py:274-289 | yes exactly when the thread holds at least 40 rows, and a yes means archiving takes a full batch of 20 |
| ConfirmLog.AppendEntries | index2.py:245-246 | the append loop adds one `(from_to, text)` entry per row, in order |
| ConfirmLog.TalkStore.SummarizeAndArchive | index2.py:291-335 | one summary row of the oldest 20 rows is appended to the archive under the next archive id, exactly those rows are deleted, and nothing happens for an empty thread |
| ConfirmLog.TalkStore.AskReview | index2.py:833-859 | the question is saved under the next id and `talk_seq`, then the prompt is built over the history that ends with it |
| ConfirmLog.TalkStore.RecordAnswer | index2.py:862-881 | the answer is saved under the next id and `talk_seq`; if the thread then holds 40 rows its oldest 20 are deleted and one summary of them is archived, otherwise the archive is unchanged; a thread of at most 40 rows ends below 40 |
| ConfirmLog.TalkStore.ReviewExchange | index2.py:833-881 | question then answer are saved under consecutive ids and `talk_seq` values, the prompt is built over the history ending with the question, a thread reaching 40 rows has its oldest 20 archived as one summary, and a thread below 40 rows stays below 40 |
| ConfirmLog.TalkStore.DeleteRow | index2.py:328-331 | one delete removes exactly the rows with that id and keeps the store valid |
| ConfirmLog.TalkStore.DeleteRows | index2.py:326-331 | the per-id delete loop removes exactly the rows with those ids |
| DebateLog.Subject | index3.py:327-329 | the rows of one subject in table order, never more than the table; which rows they are is `SubjectMembers` |
| DebateLog.SubjectSnoc | index3.py:327-329 | a last row joins the subject iff its `subject_seq` matches |
| DebateLog.SubjectMembers | index3.py:327-329 | the subject holds exactly the table's rows with that `subject_seq` |
| DebateLog.TalkSeqs | index3.py:347 | the `talk_seq` column, row by row |
| DebateLog.SubjectSeqs | index3.py:289 | the `subject_seq` column, row by row |
| DebateLog.NextTalkSeqOf | index3.py:339-358 | 1 for an empty subject; otherwise above every `talk_seq` of the subject and one more than one of them |
| DebateLog.LastSubjectSeqOf | index3.py:279-299 | 0 for an empty table; otherwise the `subject_seq` of one row and no smaller than any |
| DebateLog.NextTalkSeqAbove | index3.py:339-358 | the next `talk_seq` is above every one of the subject, and 1 for an empty subject |
| DebateLog.NewSessionIsEmpty | index3.py:922-928 | a new debate session takes a subject number no row has yet |
| DebateLog.SubjectNone | index3.py:327-329 | a subject none of whose rows are in the table is empty |
| DebateLog.SubjectIncreasing | index3.py:330 | within an ordered table a subject's `talk_seq` values strictly increase |
| DebateLog.HistoryOf | index3.py:320-337 | one `(from_to, talk_history)` pair per row of the subject, in order |
| DebateLog.SubjectTalk.SelectSubject | index3.py:327-329 | the selection loop yields the subject's rows |
| DebateLog.SubjectTalk.NextTalkSeq | index3.py:339-358 | computes the subject's largest `talk_seq` plus 1, or 1 |
| DebateLog.SubjectTalk.LastSubjectSeq | index3.py:279-299 | computes the largest `subject_seq` over the whole table, or 0 |
| DebateLog.SubjectTalk.Save | index3.py:301-318 | appends one row with a fresh id and keeps the invariant when the `talk_seq` is new |
| DebateLog.SubjectTalk.AppendTurn | index3.py:971-982 | saves one row under the next id and the next `talk_seq`, and keeps the invariant |
| DebateLog.SubjectTalk.History | index3.py:320-337 | computes `HistoryOf` |
| DebateContext.Speaker | index3.py:998 | the speaker is "사용자" iff `from_to` is "Q", otherwise "AI 팀" |
| DebateContext.SettingPart | index3.py:986-991 | a setting part is present iff its text is not blank after stripping, and is the label followed by the untrimmed text |
| DebateContext.HistoryPart | index3.py:995-1000 | the history part is present iff the history is non-empty |
| DebateContext.ContextPartsShape | index3.py:985-1003 | the part count is the non-blank settings plus a non-empty history plus one; the question is last; an empty setting gives the question alone |
| DebateContext.QuestionLast | index3.py:1003-1006 | the context ends with "현재 질문: " and the input, after "\n\n" when anything precedes it |
| DebateContext.HistoryBodySnoc | index3.py:997-999 | one more turn adds its line at the end |
| DebateContext.HistoryBodyAppend | index3.py:997-999 | the lines of two stretches of turns are the lines of each, one after the other |
| DebateContext.HistoryBodySingle | index3.py:999 | one turn gives its line |
| DebateContext.HistoryBodyLines | index3.py:997-999 | the history text is the turns' lines concatenated, one per turn, in order |
| DebateContext.Lines | index3.py:997-999 | one line per turn, "speaker: content" and a line break |
| DebateContext.BuildHistoryText | index3.py:996-999 | the `history_text +=` loop produces the header and one line per turn |
| DebateContext.BuildContext | index3.py:985-1006 | the appends and the join produce `FullContext` |
| DebateContext.AddSetting | index3.py:986-991 | a setting is appended exactly when its text is not blank |
| DebateContext.HistoryEndsWithSaved | index3.py:976-994 | the history read back after saving a turn ends with that turn |
| DebateContext.AskTeam | index3.py:967-1006 | the question is saved first under the next id and `talk_seq`, so the context's history part is present and ends with the question |
| Selection.RemoveFirst | index3.py:752 | `remove` drops the first occurrence: one element fewer, the same elements less that one, and every element before it at its place and every one after it a place earlier |
| Selection.RemoveFirstDistinct | index3.py:752 | removing from a list without repeats leaves no copy of the name and no repeat, and keeps every other name |
| Selection.Toggled | index3.py:742-755 | an unselected name is appended at the end; a selected one is removed by `remove`, the other names keeping their order |
| Selection.ToggledDistinct | index3.py:742-755 | toggling keeps the list free of repeats and flips exactly the pressed name's membership |
| Selection.ToggleTwice | index3.py:742-755 | pressing an unselected name twice restores the list |
| Selection.ToggleTwiceSelected | index3.py:742-755 | pressing a selected name twice moves it to the end |
| Selection.Renamed | index3.py:879-883 | an unchanged name leaves the list as it is; otherwise the name's index gets the new name and every other position is unchanged, and an absent name is an error |
| Selection.RenamedDistinct | index3.py:879-883 | a rename to an unused name keeps the list free of repeats and swaps one name for the other |
| Selection.Synced | index.py:811-814 | checked and absent appends at the end; unchecked and present removes the name by `remove`; checked and present, or unchecked and absent, changes nothing |
| Selection.SyncedFollowsBox | index.py:811-814 | afterwards the name is listed iff its box is checked, the list has no repeats, and other names are unchanged |
| Selection.Locate | index3.py:742 | the scan computes `Find`: the first position of the name, or the length when absent |
| Selection.FindUnique | index3.py:881 | a position holding the name with no earlier occurrence is the first index |
| Selection.NotFound | index3.py:742 | a name that occurs nowhere has no index |
| Selection.ParticipantOrder.Toggle | index3.py:742-756 | the button press performs `Toggled` on any list, and a list without repeats stays without repeats |
| Selection.ParticipantOrder.Rename | index3.py:879-883 | performs `Renamed`: succeeds when the name is unchanged or present, and leaves the list unchanged when a changed name is missing |
| Selection.SelectionOrder.Sync | index.py:811-814 | performs `Synced` and keeps the list without repeats |

## Left out

- Streamlit rendering, widgets, `st.rerun`/`st.stop`, session-state bootstrapping, authentication and debug `print`s: these are user interface.
- The edit-panel toggles (`editing_participant`, `visible_settings_lead`, `previous_checked`): these are user interface.
- Supabase calls.
  - The tables are in-memory sequences.
  - A failing client or query returns its `except` value (empty, 0 or 1); this path is not modelled as a separate state.
  - Row order stands for `ORDER BY talk_seq`. This holds under the `Valid()` invariant every turn insert keeps.
- LLM and agent calls: `stream_gpt_response`, `Team.run`, and `Agent`/`Team` construction with its tools and model ids. These are foreign code. The model records only the arguments built for them. The AI response is a parameter (`RecordAnswer`), and the stream is a sequence of chunks (`RunStream`).
- The debate screen saving the team's answer (`index3.py:1041-1049`). It is the same `AppendTurn` as the question.
- The LLM-inferred dialogue stage. It is prose inside the prompt. The prompt texts are opaque constants in `PromptTemplates`.
- Export and streams.
  - `pdf.py` and `create_html_from_markdown` are export formats that use foreign libraries and the clock.
  - The `stream_id` cancellation across reruns is asynchronous UI behaviour.
  - The `sqlite3` status button of `index2.py` refers to a module that is never imported.
- Text restrictions.
  - Text.SplitLines: splits at '\n' only, not at the other Unicode line boundaries of Python's `splitlines`.
  - Text.Strip: trims only the ASCII white space of Python's `isspace`, not the other Unicode spaces.
  - StreamFilter.IsLogLine: `\d` is read as ASCII digits, and `\s` as the same ASCII white space.
- TeamBuilder.BuildMeetingTeam: requires every selected name to have a lead. Otherwise the source's `next(...)` raises `StopIteration`, and that error is not modelled.
- Selection.ParticipantOrder.Rename: the database update `update_team_lead` that runs first is not modelled. It catches its own errors and its result is ignored, so the rename of the list happens whether or not the update succeeded, as the model does.
- TeamBuilder.BuildDebateTeam: the lead lookup by name is `FindLead` over a list of leads, standing for the database query `get_team_lead_by_name`.
- Computing the meeting team's framework map. The source evaluates it once per call; the model takes it as an argument.
- ConfirmLog.TalkStore.Save: promises `Valid()` only when the new `talk_seq` exceeds the thread's numbers. That is how every caller in the source uses it.
- DebateLog.SubjectTalk.Save: promises `Valid()` only under the same condition.
- Text: the summary, context and current-input texts are put into the prompt unescaped, as the source does. No property claims they are well-formed XML.
