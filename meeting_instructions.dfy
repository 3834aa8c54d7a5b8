/**
 * The instruction builders of the meeting screen, which names its depths
 * "low" / "mid" / "high" and its team modes "coordinate" / "collaborate".
 * Its MID and HIGH bundles are written without commas between the string
 * literals, so each collapses into a single instruction: the whole bundle
 * glued together without separators.
 */
module MeetingInstructions {
  import opened Assets
  import opened Text
  import opened Wrappers
  import DebateInstructions

  /** The bundle added to every agent; any depth but "low" and "mid" means HIGH. */
  function DepthInstruction(depth: string): (r: seq<string>)
    ensures r == LowLines <==> depth == "low"
    ensures |r| == if depth == "low" then 8 else 1
    ensures depth != "low" ==> r[0] == Concat(if depth == "mid" then MidLines else HighLines)
  {
    if depth == "low" then LowLines
    else if depth == "mid" then [Concat(MidLines)]
    else [Concat(HighLines)]
  }

  /** The team-debate screen's depth name for a meeting depth; unknown depths map to "". */
  function DebateDepth(depth: string): (k: string)
    ensures k in DebateInstructions.TeamDepthLines <==> depth in {"low", "mid", "high"}
  {
    if depth == "low" then DebateInstructions.Low
    else if depth == "mid" then DebateInstructions.Mid
    else if depth == "high" then DebateInstructions.Deep
    else ""
  }

  /** The team-debate screen's mode name for a meeting mode. */
  function DebateMode(mode: string): (k: string)
    ensures k == DebateInstructions.Collect <==> mode == "coordinate"
  {
    if mode == "coordinate" then DebateInstructions.Collect else DebateInstructions.Debate
  }

  /**
   * Both screens carry the same depth text: the meeting screen's LOW bundle
   * is the debate screen's, and its MID and HIGH instructions are the
   * debate screen's bundles concatenated into one line.
   */
  lemma DepthInstructionMatchesDebate(depth: string)
    ensures var debate := DebateInstructions.DepthInstruction(DebateDepth(depth));
      DepthInstruction(depth) == if depth == "low" then debate else [Concat(debate)]
  {
  }

  /** The run-together MID instruction is not the six-line MID bundle. */
  lemma MidBundleCollapsed()
    ensures DepthInstruction("mid") != DebateInstructions.DepthInstruction(DebateInstructions.Mid)
    ensures Concat(DepthInstruction("mid")) == Concat(DebateInstructions.DepthInstruction(DebateInstructions.Mid))
  {
    assert [Concat(MidLines)][1..] == [];
  }

  const TeamDepthLines: map<string, string> :=
    map["low" := LowDepthLine, "mid" := MidDepthLine, "high" := HighDepthLine]

  /** The six lines of the mode ("coordinate" or anything else) and one depth line, "" when unknown. */
  function TeamModeInstructions(mode: string, depth: string): (r: seq<string>)
    ensures |r| == 7
    ensures r[..6] == CoordinateLines <==> mode == "coordinate"
    ensures r[..6] == DebateLines <==> mode != "coordinate"
    ensures r[6] == "" <==> depth !in TeamDepthLines
  {
    var base := if mode == "coordinate" then CoordinateLines else DebateLines;
    var r := base + [Get(TeamDepthLines, depth, "")];
    assert r[..6] == base;
    r
  }

  /** The two screens build the same team instructions once names are translated. */
  lemma TeamModeMatchesDebate(mode: string, depth: string)
    ensures TeamModeInstructions(mode, depth)
         == DebateInstructions.TeamModeInstructions(DebateMode(mode), DebateDepth(depth))
  {
  }
}
