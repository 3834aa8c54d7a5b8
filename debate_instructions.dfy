/**
 * The instruction builders of the team-debate screen, which names its
 * reasoning depths and team modes in Korean: depth "낮음" (low), "보통"
 * (medium), "깊게" (deep); mode "개인의견 취합" (collect individual
 * opinions) or "상호토론" (mutual debate).
 */
module DebateInstructions {
  import opened Assets
  import opened Wrappers

  const Low: string := "낮음"
  const Mid: string := "보통"
  const Deep: string := "깊게"

  /** The mode in which the leader collects the members' separate opinions. */
  const Collect: string := "개인의견 취합"
  /** The other mode; any mode other than `Collect` behaves like this one. */
  const Debate: string := "상호토론"

  /**
   * The bundle added to every agent for a reasoning depth. Only "낮음" and
   * "보통" are recognised; every other text, "깊게" included, falls back to
   * the HIGH bundle.
   */
  function DepthInstruction(depth: string): (r: seq<string>)
    ensures r == LowLines <==> depth == Low
    ensures r == MidLines <==> depth == Mid
    ensures r == HighLines <==> depth != Low && depth != Mid
    ensures |r| == if depth == Low then 8 else 6
  {
    if depth == Low then LowLines
    else if depth == Mid then MidLines
    else HighLines
  }

  /** Every unrecognised depth is treated exactly as "깊게". */
  lemma DepthFallback(depth: string)
    requires depth != Low && depth != Mid
    ensures DepthInstruction(depth) == DepthInstruction(Deep)
  {
  }

  /** The single extra team line per depth; here all three depths are known. */
  const TeamDepthLines: map<string, string> :=
    map[Low := LowDepthLine, Mid := MidDepthLine, Deep := HighDepthLine]

  /**
   * The team-level instructions: the six lines of the chosen mode followed
   * by one depth line, which is empty for a depth the table does not know.
   */
  function TeamModeInstructions(mode: string, depth: string): (r: seq<string>)
    ensures |r| == 7
    ensures r[..6] == CoordinateLines <==> mode == Collect
    ensures r[..6] == DebateLines <==> mode != Collect
    ensures r[6] == "" <==> depth !in TeamDepthLines
    ensures depth in TeamDepthLines ==> r[6] == TeamDepthLines[depth]
  {
    var base := if mode == Collect then CoordinateLines else DebateLines;
    var r := base + [Get(TeamDepthLines, depth, "")];
    assert r[..6] == base;
    r
  }

  /** The mode name the team is run with: "coordinate" exactly for `Collect`. */
  function TeamMode(mode: string): (m: string)
    ensures m == "coordinate" <==> mode == Collect
    ensures m == "collaborate" <==> mode != Collect
  {
    if mode == Collect then "coordinate" else "collaborate"
  }
}
