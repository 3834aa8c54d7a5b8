/**
 * Building the agent team from the selected team leads, on both screens:
 * each selected lead becomes an agent whose instructions are its
 * personality lines, then the reasoning-depth bundle, then the lines of the
 * thinking framework chosen for it; the team gets the mode instructions.
 * The agents and the team are plain records here; the agent framework
 * that would run them is not part of this model.
 */
module TeamBuilder {
  import opened Text
  import opened Wrappers
  import opened Assets
  import opened Frameworks
  import DebateInstructions
  import MeetingInstructions

  /** A row of the team-lead table. `personality` is the lead's behaviour guide, `focus` its goal. */
  datatype Lead = Lead(id: int, name: string, role: string, personality: string, focus: string)

  /** The arguments an agent is created with. */
  datatype AgentSpec = AgentSpec(name: string, role: string, instructions: seq<string>, goal: string)

  /** The arguments the team is created with. */
  datatype TeamSpec = TeamSpec(mode: string, members: seq<AgentSpec>, instructions: seq<string>)

  /** The role sentence every agent receives: "you are the {role} of a Korean fashion outdoor brand". */
  function RoleSentence(role: string): string {
    "당신은 한국 패션 아웃도어 브랜드의 " + role + " 역할입니다."
  }

  /** The lead-table lookup by name: the first row with that name, if any. */
  function FindLead(leads: seq<Lead>, name: string): (r: Option<Lead>)
    ensures r.None? <==> forall i :: 0 <= i < |leads| ==> leads[i].name != name
    ensures r.Some? ==> r.value in leads && r.value.name == name
    ensures r.Some? ==> exists i :: 0 <= i < |leads| && leads[i] == r.value && (forall j :: 0 <= j < i ==> leads[j].name != name)
  {
    if leads == [] then None
    else if leads[0].name == name then Some(leads[0])
    else
      var r := FindLead(leads[1..], name);
      assert forall i :: 1 <= i < |leads| ==> leads[i] == leads[1..][i - 1];
      r
  }

  /** `personality.splitlines()` when the personality is non-empty, nothing otherwise. */
  function PersonalityLines(personality: string): (lines: seq<string>)
    ensures lines == [] <==> personality == ""
    ensures Join(lines, "\n") == DropFinalNewline(personality)
  {
    JoinSplitLines(personality);
    if personality != "" then SplitLines(personality) else []
  }

  /** An agent's instructions: its personality lines, the depth bundle, its framework lines. */
  function LeadInstructions(personality: string, bundle: seq<string>, key: string, texts: map<string, string>): seq<string> {
    PersonalityLines(personality) + bundle + FrameworkLines(texts, key)
  }

  /**
   * The layout of an agent's instructions: first the personality lines,
   * which join back to the personality; then the depth bundle unchanged;
   * then the framework lines, present exactly when the key is not "none"
   * and names a non-blank framework text, and joining back to that text
   * stripped.
   */
  lemma LeadInstructionsLayout(personality: string, bundle: seq<string>, key: string, texts: map<string, string>)
    ensures var r, p := LeadInstructions(personality, bundle, key, texts), |PersonalityLines(personality)|;
      |r| == p + |bundle| + |FrameworkLines(texts, key)|
      && Join(r[..p], "\n") == DropFinalNewline(personality)
      && r[p..p + |bundle|] == bundle
    ensures var rest := LeadInstructions(personality, bundle, key, texts)[|PersonalityLines(personality)| + |bundle|..];
      (rest == [] <==> key == "none" || IsBlank(Get(texts, key, "")))
      && (rest != [] ==> Join(rest, "\n") == Strip(texts[key]))
  {
    var p, f := PersonalityLines(personality), FrameworkLines(texts, key);
    var r := p + bundle + f;
    assert r[..|p|] == p;
    assert r[|p|..|p| + |bundle|] == bundle;
    assert r[|p| + |bundle|..] == f;
    FrameworkLinesSpec(texts, key);
  }

  /** The same instruction list, extended step by step in the order the screens do it. */
  method ComposeInstructions(personality: string, bundle: seq<string>, key: string, texts: map<string, string>) returns (instructions: seq<string>)
    ensures instructions == LeadInstructions(personality, bundle, key, texts)
  {
    instructions := [];
    if personality != "" {
      instructions := instructions + SplitLines(personality);
    }
    assert instructions == PersonalityLines(personality);
    instructions := instructions + bundle;
    var framework: seq<string> := [];
    if key != "none" {
      var text := Strip(Get(texts, key, ""));
      if text != "" {
        framework := SplitLines(text);
      }
    }
    assert framework == FrameworkLines(texts, key);
    instructions := instructions + framework;
  }

  /** The framework key a lead's agent is given: the entry for its id, "none" when there is none. */
  function FrameworkKeyOf(frameworks: map<int, string>, lead: Lead): string {
    Get(frameworks, lead.id, "none")
  }

  /**
   * The map of framework choices the meeting screen uses: the one stored
   * with the last run if it is present and non-empty, else the session's if
   * present and non-empty, else the empty map.
   */
  function ChooseFrameworks(runConfig: Option<map<int, string>>, session: Option<map<int, string>>): (m: map<int, string>)
    ensures runConfig.Some? && runConfig.value != map[] ==> m == runConfig.value
    ensures !(runConfig.Some? && runConfig.value != map[]) && session.Some? && session.value != map[] ==> m == session.value
    ensures m == map[] <==> (runConfig.None? || runConfig.value == map[]) && (session.None? || session.value == map[])
  {
    if runConfig.Some? && runConfig.value != map[] then runConfig.value
    else if session.Some? && session.value != map[] then session.value
    else map[]
  }

  // ---------------------------------------------------------------------
  // The team-debate screen

  /** The agent the team-debate screen builds for a lead, given the depth bundle. */
  function DebateAgent(lead: Lead, bundle: seq<string>, frameworks: map<int, string>, texts: map<string, string>): AgentSpec {
    AgentSpec(lead.name, RoleSentence(lead.role),
      LeadInstructions(lead.personality, bundle, FrameworkKeyOf(frameworks, lead), texts),
      lead.focus)
  }

  /** The agents for the selected names, in their order; a name without a lead is skipped. */
  function DebateAgents(leads: seq<Lead>, names: seq<string>, bundle: seq<string>, frameworks: map<int, string>, texts: map<string, string>): seq<AgentSpec>
    decreases |names|
  {
    if names == [] then []
    else
      var front := DebateAgents(leads, names[..|names| - 1], bundle, frameworks, texts);
      match FindLead(leads, names[|names| - 1])
      case None => front
      case Some(lead) => front + [DebateAgent(lead, bundle, frameworks, texts)]
  }

  /** The selected names that have a lead, in their order. */
  function NamesWithLead(leads: seq<Lead>, names: seq<string>): (r: seq<string>)
    ensures |r| <= |names|
    ensures forall n :: n in r <==> n in names && FindLead(leads, n).Some?
    decreases |names|
  {
    if names == [] then []
    else
      var front, last := names[..|names| - 1], names[|names| - 1];
      assert names == front + [last];
      var r := NamesWithLead(leads, front);
      if FindLead(leads, last).Some? then r + [last] else r
  }

  function Names(agents: seq<AgentSpec>): (r: seq<string>)
    ensures |r| == |agents| && forall i :: 0 <= i < |agents| ==> r[i] == agents[i].name
  {
    seq(|agents|, i requires 0 <= i < |agents| => agents[i].name)
  }

  /** The team-debate agents are exactly the selected names that have a lead, in order. */
  lemma {:induction false} DebateAgentsNames(leads: seq<Lead>, names: seq<string>, bundle: seq<string>, frameworks: map<int, string>, texts: map<string, string>)
    ensures Names(DebateAgents(leads, names, bundle, frameworks, texts)) == NamesWithLead(leads, names)
    decreases |names|
  {
    if names != [] {
      var front := names[..|names| - 1];
      DebateAgentsNames(leads, front, bundle, frameworks, texts);
      var a := DebateAgents(leads, front, bundle, frameworks, texts);
      match FindLead(leads, names[|names| - 1])
      case None =>
      case Some(lead) =>
        var b := a + [DebateAgent(lead, bundle, frameworks, texts)];
        assert Names(b) == Names(a) + [lead.name];
    }
  }

  /** Each agent is the one built from the lead that carries its name. */
  predicate BuiltFromLeads(agents: seq<AgentSpec>, leads: seq<Lead>, bundle: seq<string>, frameworks: map<int, string>, texts: map<string, string>) {
    forall i :: 0 <= i < |agents| ==>
      FindLead(leads, agents[i].name).Some?
      && agents[i] == DebateAgent(FindLead(leads, agents[i].name).value, bundle, frameworks, texts)
  }

  /** Every team-debate agent is the one built from the lead carrying its name. */
  lemma {:induction false} DebateAgentsFromLeads(leads: seq<Lead>, names: seq<string>, bundle: seq<string>, frameworks: map<int, string>, texts: map<string, string>)
    ensures BuiltFromLeads(DebateAgents(leads, names, bundle, frameworks, texts), leads, bundle, frameworks, texts)
    decreases |names|
  {
    if names != [] {
      var front, last := names[..|names| - 1], names[|names| - 1];
      DebateAgentsFromLeads(leads, front, bundle, frameworks, texts);
      var a := DebateAgents(leads, front, bundle, frameworks, texts);
      match FindLead(leads, last)
      case None =>
        assert DebateAgents(leads, names, bundle, frameworks, texts) == a;
      case Some(lead) =>
        var agent := DebateAgent(lead, bundle, frameworks, texts);
        var b := a + [agent];
        assert DebateAgents(leads, names, bundle, frameworks, texts) == b;
        assert agent.name == last;
        forall i | 0 <= i < |b|
          ensures FindLead(leads, b[i].name).Some? && b[i] == DebateAgent(FindLead(leads, b[i].name).value, bundle, frameworks, texts)
        {
          assert BuiltFromLeads(a, leads, bundle, frameworks, texts);
          if i < |a| {
            assert b[i] == a[i];
          } else {
            assert b[i] == agent;
            assert FindLead(leads, b[i].name) == Some(lead);
          }
        }
    }
  }

  /**
   * `create_team_from_leads` of the team-debate screen: one agent per
   * selected name that has a lead, the "coordinate" mode exactly for the
   * opinion-collecting mode, and the team instructions of mode and depth.
   */
  method BuildDebateTeam(leads: seq<Lead>, selected: seq<string>, mode: string, depth: string, frameworks: map<int, string>)
    returns (team: TeamSpec)
    ensures team.members == DebateAgents(leads, selected, DebateInstructions.DepthInstruction(depth), frameworks, FrameworksText)
    ensures team.mode == DebateInstructions.TeamMode(mode)
    ensures team.instructions == DebateInstructions.TeamModeInstructions(mode, depth)
  {
    var bundle, texts := DebateInstructions.DepthInstruction(depth), FrameworksText;
    var agents: seq<AgentSpec> := [];
    for i := 0 to |selected|
      invariant agents == DebateAgents(leads, selected[..i], bundle, frameworks, texts)
    {
      assert selected[..i + 1][..i] == selected[..i];
      var found := FindLead(leads, selected[i]);
      if found.Some? {
        var lead := found.value;
        var instructions := ComposeInstructions(lead.personality, bundle, FrameworkKeyOf(frameworks, lead), texts);
        agents := agents + [AgentSpec(lead.name, RoleSentence(lead.role), instructions, lead.focus)];
      }
    }
    assert selected[..|selected|] == selected;
    team := TeamSpec(DebateInstructions.TeamMode(mode), agents, DebateInstructions.TeamModeInstructions(mode, depth));
  }

  // ---------------------------------------------------------------------
  // The meeting screen

  /** Every selected name has a lead; the meeting screen fails otherwise. */
  predicate AllHaveLeads(leads: seq<Lead>, names: seq<string>) {
    forall i :: 0 <= i < |names| ==> FindLead(leads, names[i]).Some?
  }

  /** The agent the meeting screen builds for a selected name and its lead. */
  function MeetingAgent(name: string, lead: Lead, bundle: seq<string>, frameworks: map<int, string>, texts: map<string, string>): AgentSpec {
    AgentSpec(name, RoleSentence(lead.role),
      LeadInstructions(lead.personality, bundle, FrameworkKeyOf(frameworks, lead), texts),
      lead.focus)
  }

  /** The meeting agents: one per selected name, in order, each built from that name's lead. */
  function MeetingAgents(leads: seq<Lead>, names: seq<string>, bundle: seq<string>, frameworks: map<int, string>, texts: map<string, string>): (agents: seq<AgentSpec>)
    requires AllHaveLeads(leads, names)
    ensures |agents| == |names|
    ensures forall i :: 0 <= i < |names| ==>
      agents[i] == MeetingAgent(names[i], FindLead(leads, names[i]).value, bundle, frameworks, texts)
  {
    seq(|names|, i requires 0 <= i < |names| =>
      MeetingAgent(names[i], FindLead(leads, names[i]).value, bundle, frameworks, texts))
  }

  /** The meeting agents carry the selected names, in order. */
  lemma MeetingAgentsNames(leads: seq<Lead>, names: seq<string>, bundle: seq<string>, frameworks: map<int, string>, texts: map<string, string>)
    requires AllHaveLeads(leads, names)
    ensures Names(MeetingAgents(leads, names, bundle, frameworks, texts)) == names
  {
  }

  /** One pass of the meeting screen's loop: the agent for a selected name and its lead. */
  method BuildMeetingAgent(name: string, lead: Lead, bundle: seq<string>, frameworks: map<int, string>, texts: map<string, string>)
    returns (agent: AgentSpec)
    ensures agent == MeetingAgent(name, lead, bundle, frameworks, texts)
  {
    var instructions := ComposeInstructions(lead.personality, bundle, FrameworkKeyOf(frameworks, lead), texts);
    agent := AgentSpec(name, RoleSentence(lead.role), instructions, lead.focus);
  }

  /** The loop of the meeting screen's `create_team_from_leads` over the selected names. */
  method BuildMeetingAgents(leads: seq<Lead>, selected: seq<string>, bundle: seq<string>,
                            frameworks: map<int, string>, texts: map<string, string>)
    returns (agents: seq<AgentSpec>)
    requires AllHaveLeads(leads, selected)
    ensures agents == MeetingAgents(leads, selected, bundle, frameworks, texts)
  {
    ghost var all := MeetingAgents(leads, selected, bundle, frameworks, texts);
    agents := [];
    for i := 0 to |selected|
      invariant agents == all[..i]
    {
      var found := FindLead(leads, selected[i]);
      var agent := BuildMeetingAgent(selected[i], found.value, bundle, frameworks, texts);
      PrefixSnoc(all, i);
      agents := agents + [agent];
    }
    assert all[..|selected|] == all;
  }

  /**
   * `create_team_from_leads` of the meeting screen: one agent per selected
   * name, the framework choices taken by `ChooseFrameworks`, the mode passed
   * through as given, and the team instructions of mode and depth.
   */
  method BuildMeetingTeam(leads: seq<Lead>, selected: seq<string>, mode: string, depth: string,
                          runConfig: Option<map<int, string>>, session: Option<map<int, string>>)
    returns (team: TeamSpec)
    requires AllHaveLeads(leads, selected)
    ensures team.members
         == MeetingAgents(leads, selected, MeetingInstructions.DepthInstruction(depth), ChooseFrameworks(runConfig, session), FrameworksText)
    ensures team.mode == mode
    ensures team.instructions == MeetingInstructions.TeamModeInstructions(mode, depth)
  {
    var frameworks := ChooseFrameworks(runConfig, session);
    var agents := BuildMeetingAgents(leads, selected, MeetingInstructions.DepthInstruction(depth), frameworks, FrameworksText);
    team := TeamSpec(mode, agents, MeetingInstructions.TeamModeInstructions(mode, depth));
  }
}
