/**
 * The framework picker of the meeting screen: the eleven labels of the
 * selectbox, the label-to-key table, the tables derived from it, and the
 * framework lines an agent receives for a key.
 */
module Frameworks {
  import opened Assets
  import opened Text
  import opened Wrappers

  /** The label shown for a lead without a framework. */
  const NoneLabel: string := "기본(없음)"

  /** The selectbox options, in display order. */
  const FrameworkLabels: seq<string> := [
    "기본(없음)",
    "천재적 통찰 공식(GI)",
    "다차원 분석(MDA)",
    "창의적 연결 매트릭스",
    "문제 재정의 알고리즘",
    "혁신적 솔루션 생성 공식",
    "인사이트 증폭 공식",
    "사고의 진화 방정식",
    "복잡성 해결 매트릭스",
    "직관적 도약 공식",
    "통합적 지혜 공식"
  ]

  /** The label-to-key table, entry by entry in declaration order. */
  const LabelKeyEntries: seq<(string, string)> := [
    ("기본(없음)", "none"),
    ("천재적 통찰 공식(GI)", "gi"),
    ("다차원 분석(MDA)", "mda"),
    ("창의적 연결 매트릭스", "cc"),
    ("문제 재정의 알고리즘", "pr"),
    ("혁신적 솔루션 생성 공식", "is"),
    ("인사이트 증폭 공식", "ia"),
    ("사고의 진화 방정식", "te"),
    ("복잡성 해결 매트릭스", "cs"),
    ("직관적 도약 공식", "il"),
    ("통합적 지혜 공식", "iw")
  ]

  /** No label occurs twice among the entries. */
  predicate DistinctLabels(entries: seq<(string, string)>) {
    forall i, j :: 0 <= i < j < |entries| ==> entries[i].0 != entries[j].0
  }

  /** No key occurs twice among the entries. */
  predicate DistinctKeys(entries: seq<(string, string)>) {
    forall i, j :: 0 <= i < j < |entries| ==> entries[i].1 != entries[j].1
  }

  /** A dict literal with distinct labels: each label to its key. */
  function Forward(entries: seq<(string, string)>): map<string, string>
    requires DistinctLabels(entries)
  {
    map i | 0 <= i < |entries| :: entries[i].0 := entries[i].1
  }

  /** `{v: k for k, v in d.items()}` for such a dict with distinct keys. */
  function Backward(entries: seq<(string, string)>): map<string, string>
    requires DistinctKeys(entries)
  {
    map i | 0 <= i < |entries| :: entries[i].1 := entries[i].0
  }

  /** `{v: i for i, v in enumerate(d.keys())}`: each label to its position. */
  function Positions(entries: seq<(string, string)>): map<string, int>
    requires DistinctLabels(entries)
  {
    map i | 0 <= i < |entries| :: entries[i].0 := i
  }

  /** Looking up an entry's label in the dict gives that entry's key. */
  lemma ForwardAt(entries: seq<(string, string)>, i: int)
    requires DistinctLabels(entries) && 0 <= i < |entries|
    ensures entries[i].0 in Forward(entries) && Forward(entries)[entries[i].0] == entries[i].1
  {
    assert entries[i].0 in Forward(entries);
  }

  /** Looking up an entry's key in the inverted dict gives that entry's label. */
  lemma BackwardAt(entries: seq<(string, string)>, i: int)
    requires DistinctKeys(entries) && 0 <= i < |entries|
    ensures entries[i].1 in Backward(entries) && Backward(entries)[entries[i].1] == entries[i].0
  {
    assert entries[i].1 in Backward(entries);
  }

  /** Looking up an entry's label among the positions gives its index. */
  lemma PositionsAt(entries: seq<(string, string)>, i: int)
    requires DistinctLabels(entries) && 0 <= i < |entries|
    ensures entries[i].0 in Positions(entries) && Positions(entries)[entries[i].0] == i
  {
    assert entries[i].0 in Positions(entries);
  }

  /** Some entry carries each label of the dict. */
  lemma ForwardWitness(entries: seq<(string, string)>, l: string) returns (i: int)
    requires DistinctLabels(entries) && l in Forward(entries)
    ensures 0 <= i < |entries| && entries[i].0 == l && Forward(entries)[l] == entries[i].1
  {
    i :| 0 <= i < |entries| && entries[i].0 == l;
    ForwardAt(entries, i);
  }

  /** Some entry carries each key of the inverted dict. */
  lemma BackwardWitness(entries: seq<(string, string)>, k: string) returns (i: int)
    requires DistinctKeys(entries) && k in Backward(entries)
    ensures 0 <= i < |entries| && entries[i].1 == k && Backward(entries)[k] == entries[i].0
  {
    i :| 0 <= i < |entries| && entries[i].1 == k;
    BackwardAt(entries, i);
  }

  /** Inverting the dict and looking up a label's key gives the label back. */
  lemma ForwardThenBackward(entries: seq<(string, string)>, l: string)
    requires DistinctLabels(entries) && DistinctKeys(entries)
    requires l in Forward(entries)
    ensures Forward(entries)[l] in Backward(entries) && Backward(entries)[Forward(entries)[l]] == l
  {
    var i := ForwardWitness(entries, l);
    BackwardAt(entries, i);
  }

  /** Looking up the label of a key in the dict gives the key back. */
  lemma BackwardThenForward(entries: seq<(string, string)>, k: string)
    requires DistinctLabels(entries) && DistinctKeys(entries)
    requires k in Backward(entries)
    ensures Backward(entries)[k] in Forward(entries) && Forward(entries)[Backward(entries)[k]] == k
  {
    var i := BackwardWitness(entries, k);
    ForwardAt(entries, i);
  }

  /** Each label sits at its recorded position, and the positions cover exactly the labels. */
  lemma PositionsLocate(entries: seq<(string, string)>)
    requires DistinctLabels(entries)
    ensures Positions(entries).Keys == Forward(entries).Keys
    ensures forall l :: l in Positions(entries) ==>
      0 <= Positions(entries)[l] < |entries| && entries[Positions(entries)[l]].0 == l
  {
    var p := Positions(entries);
    forall l | l in p
      ensures 0 <= p[l] < |entries| && entries[p[l]].0 == l
    {
      var i :| 0 <= i < |entries| && entries[i].0 == l;
      PositionsAt(entries, i);
    }
  }

  /** `LABEL_TO_KEY`: each label to its framework key. */
  const LabelToKey: map<string, string> := Forward(LabelKeyEntries)

  /** The inverse table built by the settings panel, framework key to label. */
  const KeyToLabel: map<string, string> := Backward(LabelKeyEntries)

  /**
   * `KEY_TO_INDEX`: it enumerates the keys of the label-to-key table, which
   * are labels, so despite its name it maps each LABEL to its position.
   */
  const KeyToIndex: map<string, int> := Positions(LabelKeyEntries)

  /** The table lists exactly the selectbox labels, in display order, against the framework keys in their order. */
  lemma EntriesFollowLabels()
    ensures |LabelKeyEntries| == |FrameworkLabels| == |FrameworkKeys| == 11
    ensures forall i :: 0 <= i < 11 ==> LabelKeyEntries[i] == (FrameworkLabels[i], FrameworkKeys[i])
  {
  }

  lemma LabelsDistinct()
    ensures DistinctLabels(LabelKeyEntries)
  {
  }

  lemma KeysDistinct()
    ensures DistinctKeys(LabelKeyEntries)
  {
  }

  lemma FrameworkKeysListed()
    ensures FrameworksText.Keys == set k | k in FrameworkKeys
  {
  }

  /** Each of the eleven labels maps to the framework key at the same position. */
  lemma LabelToKeyAt()
    ensures forall i :: 0 <= i < |FrameworkLabels| ==>
      FrameworkLabels[i] in LabelToKey && LabelToKey[FrameworkLabels[i]] == FrameworkKeys[i]
  {
    EntriesFollowLabels();
    LabelsDistinct();
    forall i | 0 <= i < |FrameworkLabels|
      ensures FrameworkLabels[i] in LabelToKey && LabelToKey[FrameworkLabels[i]] == FrameworkKeys[i]
    {
      ForwardAt(LabelKeyEntries, i);
    }
  }

  /** The label-to-key table holds exactly the eleven labels. */
  lemma LabelToKeyDomain()
    ensures LabelToKey.Keys == set l | l in FrameworkLabels
  {
    EntriesFollowLabels();
    LabelsDistinct();
    LabelToKeyAt();
    forall l | l in LabelToKey ensures l in FrameworkLabels {
      var i := ForwardWitness(LabelKeyEntries, l);
      assert FrameworkLabels[i] == l;
    }
  }

  /** The label-to-key table reaches exactly the keys of the framework table. */
  lemma LabelToKeyRange()
    ensures LabelToKey.Values == FrameworksText.Keys
  {
    EntriesFollowLabels();
    LabelsDistinct();
    LabelToKeyAt();
    FrameworkKeysListed();
    forall k | k in LabelToKey.Values ensures k in FrameworkKeys {
      var l :| l in LabelToKey && LabelToKey[l] == k;
      var i := ForwardWitness(LabelKeyEntries, l);
      assert FrameworkKeys[i] == k;
    }
    forall k | k in FrameworkKeys ensures k in LabelToKey.Values {
      var i :| 0 <= i < |FrameworkKeys| && FrameworkKeys[i] == k;
      assert LabelToKey[FrameworkLabels[i]] == k;
    }
  }

  /** No two labels share a key. */
  lemma LabelToKeyInjective(l1: string, l2: string)
    requires l1 in LabelToKey && l2 in LabelToKey && LabelToKey[l1] == LabelToKey[l2]
    ensures l1 == l2
  {
    LabelsDistinct();
    KeysDistinct();
    ForwardThenBackward(LabelKeyEntries, l1);
    ForwardThenBackward(LabelKeyEntries, l2);
  }

  /** The label of a label's key is that label. */
  lemma KeyToLabelInverse(l: string)
    requires l in LabelToKey
    ensures LabelToKey[l] in KeyToLabel && KeyToLabel[LabelToKey[l]] == l
  {
    LabelsDistinct();
    KeysDistinct();
    ForwardThenBackward(LabelKeyEntries, l);
  }

  /** The key of a key's label is that key. */
  lemma LabelToKeyInverse(k: string)
    requires k in KeyToLabel
    ensures KeyToLabel[k] in LabelToKey && LabelToKey[KeyToLabel[k]] == k
  {
    LabelsDistinct();
    KeysDistinct();
    BackwardThenForward(LabelKeyEntries, k);
  }

  /** Exactly the framework keys have a label. */
  lemma KeyToLabelDomain(k: string)
    ensures k in KeyToLabel <==> k in FrameworksText
  {
    LabelToKeyRange();
    if k in KeyToLabel {
      LabelToKeyInverse(k);
      assert k in LabelToKey.Values;
    }
    if k in FrameworksText {
      var l :| l in LabelToKey && LabelToKey[l] == k;
      KeyToLabelInverse(l);
    }
  }

  /** `KEY_TO_INDEX` places each of its entries at that label's own position among the options. */
  lemma KeyToIndexAt(l: string)
    requires l in KeyToIndex
    ensures 0 <= KeyToIndex[l] < |FrameworkLabels| && FrameworkLabels[KeyToIndex[l]] == l
  {
    LabelsDistinct();
    EntriesFollowLabels();
    PositionsLocate(LabelKeyEntries);
  }

  /** No framework key is spelled like a label. */
  lemma KeysAreNotLabels()
    ensures forall i, j :: 0 <= i < |FrameworkKeys| && 0 <= j < |FrameworkLabels| ==> FrameworkKeys[i] != FrameworkLabels[j]
  {
  }

  /** `KEY_TO_INDEX` is keyed by the labels, so no framework key is one of its entries. */
  lemma KeyToIndexDomain(x: string)
    ensures x in KeyToIndex <==> x in FrameworkLabels
    ensures x in FrameworksText ==> x !in KeyToIndex
  {
    LabelsDistinct();
    PositionsLocate(LabelKeyEntries);
    LabelToKeyDomain();
    if x in FrameworksText {
      FrameworkKeysListed();
      KeysAreNotLabels();
    }
  }

  /** The label offered for a key sits at its `KEY_TO_INDEX` position. */
  lemma KeyToIndexOfLabel(k: string)
    requires k in KeyToLabel
    ensures KeyToLabel[k] in KeyToIndex && FrameworkLabels[KeyToIndex[KeyToLabel[k]]] == KeyToLabel[k]
  {
    LabelToKeyInverse(k);
    LabelToKeyDomain();
    KeyToIndexDomain(KeyToLabel[k]);
    KeyToIndexAt(KeyToLabel[k]);
  }

  /**
   * The lines a framework key adds to an agent's instructions, looked up in
   * a framework table: none for "none", for a key the table lacks or for a
   * blank text; otherwise the lines of the stripped text.
   */
  function FrameworkLines(texts: map<string, string>, key: string): seq<string> {
    if key == "none" then []
    else
      var text := Strip(Get(texts, key, ""));
      if text == "" then [] else SplitLines(text)
  }

  /**
   * A key contributes lines exactly when it is not "none" and its text is
   * not blank; the lines then join back to the stripped text and hold no
   * line break.
   */
  lemma FrameworkLinesSpec(texts: map<string, string>, key: string)
    ensures var lines := FrameworkLines(texts, key);
      (lines == [] <==> key == "none" || IsBlank(Get(texts, key, "")))
      && (lines != [] ==> Join(lines, "\n") == Strip(texts[key]))
      && (forall i :: 0 <= i < |lines| ==> !HasNewline(lines[i]))
  {
    if key != "none" {
      var text := Strip(Get(texts, key, ""));
      if text != "" {
        JoinSplitLines(text);
        assert text[|text| - 1] != '\n';
      }
    }
  }

  /** Every label has a framework key, whose label it is. */
  lemma KeyOfLabel(l: string)
    requires l in FrameworkLabels
    ensures l in LabelToKey && LabelToKey[l] in FrameworksText
    ensures LabelToKey[l] in KeyToLabel && KeyToLabel[LabelToKey[l]] == l
  {
    LabelToKeyDomain();
    LabelToKeyRange();
    KeyToLabelInverse(l);
    assert LabelToKey[l] in LabelToKey.Values;
  }

  /** The framework key stored for a lead id; a lead without an entry reads as "none". */
  function CurrentKey(choices: map<int, string>, id: int): string {
    Get(choices, id, "none")
  }

  /**
   * The label the settings panel preselects: the label of the stored key,
   * or the "none" label when the key has none.
   */
  function CurrentLabel(choices: map<int, string>, id: int): (option: string)
    ensures option in FrameworkLabels
    ensures CurrentKey(choices, id) in FrameworksText ==>
      option in LabelToKey && LabelToKey[option] == CurrentKey(choices, id)
    ensures CurrentKey(choices, id) !in FrameworksText ==> option == NoneLabel
  {
    var key := CurrentKey(choices, id);
    KeyToLabelDomain(key);
    LabelToKeyDomain();
    if key in KeyToLabel then
      LabelToKeyInverse(key);
      KeyToLabel[key]
    else
      NoneLabel
  }

  /** `FRAMEWORK_LABELS.index(current_label)`: the option the selectbox starts on. */
  function PreselectedIndex(choices: map<int, string>, id: int): (i: nat)
    ensures i < |FrameworkLabels| && FrameworkLabels[i] == CurrentLabel(choices, id)
  {
    Find(FrameworkLabels, CurrentLabel(choices, id))
  }

  /** The key of the option the user leaves selected. */
  function SelectedKey(option: string): (key: string)
    requires option in FrameworkLabels
    ensures key in FrameworksText
    ensures key in KeyToLabel && KeyToLabel[key] == option
  {
    KeyOfLabel(option);
    LabelToKey[option]
  }

  /**
   * Leaving the preselected option as it is selects the stored key again;
   * a key the table does not know is normalised to "none".
   */
  lemma {:induction false} KeepSelection(choices: map<int, string>, id: int)
    ensures SelectedKey(FrameworkLabels[PreselectedIndex(choices, id)])
         == if CurrentKey(choices, id) in FrameworksText then CurrentKey(choices, id) else "none"
  {
    if CurrentKey(choices, id) !in FrameworksText {
      LabelToKeyAt();
      assert FrameworkLabels[0] == NoneLabel;
    }
  }

  /** The settings after storing a key for one lead id: that lead reads the key, every other lead reads what it did. */
  function Saved(choices: map<int, string>, id: int, key: string): (m: map<int, string>)
    ensures m.Keys == choices.Keys + {id}
    ensures CurrentKey(m, id) == key
    ensures forall other :: other != id ==> CurrentKey(m, other) == CurrentKey(choices, other)
  {
    choices[id := key]
  }

  /** The per-lead framework choices of the meeting screen, keyed by lead id. */
  class FrameworkSettings {
    var choices: map<int, string>

    constructor()
      ensures choices == map[]
    {
      choices := map[];
    }

    /** The key an agent built for lead `id` receives. */
    function Current(id: int): (key: string)
      reads this
      ensures id in choices ==> key == choices[id]
      ensures id !in choices ==> key == "none"
    {
      CurrentKey(choices, id)
    }

    /** Saving the settings panel: the selected label's key is stored under the lead's id. */
    method Save(id: int, option: string)
      requires option in FrameworkLabels
      modifies this
      ensures choices == Saved(old(choices), id, SelectedKey(option))
    {
      choices := choices[id := SelectedKey(option)];
    }
  }
}
