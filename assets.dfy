/**
 * The fixed instruction texts both debate screens hand to their agents:
 * the reasoning-depth bundles, the team-mode bundles, the per-depth team
 * lines and the eleven "thinking framework" texts. They are kept as opaque
 * constants; the builders are proved correct with respect to them.
 */
module Assets {

  /** Reasoning depth LOW: eight separate instruction lines. */
  const LowLines: seq<string> := [
    "*** 검색,추론 깊이: LOW ***",
    "1분 이내로 답변할 수 있는 수준의 간단한 조사만 수행합니다.",
    "복잡한 분석이나 다각도 비교는 하지 않습니다.",
    "웹 검색은 최대 1회만 허용하며, 검색 없이 기존 지식으로 답변 가능한 경우 검색을 생략합니다.",
    "결과는 핵심 요점 2개 이내의 불릿으로만 작성하고, 각 불릿은 1줄을 넘지 않습니다.",
    "출처는 반드시 1개만 간단히 제시하며, 없을 경우 '출처 없음'으로 표기합니다.",
    "불확실한 내용은 '추정'으로 표시하고, 추가 조사는 제안하지 않습니다.",
    "모든 출력은 한국어로 간결하게 작성합니다."
  ]

  /** Reasoning depth MID: six instruction lines. */
  const MidLines: seq<string> := [
    "*** 검색,추론 깊이: MID ***",
    "정확성과 속도의 균형을 유지합니다. 핵심 쟁점을 정리하고 필요 시 3~5개 출처를 탐색합니다.",
    "상반된 정보가 있을 때는 간단 비교(2~4줄) 후 합리적 결론을 제시합니다.",
    "결과 구조: 요약(3~5줄) → 근거(불릿 3~6개) → 간단한 리스크/대안(불릿 1~3개) → 참고출처(2~3개, 최신순)",
    "수치/날짜 등은 가능한 한 명시적으로 제시합니다.",
    "모든 출력은 한국어로 명확하고 읽기 쉽게 작성하세요."
  ]

  /** Reasoning depth HIGH (the default): six instruction lines. */
  const HighLines: seq<string> := [
    "*** 검색,추론 깊이: HIGH ***",
    "철저한 검증과 포괄적 탐색을 수행합니다. 상이한 관점과 최신 동향을 교차 확인합니다.",
    "6~10개 내외의 신뢰도 높은 출처를 검토하고, 핵심/반대 근거를 구분해 제시합니다.",
    "결과 구조: 실행요약(5~8줄) → 상세 분석(섹션별로 정리) → 가정/제약 → 리스크/완화전략 → 권고안 → 참고출처(정확한 표기, 최신성 우선)",
    "수치, 방법론, 한계를 명시하고, 데이터 출처의 신뢰성과 업데이트 날짜를 강조합니다.",
    "모든 출력은 한국어로 전문적이고 체계적으로 작성하세요."
  ]

  /** Team mode in which the leader splits the work and merges the results. */
  const CoordinateLines: seq<string> := [
    "리더는 문제를 하위 과업으로 분해하고 각 에이전트의 전문성에 맞게 역할을 배정합니다.",
    "각 에이전트는 배정된 과업을 독립적으로 수행하고, 결과를 간결한 요약(핵심 3~5개 불릿)과 근거/출처와 함께 제출합니다.",
    "에이전트 간 직접 토론은 최소화하고, 필요한 경우 리더의 요청에만 응답해 보완합니다.",
    "리더는 모든 산출물을 통합하여 최종 보고서를 작성합니다: 실행요약 → 세부결과(에이전트별 섹션) → 리스크/대안 → 결론.",
    "수치·날짜·출처는 명시적으로 기재하고, 최신성과 신뢰도를 확인합니다.",
    "모든 사고과정 및 내용은 한국어로 작성합니다."
  ]

  /** Team mode in which the agents argue it out and write a joint conclusion. */
  const DebateLines: seq<string> := [
    "각 에이전트는 자신의 역할 관점에서 1차 입장을 제시합니다(핵심 주장/근거/우려).",
    "상반된 주장이 있을 경우, 최대 3라운드까지 반박·재반박을 수행하되, 매 라운드마다 합의 가능 지점을 식별합니다.",
    "합의가 어려운 항목은 가정/전제 차이를 명시하고, 트레이드오프에 대한 절충안을 제시합니다.",
    "최종 단계에서 팀은 공동 결론을 작성합니다: 실행요약(5~8줄) → 합의사항 → 이견/가정 → 권고안 → 후속 액션.",
    "수치·날짜·출처는 명시적으로 기재하고, 최신성과 신뢰도를 확인합니다.",
    "모든 사고과정 및 내용은 한국어로 작성합니다."
  ]

  /** The one team line added for the low depth. */
  const LowDepthLine: string := "간략하고 핵심적인 정보만을 바탕으로 답변합니다. 불필요한 세부사항은 생략하며, 2~3문장 내에서 결론 위주로 작성하세요."

  /** The one team line added for the medium depth. */
  const MidDepthLine: string := "핵심 정보와 필수적인 배경 설명을 포함하여 답변합니다. 결론은 명확히 하고, 필요 시 간단한 예시나 비교를 덧붙입니다."

  /** The one team line added for the deep depth. */
  const HighDepthLine: string := "가능한 모든 세부 정보와 근거를 포함하여 심층적으로 분석합니다. 다양한 관점과 예시를 포함하고, 관련 통계나 데이터가 있으면 함께 제시하세요."

  /** The keys of the framework table, in declaration order. */
  const FrameworkKeys: seq<string> := ["none", "gi", "mda", "cc", "pr", "is", "ia", "te", "cs", "il", "iw"]

  const FrameworkGi: string :=
    "\n## 1. 천재적 통찰 도출 공식 (Genius Insight Formula)\nGI = (O × C × P × S) / (A + B)\n- GI(Genius Insight) = 천재적 통찰\n- O(Observation) = 관찰의 깊이 (1-10점)\n- C(Connection) = 연결의 독창성 (1-10점)\n- P(Pattern) = 패턴 인식 능력 (1-10점)\n- S(Synthesis) = 종합적 사고 (1-10점)\n- A(Assumption) = 고정관념 수준 (1-10점)\n- B(Bias) = 편향 정도 (1-10점)\n적용법: 주제에 대해 각 요소의 점수를 매기고, 고정관념과 편향을 최소화하면서 관찰-연결-패턴-종합의 순서로 사고를 전개하세요.\n"

  const FrameworkMda: string :=
    "\n## 2. 다차원적 분석 프레임워크\nMDA = Σ[Di × Wi × Ii] (i=1 to n)\n- MDA(Multi-Dimensional Analysis) = 다차원 분석 결과\n- Di(Dimension i) = i번째 차원에서의 통찰\n- Wi(Weight i) = i번째 차원의 가중치\n- Ii(Impact i) = i번째 차원의 영향력\n분석 차원 설정:\n- D1 = 시간적 차원 (과거-현재-미래)\n- D2 = 공간적 차원 (로컬-글로벌-우주적)\n- D3 = 추상적 차원 (구체-중간-추상)\n- D4 = 인과적 차원 (원인-과정-결과)\n- D5 = 계층적 차원 (미시-중간-거시)\n"

  const FrameworkCc: string :=
    "\n## 3. 창의적 연결 매트릭스\nCC = |A ∩ B| + |A ⊕ B| + f(A→B)\n- CC(Creative Connection) = 창의적 연결 지수\n- A ∩ B = 두 개념의 공통 요소\n- A ⊕ B = 배타적 차이 요소\n- f(A→B) = A에서 B로의 전이 함수\n연결 탐색 프로세스:\n1. 직접적 연결 찾기\n2. 간접적 연결 탐색\n3. 역설적 연결 발견\n4. 메타포적 연결 구성\n5. 시스템적 연결 분석\n"

  const FrameworkPr: string :=
    "\n## 4. 문제 재정의 알고리즘\nPR = P₀ × T(θ) × S(φ) × M(ψ)\n- PR(Problem Redefinition) = 재정의된 문제\n- P₀ = 원래 문제\n- T(θ) = θ각도만큼 관점 회전\n- S(φ) = φ비율로 범위 조정\n- M(ψ) = ψ차원으로 메타 레벨 이동\n재정의 기법:\n- 반대 관점에서 보기 (θ = 180°)\n- 확대/축소하여 보기 (φ = 0.1x ~ 10x)\n- 상위/하위 개념으로 이동 (ψ = ±1,±2,±3)\n- 다른 도메인으로 전환\n- 시간 축 변경\n"

  const FrameworkIs: string :=
    "\n## 5. 혁신적 솔루션 생성 공식\nIS = Σ[Ci × Ni × Fi × Vi] / Ri\n- IS(Innovative Solution) = 혁신적 솔루션\n- Ci(Combination i) = i번째 조합 방식\n- Ni(Novelty i) = 참신성 지수\n- Fi(Feasibility i) = 실현 가능성\n- Vi(Value i) = 가치 창출 정도\n- Ri(Risk i) = 위험 요소\n솔루션 생성 방법:\n- 기존 요소들의 새로운 조합\n- 전혀 다른 분야의 솔루션 차용\n- 제약 조건을 오히려 활용\n- 역방향 사고로 접근\n- 시스템 전체 재설계\n"

  const FrameworkIa: string :=
    "\n## 6. 인사이트 증폭 공식\nIA = I₀ × (1 + r)ⁿ × C × Q\n- IA(Insight Amplification) = 증폭된 인사이트\n- I₀ = 초기 인사이트\n- r = 반복 개선율\n- n = 반복 횟수\n- C = 협력 효과 (1-3배수)\n- Q = 질문의 질 (1-5배수)\n증폭 전략:\n- 'Why'를 5번 이상 반복\n- 'What if' 시나리오 구성\n- 'How might we' 질문 생성\n- 다양한 관점자와 토론\n- 아날로그 사례 탐구\n"

  const FrameworkTe: string :=
    "\n## 7. 사고의 진화 방정식\nTE = T₀ + ∫[L(t) + E(t) + R(t)]dt\n- TE(Thinking Evolution) = 진화된 사고\n- T₀ = 초기 사고 상태\n- L(t) = 시간 t에서의 학습 함수\n- E(t) = 경험 축적 함수\n- R(t) = 반성적 사고 함수\n진화 촉진 요인:\n- 지속적 학습과 정보 습득\n- 다양한 경험과 실험\n- 깊은 반성과 메타인지\n- 타인과의 지적 교류\n- 실패로부터의 학습\n"

  const FrameworkCs: string :=
    "\n## 8. 복잡성 해결 매트릭스\nCS = det|M| × Σ[Si/Ci] × ∏[Ii]\n- CS(Complexity Solution) = 복잡성 해결책\n- det|M| = 시스템 매트릭스의 행렬식\n- Si = i번째 하위 시스템 해결책\n- Ci = i번째 하위 시스템 복잡도\n- Ii = 상호작용 계수\n복잡성 분해 전략:\n- 시스템을 하위 구성요소로 분해\n- 각 구성요소 간 관계 매핑\n- 핵심 레버리지 포인트 식별\n- 순차적/병렬적 해결 순서 결정\n- 전체 시스템 최적화\n"

  const FrameworkIl: string :=
    "\n## 9. 직관적 도약 공식\nIL = (S × E × T) / (L × R)\n- IL(Intuitive Leap) = 직관적 도약\n- S(Silence) = 정적 사고 시간\n- E(Experience) = 관련 경험 축적\n- T(Trust) = 직관에 대한 신뢰\n- L(Logic) = 논리적 제약\n- R(Rationalization) = 과도한 합리화\n직관 활성화 방법:\n- 의식적 사고 중단\n- 몸과 마음의 이완\n- 무의식적 연결 허용\n- 첫 번째 떠오르는 아이디어 포착\n- 판단 없이 수용\n"

  const FrameworkIw: string :=
    "\n## 10. 통합적 지혜 공식\nIW = (K + U + W + C + A) × H × E\n- IW(Integrated Wisdom) = 통합적 지혜\n- K(Knowledge) = 지식의 폭과 깊이\n- U(Understanding) = 이해의 수준\n- W(Wisdom) = 지혜의 깊이\n- C(Compassion) = 공감과 연민\n- A(Action) = 실행 능력\n- H(Humility) = 겸손함\n- E(Ethics) = 윤리적 기준\n"

  /** The framework table: key to framework text (empty for "none"). */
  const FrameworksText: map<string, string> := map[
    "none" := "",
    "gi" := FrameworkGi,
    "mda" := FrameworkMda,
    "cc" := FrameworkCc,
    "pr" := FrameworkPr,
    "is" := FrameworkIs,
    "ia" := FrameworkIa,
    "te" := FrameworkTe,
    "cs" := FrameworkCs,
    "il" := FrameworkIl,
    "iw" := FrameworkIw
  ]
}
