/** The enumerations and records of `types.ts`. */
module Types {
  import opened Wrappers

  /** `ConfidenceLevel`: the model's self-rating of a parsed statement. */
  datatype ConfidenceLevel = High | Medium | Low {
    /** The enum member's string value. */
    function Value(): string {
      match this
      case High => "Cao"
      case Medium => "Trung Bình"
      case Low => "Thấp"
    }
  }

  /** `Object.values(ConfidenceLevel)`, in declaration order. */
  const AllConfidenceLevels: seq<ConfidenceLevel> := [High, Medium, Low]

  /** `Object.values(ConfidenceLevel).includes(s)`, answered with the member that has value `s`. */
  function ConfidenceFromValue(s: string): (r: Option<ConfidenceLevel>)
    ensures r.Some? ==> r.value.Value() == s
    ensures r.None? ==> forall c: ConfidenceLevel :: c.Value() != s
  {
    if s == High.Value() then Some(High)
    else if s == Medium.Value() then Some(Medium)
    else if s == Low.Value() then Some(Low)
    else None
  }

  /** The three values are pairwise distinct, so every value names exactly one member. */
  lemma ConfidenceValuesDistinct(c: ConfidenceLevel, d: ConfidenceLevel)
    ensures c.Value() == d.Value() <==> c == d
    ensures ConfidenceFromValue(c.Value()) == Some(c)
  {
  }

  /** `TestStrategy`: the seven strategies a batch of tests can be generated under. */
  datatype TestStrategy =
    | Small
    | MaxConstraints
    | EdgeCase
    | Overflow
    | CornerCase
    | RandomUniform
    | AntiGreedy
  {
    /** The enum member's string value (a display label). */
    function Value(): string {
      match this
      case Small => "Test Nhỏ / Cơ Bản"
      case MaxConstraints => "Giới Hạn Lớn Nhất (Max)"
      case EdgeCase => "Test Biên (Min/Max)"
      case Overflow => "Test Tràn Số (Overflow)"
      case CornerCase => "Test Đặc Biệt (0, 1, -1)"
      case RandomUniform => "Ngẫu Nhiên (Uniform)"
      case AntiGreedy => "Phá Giải Thuật Tham Lam"
    }
  }

  /** `Object.values(TestStrategy)`, in declaration order: the options of the strategy picker. */
  const AllStrategies: seq<TestStrategy> :=
    [Small, MaxConstraints, EdgeCase, Overflow, CornerCase, RandomUniform, AntiGreedy]

  /** Every strategy is listed, and two strategies have the same value only if they are the same. */
  lemma StrategyValuesDistinct(t: TestStrategy, u: TestStrategy)
    ensures |AllStrategies| == 7 && t in AllStrategies
    ensures t.Value() == u.Value() <==> t == u
  {
    // Four lengths are unique; the three values of length 23 differ in their first character.
    assert |Small.Value()| == 17 && |EdgeCase.Value()| == 19;
    assert |CornerCase.Value()| == 24 && |RandomUniform.Value()| == 20;
    assert |MaxConstraints.Value()| == |Overflow.Value()| == |AntiGreedy.Value()| == 23;
    assert MaxConstraints.Value()[0] == 'G' && Overflow.Value()[0] == 'T' && AntiGreedy.Value()[0] == 'P';
    match t
    case Small => case MaxConstraints => case EdgeCase => case Overflow =>
    case CornerCase => case RandomUniform => case AntiGreedy =>
  }

  /** `VariableSpec` (its `type` field is `typeName` here, `type` being a Dafny keyword). */
  datatype VariableSpec = VariableSpec(name: string, typeName: string, description: string, constraints: string)

  /** `ProblemSpec`: the structured reading of a problem statement. */
  datatype ProblemSpec = ProblemSpec(
    title: string,
    summary: string,
    timeLimit: string,
    memoryLimit: string,
    inputFormat: string,
    outputFormat: string,
    variables: seq<VariableSpec>,
    constraints: seq<string>,
    edgeCasesAnalysis: seq<string>,
    confidence: ConfidenceLevel,
    logicCheck: string)

  /** `TestCase`: one generated input with its expected output. `generatedAt` is `Date.now()`. */
  datatype TestCase = TestCase(
    id: string,
    strategy: TestStrategy,
    input: string,
    expectedOutput: string,
    explanation: string,
    generatedAt: int)

  /** `BugHuntResult`: a counter-example against the submitted code. */
  datatype BugHuntResult = BugHuntResult(input: string, expectedOutput: string, actualOutput: string, analysis: string)
}
