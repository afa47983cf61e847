/**
 * `services/geminiService.ts`: the three calls to the hosted model. Each is split into
 * the request it sends (model id, contents, generation config) and the handling of the
 * reply it gets back. The network call is not modelled: its outcome arrives as a `Reply`,
 * and `JSON.parse` arrives as a `JsonParser`.
 */
module GeminiService {
  import opened Wrappers
  import opened JsStrings
  import opened Json
  import opened Types

  const VisionModel := "gemini-2.5-flash-image"
  const ReasoningModel := "gemini-3-pro-preview"
  const JsonMimeType := "application/json"
  /** The default of `parseProblemStatement`'s `mimeType` parameter. */
  const DefaultMimeType := "image/png"

  const NoResponseMessage := "No response from AI"
  const InvalidJsonMessage := "AI returned invalid JSON format. Please try again or provide a clearer image."
  const TestsNoResponseMessage := "Failed to generate tests"
  const InvalidFormatMessage := "Invalid response format from AI"
  const HuntNoResponseMessage := "Failed to hunt bug"

  /** What `ai.models.generateContent` delivers: a rejection, or a response whose `text` may be empty (`""` also stands for `undefined`). */
  datatype Reply = TransportError | Response(text: string)

  /** Why a service call rejects. */
  datatype ServiceError =
    | TransportFailure        // the call to the model rejected; passed on unchanged
    | Raised(message: string) // an `Error` thrown by this file with this message
    | SyntaxError             // `JSON.parse` threw, outside any `try`
    | TypeError               // a property of `null` was read, outside any `try`

  // ---- Requests ------------------------------------------------------------

  /** The two instruction texts that open a parse request; their wording is not modelled. */
  datatype Instruction =
    | StrictJsonTemplate  // image path: "OUTPUT STRICT JSON ONLY ..." followed by a JSON template
    | MatchSchema         // text path: "Return the result in JSON format matching the schema."

  datatype Part =
    | InstructionPart(instruction: Instruction)
    | TextPart(text: string)
    | InlineData(mimeType: string, data: string)

  /** A response schema, reduced to its top-level property names and its `required` list. */
  datatype ResponseSchema = ResponseSchema(properties: seq<string>, required: seq<string>)

  const ProblemSpecSchema := ResponseSchema(
    ["title", "summary", "timeLimit", "memoryLimit", "inputFormat", "outputFormat",
     "variables", "constraints", "edgeCasesAnalysis", "confidence", "logicCheck"],
    ["title", "summary", "inputFormat", "outputFormat", "variables", "constraints", "confidence"])
  const TestCasesSchema := ResponseSchema(["testCases"], ["testCases"])
  const BugHuntSchema := ResponseSchema(
    ["input", "expectedOutput", "actualOutput", "analysis"],
    ["input", "expectedOutput", "actualOutput", "analysis"])

  datatype GenerationConfig = GenerationConfig(
    responseMimeType: Option<string>,
    responseSchema: Option<ResponseSchema>,
    thinkingBudget: Option<int>)

  const NoConfig := GenerationConfig(None, None, None)

  /** What is sent as `contents`: parts for a parse, a prompt built from these values otherwise. */
  datatype Contents =
    | Parts(parts: seq<Part>)
    | TestsPrompt(spec: ProblemSpec, strategy: TestStrategy, count: int)
    | HuntPrompt(spec: ProblemSpec, suspectCode: string)

  datatype Request = Request(model: string, contents: Contents, config: GenerationConfig)

  /** `if (imageBase64)`: an image counts only when it is present and not empty. */
  predicate HasImage(imageBase64: Option<string>) {
    imageBase64.Some? && imageBase64.value != ""
  }

  /** The model a parse request goes to: the vision model exactly when an image is given. */
  function ModelFor(imageBase64: Option<string>): (model: string)
    ensures model == VisionModel <==> HasImage(imageBase64)
    ensures model == ReasoningModel <==> !HasImage(imageBase64)
  {
    if HasImage(imageBase64) then VisionModel else ReasoningModel
  }

  /**
   * The parts of a parse request, in order: the instruction, the problem text when it is
   * not empty, the inline image when there is one.
   */
  predicate PartsShape(parts: seq<Part>, text: string, imageBase64: Option<string>, mimeType: string) {
    && |parts| == 1 + (if text != "" then 1 else 0) + (if HasImage(imageBase64) then 1 else 0)
    && parts[0] == InstructionPart(if HasImage(imageBase64) then StrictJsonTemplate else MatchSchema)
    && (text != "" ==> parts[1] == TextPart("Problem Text:\n" + text))
    && (HasImage(imageBase64) ==> parts[|parts| - 1] == InlineData(mimeType, imageBase64.value))
  }

  /** The parts of a parse request, pushed one after the other. */
  method BuildParts(text: string, imageBase64: Option<string>, mimeType: string) returns (parts: seq<Part>)
    ensures PartsShape(parts, text, imageBase64, mimeType)
  {
    var instruction := if HasImage(imageBase64) then StrictJsonTemplate else MatchSchema;
    parts := [InstructionPart(instruction)];
    if text != "" {
      parts := parts + [TextPart("Problem Text:\n" + text)];
    }
    if HasImage(imageBase64) {
      parts := parts + [InlineData(mimeType, imageBase64.value)];
    }
  }

  /** JSON output, the schema and a thinking budget of 1024 are asked for on the reasoning model only. */
  predicate ParseConfigFor(model: string, config: GenerationConfig) {
    if model == ReasoningModel then
      config == GenerationConfig(Some(JsonMimeType), Some(ProblemSpecSchema), Some(1024))
    else
      config == NoConfig
  }

  /** The generation config of a parse request, filled in field by field. */
  method BuildConfig(model: string) returns (config: GenerationConfig)
    ensures ParseConfigFor(model, config)
  {
    config := NoConfig;
    if model == ReasoningModel {
      config := config.(responseMimeType := Some(JsonMimeType));
      config := config.(responseSchema := Some(ProblemSpecSchema));
      config := config.(thinkingBudget := Some(1024));
    }
  }

  /** Without an image the request is schema-constrained; with one it is not constrained at all. */
  lemma SchemaOnlyWithoutImage(imageBase64: Option<string>, config: GenerationConfig)
    requires ParseConfigFor(ModelFor(imageBase64), config)
    ensures config.responseSchema.Some? <==> !HasImage(imageBase64)
    ensures config.responseMimeType.Some? <==> !HasImage(imageBase64)
    ensures config.thinkingBudget.Some? <==> !HasImage(imageBase64)
  {
  }

  /** The request `generateSmartTestCase` sends: always the reasoning model, a batch schema and a budget of 2048. */
  function TestsRequest(spec: ProblemSpec, strategy: TestStrategy, count: int): Request {
    Request(ReasoningModel, TestsPrompt(spec, strategy, count),
            GenerationConfig(Some(JsonMimeType), Some(TestCasesSchema), Some(2048)))
  }

  /** The request `huntBug` sends: always the reasoning model, the bug-hunt schema and a budget of 2048. */
  function HuntRequest(spec: ProblemSpec, suspectCode: string): Request {
    Request(ReasoningModel, HuntPrompt(spec, suspectCode),
            GenerationConfig(Some(JsonMimeType), Some(BugHuntSchema), Some(2048)))
  }

  // ---- Fence stripping -----------------------------------------------------

  const Fence := "```"

  /** The four texts `/^```(json)?\n?/` can match. */
  predicate IsOpeningFence(t: string) {
    t in {"```", "```json", "```\n", "```json\n"}
  }

  /**
   * The length of the text `/^```(json)?\n?/` matches at the start of a fenced string:
   * both optional parts are greedy, so the match is the longest opening fence `s` starts with.
   */
  function OpeningFenceLength(s: string): (k: nat)
    requires StartsWith(s, Fence)
    ensures k <= |s| && IsOpeningFence(s[..k])
    ensures forall j :: k < j <= |s| ==> !IsOpeningFence(s[..j])
  {
    assert s[..3] == "```";
    if StartsWith(s[3..], "json") then
      assert s[..7] == s[..3] + s[3..][..4] == "```json";
      if 7 < |s| && s[7] == '\n' then
        assert s[..8] == s[..7] + [s[7]] == "```json\n";
        NoLongerFence(s, 8);
        8
      else
        NoLongerFence(s, 7);
        7
    else if 3 < |s| && s[3] == '\n' then
      assert s[..4] == s[..3] + [s[3]] == "```\n";
      NoLongerFence(s, 4);
      4
    else
      NoLongerFence(s, 3);
      3
  }

  /** Helper of OpeningFenceLength: what each opening fence looks like past its first three characters. */
  lemma OpeningFenceShape(t: string)
    requires IsOpeningFence(t)
    ensures |t| == 3 || |t| == 4 || |t| == 7 || |t| == 8
    ensures |t| == 4 ==> t[3] == '\n'
    ensures |t| >= 7 ==> t[3..7] == "json"
    ensures |t| == 8 ==> t[7] == '\n'
  {
  }

  /** Helper of OpeningFenceLength: the optional parts that did not match rule out every longer fence. */
  lemma NoLongerFence(s: string, k: nat)
    requires k == 3 || k == 4 || k == 7 || k == 8
    requires k <= |s|
    requires k < 7 ==> !StartsWith(s[3..], "json")
    requires k == 3 ==> !(3 < |s| && s[3] == '\n')
    requires k == 7 ==> !(7 < |s| && s[7] == '\n')
    ensures forall j :: k < j <= |s| ==> !IsOpeningFence(s[..j])
  {
    forall j | k < j <= |s| ensures !IsOpeningFence(s[..j]) {
      if IsOpeningFence(s[..j]) {
        OpeningFenceShape(s[..j]);
      }
    }
  }

  /**
   * `s.replace(/^```(json)?\n?/, '')`: an opening fence, then `json` and a newline whenever
   * they follow; what is removed is the longest opening fence `s` starts with.
   */
  function StripLeadingFence(s: string): (r: string)
    ensures |r| <= |s| && r == s[|s| - |r|..]
    ensures StartsWith(s, Fence) ==> IsOpeningFence(s[..|s| - |r|])
    ensures StartsWith(s, Fence) ==> forall j :: |s| - |r| < j <= |s| ==> !IsOpeningFence(s[..j])
    ensures !StartsWith(s, Fence) ==> r == s
  {
    if !StartsWith(s, Fence) then s else s[OpeningFenceLength(s)..]
  }

  /** `s.replace(/```$/, '')`: a closing fence at the very end. */
  function StripTrailingFence(s: string): (r: string)
    ensures EndsWith(s, Fence) ==> r + Fence == s
    ensures !EndsWith(s, Fence) ==> r == s
  {
    if EndsWith(s, Fence) then s[..|s| - 3] else s
  }

  /**
   * The `jsonStr` cleanup of `parseProblemStatement`, after trimming: text that opens with a
   * fence loses its longest opening fence, then one closing fence if one is left at the end.
   */
  function FenceStripped(s: string): (r: string)
    ensures !StartsWith(s, Fence) ==> r == s
    ensures StartsWith(s, Fence) ==> var t := StripLeadingFence(s);
                                     && (EndsWith(t, Fence) ==> r + Fence == t)
                                     && (!EndsWith(t, Fence) ==> r == t)
    ensures |r| <= |s|
  {
    if StartsWith(s, Fence) then StripTrailingFence(StripLeadingFence(s)) else s
  }

  /** A fenced payload tagged `json` comes back out whole, whatever it contains. */
  lemma FenceRoundTripJson(payload: string)
    ensures FenceStripped("```json\n" + payload + "```") == payload
  {
    var s := "```json\n" + payload + "```";
    assert s[..3] == Fence && s[3..][..4] == "json" && s[7] == '\n';
    assert s[8..] == payload + "```";
  }

  /** A fenced payload without a tag comes back out whole, whatever it contains. */
  lemma FenceRoundTripPlain(payload: string)
    ensures FenceStripped("```\n" + payload + "```") == payload
  {
    var s := "```\n" + payload + "```";
    assert s[..3] == Fence && s[3] == '\n';
    assert !StartsWith(s[3..], "json");
    assert s[4..] == payload + "```";
  }

  /**
   * The text handed to `JSON.parse` on the parse path: the trimmed reply, passed on
   * unchanged unless it opens with a fence, and never longer than the reply.
   */
  function CleanedReply(text: string): (r: string)
    ensures !StartsWith(Trim(text), Fence) ==> r == Trim(text)
    ensures StartsWith(Trim(text), Fence) ==> var t := Trim(text);
              exists k :: 0 <= k <= |t| && IsOpeningFence(t[..k]) && (r == t[k..] || r + Fence == t[k..])
    ensures |r| <= |text|
  {
    FencedCleanup(Trim(text));
    FenceStripped(Trim(text))
  }

  /** Helper of CleanedReply: a fenced text loses an opening fence and possibly one closing fence. */
  lemma FencedCleanup(t: string)
    ensures StartsWith(t, Fence) ==>
              exists k :: 0 <= k <= |t| && IsOpeningFence(t[..k]) && (FenceStripped(t) == t[k..] || FenceStripped(t) + Fence == t[k..])
  {
    if StartsWith(t, Fence) {
      var k := |t| - |StripLeadingFence(t)|;
      assert StripLeadingFence(t) == t[k..];
      assert IsOpeningFence(t[..k]);
    }
  }

  // ---- Sanitising the parsed specification ---------------------------------

  /**
   * The properties of the parsed value once its fields are assigned: an object's own
   * fields; an array has no named ones; on `null` and on primitives the assignment
   * throws a `TypeError` (module code is strict), which the `catch` turns into the
   * invalid-JSON error.
   */
  function AssignableFields(v: JsonValue): (r: Option<map<string, JsonValue>>)
    ensures r.Some? <==> v.JObject? || v.JArray?
    ensures v.JObject? ==> r == Some(v.fields)
    ensures v.JArray? ==> r == Some(map[])
  {
    match v
    case JObject(m) => Some(m)
    case JArray(_) => Some(map[])
    case _ => None
  }

  /** The member `confidence` names, if it is a string equal to one of the enum's values. */
  function ConfidenceIn(m: map<string, JsonValue>): (r: Option<ConfidenceLevel>)
    ensures r.Some? <==> "confidence" in m && m["confidence"].JString? && ConfidenceFromValue(m["confidence"].s).Some?
    ensures r.Some? ==> m["confidence"] == JString(r.value.Value())
  {
    if "confidence" in m && m["confidence"].JString? then ConfidenceFromValue(m["confidence"].s) else None
  }

  /** `Array.isArray(parsed[key]) ? parsed[key] : []`. */
  function ArrayOrEmpty(m: map<string, JsonValue>, key: string): (r: JsonValue)
    ensures r.JArray?
    ensures key in m && m[key].JArray? ==> r == m[key]
    ensures !(key in m && m[key].JArray?) ==> r == JArray([])
  {
    if key in m && m[key].JArray? then m[key] else JArray([])
  }

  /** The fields sanitising may write. */
  const SanitizedKeys: set<string> := {"variables", "constraints", "edgeCasesAnalysis", "confidence"}

  /** What a ProblemSpec consumer may rely on: the three lists are arrays and `confidence` is a member. */
  predicate IsSanitized(m: map<string, JsonValue>) {
    && "variables" in m && m["variables"].JArray?
    && "constraints" in m && m["constraints"].JArray?
    && "edgeCasesAnalysis" in m && m["edgeCasesAnalysis"].JArray?
    && ConfidenceIn(m).Some?
  }

  /** The parsed object after the four sanitising statements. */
  function Sanitized(m: map<string, JsonValue>): (r: map<string, JsonValue>)
    ensures IsSanitized(r)
    ensures r.Keys == m.Keys + SanitizedKeys
    ensures forall k :: k in m && k !in SanitizedKeys ==> r[k] == m[k]
    ensures r["variables"] == ArrayOrEmpty(m, "variables")
    ensures r["constraints"] == ArrayOrEmpty(m, "constraints")
    ensures r["edgeCasesAnalysis"] == ArrayOrEmpty(m, "edgeCasesAnalysis")
    ensures ConfidenceIn(m).Some? ==> r["confidence"] == m["confidence"]
    ensures ConfidenceIn(m).None? ==> r["confidence"] == JString(Low.Value())
  {
    var withArrays := m["variables" := ArrayOrEmpty(m, "variables")]
                       ["constraints" := ArrayOrEmpty(m, "constraints")]
                       ["edgeCasesAnalysis" := ArrayOrEmpty(m, "edgeCasesAnalysis")];
    if ConfidenceIn(m).Some? then withArrays else withArrays["confidence" := JString(Low.Value())]
  }

  /** Sanitising an already sanitised object changes nothing. */
  lemma SanitizedIsIdentityOnSanitized(m: map<string, JsonValue>)
    requires IsSanitized(m)
    ensures Sanitized(m) == m
  {
  }

  /** Sanitising twice is sanitising once. */
  lemma SanitizedIdempotent(m: map<string, JsonValue>)
    ensures Sanitized(Sanitized(m)) == Sanitized(m)
  {
    SanitizedIsIdentityOnSanitized(Sanitized(m));
  }

  /** A list element read as text: a string, or `""` for anything else. */
  function TextItem(v: JsonValue): (t: string)
    ensures v == JString(t) || (t == "" && !v.JString?)
  {
    if v.JString? then v.s else ""
  }

  /** A `variables` item read as a `VariableSpec`: each of its four fields read as text. */
  function VariableOf(v: JsonValue): (spec: VariableSpec)
    ensures ReadsAsText(v, "name", spec.name) && ReadsAsText(v, "type", spec.typeName)
    ensures ReadsAsText(v, "description", spec.description) && ReadsAsText(v, "constraints", spec.constraints)
  {
    VariableSpec(TextAt(v, "name"), TextAt(v, "type"), TextAt(v, "description"), TextAt(v, "constraints"))
  }

  /** `parsed as ProblemSpec`: the typed reading of a sanitised object. */
  function SpecOf(m: map<string, JsonValue>): (spec: ProblemSpec)
    requires IsSanitized(m)
    ensures |spec.variables| == |m["variables"].items|
    ensures |spec.constraints| == |m["constraints"].items|
    ensures |spec.edgeCasesAnalysis| == |m["edgeCasesAnalysis"].items|
    ensures forall i :: 0 <= i < |spec.variables| ==> spec.variables[i] == VariableOf(m["variables"].items[i])
    ensures forall i :: 0 <= i < |spec.constraints| ==> spec.constraints[i] == TextItem(m["constraints"].items[i])
    ensures forall i :: 0 <= i < |spec.edgeCasesAnalysis| ==>
              spec.edgeCasesAnalysis[i] == TextItem(m["edgeCasesAnalysis"].items[i])
    ensures m["confidence"] == JString(spec.confidence.Value())
    ensures var o := JObject(m);
            && ReadsAsText(o, "title", spec.title) && ReadsAsText(o, "summary", spec.summary)
            && ReadsAsText(o, "timeLimit", spec.timeLimit) && ReadsAsText(o, "memoryLimit", spec.memoryLimit)
            && ReadsAsText(o, "inputFormat", spec.inputFormat) && ReadsAsText(o, "outputFormat", spec.outputFormat)
            && ReadsAsText(o, "logicCheck", spec.logicCheck)
  {
    var o := JObject(m);
    var vars := m["variables"].items;
    var cons := m["constraints"].items;
    var edges := m["edgeCasesAnalysis"].items;
    ProblemSpec(
      TextAt(o, "title"), TextAt(o, "summary"), TextAt(o, "timeLimit"), TextAt(o, "memoryLimit"),
      TextAt(o, "inputFormat"), TextAt(o, "outputFormat"),
      seq(|vars|, i requires 0 <= i < |vars| => VariableOf(vars[i])),
      seq(|cons|, i requires 0 <= i < |cons| => TextItem(cons[i])),
      seq(|edges|, i requires 0 <= i < |edges| => TextItem(edges[i])),
      ConfidenceIn(m).value,
      TextAt(o, "logicCheck"))
  }

  /** What `parseProblemStatement` resolves or rejects with, given the reply and the parser. */
  function ParseReply(reply: Reply, parse: JsonParser): (r: Result<ProblemSpec, ServiceError>)
    ensures reply.TransportError? ==> r == Err(TransportFailure)
    ensures reply == Response("") ==> r == Err(Raised(NoResponseMessage))
    ensures r.Err? ==> r.error in {TransportFailure, Raised(NoResponseMessage), Raised(InvalidJsonMessage)}
    ensures r.Ok? <==> && reply.Response? && reply.text != ""
                       && parse(CleanedReply(reply.text)).Some?
                       && AssignableFields(parse(CleanedReply(reply.text)).value).Some?
    ensures r.Ok? ==> r.value == SpecOf(Sanitized(AssignableFields(parse(CleanedReply(reply.text)).value).value))
  {
    match reply
    case TransportError => Err(TransportFailure)
    case Response(text) =>
      if text == "" then Err(Raised(NoResponseMessage))
      else
        match parse(CleanedReply(text))
        case None => Err(Raised(InvalidJsonMessage))
        case Some(v) =>
          match AssignableFields(v)
          case None => Err(Raised(InvalidJsonMessage))
          case Some(m) => Ok(SpecOf(Sanitized(m)))
  }

  /** A reply that is a well-formed specification object is taken over field for field. */
  lemma ParseKeepsWellFormedSpec(reply: Reply, parse: JsonParser, m: map<string, JsonValue>)
    requires reply.Response? && reply.text != ""
    requires parse(CleanedReply(reply.text)) == Some(JObject(m))
    requires IsSanitized(m)
    ensures ParseReply(reply, parse) == Ok(SpecOf(m))
  {
    SanitizedIsIdentityOnSanitized(m);
  }

  /**
   * What `parseProblemStatement` resolves with for a reply object `m`: each list is the
   * field's items, read in order, when it was an array and empty otherwise; the confidence
   * is the one `m` names when it is a member and LOW otherwise; the text fields are read from `m`.
   */
  lemma ParsedStatementSanitized(reply: Reply, parse: JsonParser, m: map<string, JsonValue>)
    requires reply.Response? && reply.text != ""
    requires parse(CleanedReply(reply.text)) == Some(JObject(m))
    ensures ParseReply(reply, parse) == Ok(SpecOf(Sanitized(m)))
    ensures var spec := ParseReply(reply, parse).value;
            && |spec.variables| == (if "variables" in m && m["variables"].JArray? then |m["variables"].items| else 0)
            && |spec.constraints| == (if "constraints" in m && m["constraints"].JArray? then |m["constraints"].items| else 0)
            && |spec.edgeCasesAnalysis| ==
                 (if "edgeCasesAnalysis" in m && m["edgeCasesAnalysis"].JArray? then |m["edgeCasesAnalysis"].items| else 0)
            && spec.confidence == (if ConfidenceIn(m).Some? then ConfidenceIn(m).value else Low)
            && ReadsAsText(JObject(m), "title", spec.title) && ReadsAsText(JObject(m), "summary", spec.summary)
            && ReadsAsText(JObject(m), "inputFormat", spec.inputFormat)
            && ReadsAsText(JObject(m), "outputFormat", spec.outputFormat)
            && ReadsAsText(JObject(m), "timeLimit", spec.timeLimit)
            && ReadsAsText(JObject(m), "memoryLimit", spec.memoryLimit)
            && ReadsAsText(JObject(m), "logicCheck", spec.logicCheck)
    ensures var spec := ParseReply(reply, parse).value;
            && ("variables" in m && m["variables"].JArray? ==>
                  forall i :: 0 <= i < |spec.variables| ==> spec.variables[i] == VariableOf(m["variables"].items[i]))
            && ("constraints" in m && m["constraints"].JArray? ==>
                  forall i :: 0 <= i < |spec.constraints| ==> spec.constraints[i] == TextItem(m["constraints"].items[i]))
            && ("edgeCasesAnalysis" in m && m["edgeCasesAnalysis"].JArray? ==>
                  forall i :: 0 <= i < |spec.edgeCasesAnalysis| ==>
                    spec.edgeCasesAnalysis[i] == TextItem(m["edgeCasesAnalysis"].items[i]))
  {
    SanitizedListLengths(m);
    SanitizedConfidence(m);
    SanitizedTexts(m);
    SanitizedLimits(m);
    SanitizedContents(m);
  }

  /** Helper of ParsedStatementSanitized: lists that were arrays keep their items, in order. */
  lemma SanitizedContents(m: map<string, JsonValue>)
    ensures var spec := SpecOf(Sanitized(m));
            && ("variables" in m && m["variables"].JArray? ==>
                  forall i :: 0 <= i < |spec.variables| ==> spec.variables[i] == VariableOf(m["variables"].items[i]))
            && ("constraints" in m && m["constraints"].JArray? ==>
                  forall i :: 0 <= i < |spec.constraints| ==> spec.constraints[i] == TextItem(m["constraints"].items[i]))
            && ("edgeCasesAnalysis" in m && m["edgeCasesAnalysis"].JArray? ==>
                  forall i :: 0 <= i < |spec.edgeCasesAnalysis| ==>
                    spec.edgeCasesAnalysis[i] == TextItem(m["edgeCasesAnalysis"].items[i]))
  {
  }

  /** Helper of ParsedStatementSanitized: the limits and the logic check are read from the reply object. */
  lemma SanitizedLimits(m: map<string, JsonValue>)
    ensures var spec := SpecOf(Sanitized(m));
            && ReadsAsText(JObject(m), "timeLimit", spec.timeLimit)
            && ReadsAsText(JObject(m), "memoryLimit", spec.memoryLimit)
            && ReadsAsText(JObject(m), "logicCheck", spec.logicCheck)
  {
    var s := Sanitized(m);
    assert Get(JObject(s), "timeLimit") == Get(JObject(m), "timeLimit");
    assert Get(JObject(s), "memoryLimit") == Get(JObject(m), "memoryLimit");
    assert Get(JObject(s), "logicCheck") == Get(JObject(m), "logicCheck");
  }

  /** Helper of ParsedStatementSanitized: the three list lengths. */
  lemma SanitizedListLengths(m: map<string, JsonValue>)
    ensures var spec := SpecOf(Sanitized(m));
            && |spec.variables| == (if "variables" in m && m["variables"].JArray? then |m["variables"].items| else 0)
            && |spec.constraints| == (if "constraints" in m && m["constraints"].JArray? then |m["constraints"].items| else 0)
            && |spec.edgeCasesAnalysis| ==
                 (if "edgeCasesAnalysis" in m && m["edgeCasesAnalysis"].JArray? then |m["edgeCasesAnalysis"].items| else 0)
  {
  }

  /** Helper of ParsedStatementSanitized: the confidence is kept when valid and LOW otherwise. */
  lemma SanitizedConfidence(m: map<string, JsonValue>)
    ensures SpecOf(Sanitized(m)).confidence == (if ConfidenceIn(m).Some? then ConfidenceIn(m).value else Low)
  {
    var c := SpecOf(Sanitized(m)).confidence;
    var expected := if ConfidenceIn(m).Some? then ConfidenceIn(m).value else Low;
    assert Sanitized(m)["confidence"] == JString(expected.Value());
    ConfidenceValuesDistinct(c, expected);
  }

  /** Helper of ParsedStatementSanitized: the text fields are read from the reply object. */
  lemma SanitizedTexts(m: map<string, JsonValue>)
    ensures var spec := SpecOf(Sanitized(m));
            && ReadsAsText(JObject(m), "title", spec.title) && ReadsAsText(JObject(m), "summary", spec.summary)
            && ReadsAsText(JObject(m), "inputFormat", spec.inputFormat)
            && ReadsAsText(JObject(m), "outputFormat", spec.outputFormat)
  {
    var s := Sanitized(m);
    assert Get(JObject(s), "title") == Get(JObject(m), "title");
    assert Get(JObject(s), "summary") == Get(JObject(m), "summary");
    assert Get(JObject(s), "inputFormat") == Get(JObject(m), "inputFormat");
    assert Get(JObject(s), "outputFormat") == Get(JObject(m), "outputFormat");
  }

  /** The four sanitising statements of `parseProblemStatement`, applied to the parsed object in place. */
  method Sanitize(fields: map<string, JsonValue>) returns (obj: map<string, JsonValue>)
    ensures obj == Sanitized(fields)
  {
    obj := fields;
    obj := obj["variables" := ArrayOrEmpty(obj, "variables")];
    obj := obj["constraints" := ArrayOrEmpty(obj, "constraints")];
    obj := obj["edgeCasesAnalysis" := ArrayOrEmpty(obj, "edgeCasesAnalysis")];
    assert ConfidenceIn(obj) == ConfidenceIn(fields);
    if ConfidenceIn(obj).None? {
      obj := obj["confidence" := JString(Low.Value())];
    }
  }

  /** The `let jsonStr` cleanup: trimmed, then both fences removed when it opens with one. */
  method CleanReplyText(text: string) returns (jsonStr: string)
    ensures jsonStr == CleanedReply(text)
    ensures !StartsWith(Trim(text), Fence) ==> jsonStr == Trim(text)
    ensures |jsonStr| <= |text|
  {
    jsonStr := Trim(text);
    if StartsWith(jsonStr, Fence) {
      jsonStr := StripLeadingFence(jsonStr);
      jsonStr := StripTrailingFence(jsonStr);
    }
  }

  /** The reply handling of `parseProblemStatement`, after the call returns. */
  method HandleParseReply(reply: Reply, parse: JsonParser) returns (result: Result<ProblemSpec, ServiceError>)
    ensures result == ParseReply(reply, parse)
  {
    if reply.TransportError? {
      return Err(TransportFailure);
    }
    if reply.text == "" {
      return Err(Raised(NoResponseMessage));
    }
    var jsonStr := CleanReplyText(reply.text);
    var parsed := parse(jsonStr);
    if parsed.None? || AssignableFields(parsed.value).None? {
      return Err(Raised(InvalidJsonMessage));
    }
    var obj := Sanitize(AssignableFields(parsed.value).value);
    result := Ok(SpecOf(obj));
  }

  /**
   * `parseProblemStatement(text, imageBase64, mimeType)`: the request it sends and the
   * outcome it settles with.
   */
  method ParseProblemStatement(text: string, imageBase64: Option<string>, mimeType: Option<string>,
                               reply: Reply, parse: JsonParser)
    returns (request: Request, result: Result<ProblemSpec, ServiceError>)
    ensures request.model == ModelFor(imageBase64)
    ensures request.contents.Parts?
    ensures PartsShape(request.contents.parts, text, imageBase64, mimeType.GetOr(DefaultMimeType))
    ensures ParseConfigFor(request.model, request.config)
    ensures result == ParseReply(reply, parse)
  {
    var modelId := ModelFor(imageBase64);
    var parts := BuildParts(text, imageBase64, mimeType.GetOr(DefaultMimeType));
    var config := BuildConfig(modelId);
    request := Request(modelId, Parts(parts), config);
    result := HandleParseReply(reply, parse);
  }

  // ---- Test generation -----------------------------------------------------

  /** `data.testCases` when it is an array (`!data.testCases || !Array.isArray(...)` rejects everything else). */
  function TestCaseItems(data: JsonValue): (r: Option<seq<JsonValue>>)
    ensures r.Some? <==> IsArrayAt(data, "testCases")
    ensures r.Some? ==> data.fields["testCases"] == JArray(r.value)
  {
    if IsArrayAt(data, "testCases") then Some(data.fields["testCases"].items) else None
  }

  /**
   * `data.testCases.map(tc => ({ id: crypto.randomUUID(), strategy, ..., generatedAt: Date.now() }))`.
   * The identifiers and clock readings the i-th element receives are `newId(i)` and `clock(i)`.
   * Reading `tc.input` of a `null` element throws.
   */
  function MapTestCases(items: seq<JsonValue>, strategy: TestStrategy, newId: nat -> string, clock: nat -> int)
    : (r: Result<seq<TestCase>, ServiceError>)
    ensures r.Err? <==> JNull in items
    ensures r.Err? ==> r.error == TypeError
    ensures r.Ok? ==> |r.value| == |items|
    ensures r.Ok? ==> forall i :: 0 <= i < |items| ==>
      && r.value[i].strategy == strategy
      && r.value[i].input == TextAt(items[i], "input")
      && r.value[i].expectedOutput == TextAt(items[i], "expectedOutput")
      && r.value[i].explanation == TextAt(items[i], "explanation")
      && r.value[i].id == newId(i)
      && r.value[i].generatedAt == clock(i)
  {
    if JNull in items then Err(TypeError)
    else
      Ok(seq(|items|, i requires 0 <= i < |items| =>
        TestCase(newId(i), strategy, TextAt(items[i], "input"), TextAt(items[i], "expectedOutput"),
                 TextAt(items[i], "explanation"), clock(i))))
  }

  /** Distinct identifiers from the id source give a batch of distinct ids. */
  lemma BatchIdsDistinct(items: seq<JsonValue>, strategy: TestStrategy, newId: nat -> string, clock: nat -> int)
    requires forall i: nat, j: nat :: i != j ==> newId(i) != newId(j)
    requires MapTestCases(items, strategy, newId, clock).Ok?
    ensures var cases := MapTestCases(items, strategy, newId, clock).value;
            forall i, j :: 0 <= i < j < |cases| ==> cases[i].id != cases[j].id
  {
  }

  /** What `generateSmartTestCase` resolves or rejects with. The reply goes to the parser untrimmed and unstripped. */
  function TestCasesReply(reply: Reply, parse: JsonParser, strategy: TestStrategy, newId: nat -> string, clock: nat -> int)
    : (r: Result<seq<TestCase>, ServiceError>)
    ensures reply.TransportError? ==> r == Err(TransportFailure)
    ensures reply == Response("") ==> r == Err(Raised(TestsNoResponseMessage))
    ensures reply.Response? && reply.text != "" && parse(reply.text).None? ==> r == Err(SyntaxError)
    ensures reply.Response? && reply.text != "" && parse(reply.text) == Some(JNull) ==> r == Err(TypeError)
    ensures (&& reply.Response? && reply.text != "" && parse(reply.text).Some? && parse(reply.text).value != JNull
             && TestCaseItems(parse(reply.text).value).None?) ==> r == Err(Raised(InvalidFormatMessage))
    ensures (&& reply.Response? && reply.text != "" && parse(reply.text).Some?
             && TestCaseItems(parse(reply.text).value).Some?)
            ==> r == MapTestCases(TestCaseItems(parse(reply.text).value).value, strategy, newId, clock)
    ensures r.Ok? ==> && reply.Response? && reply.text != "" && parse(reply.text).Some?
                      && TestCaseItems(parse(reply.text).value).Some?
  {
    match reply
    case TransportError => Err(TransportFailure)
    case Response(text) =>
      if text == "" then Err(Raised(TestsNoResponseMessage))
      else
        match parse(text)
        case None => Err(SyntaxError)
        case Some(data) =>
          if data == JNull then Err(TypeError)
          else
            match TestCaseItems(data)
            case None => Err(Raised(InvalidFormatMessage))
            case Some(items) => MapTestCases(items, strategy, newId, clock)
  }

  /**
   * A reply whose `testCases` is an array of n objects resolves to exactly n cases, in
   * order, all under the requested strategy, each carrying its item's three text fields
   * and the i-th fresh id and clock reading. The reply may hold other keys as well.
   */
  lemma TestBatchShape(reply: Reply, parse: JsonParser, strategy: TestStrategy, newId: nat -> string, clock: nat -> int,
                       data: JsonValue, items: seq<JsonValue>)
    requires reply.Response? && reply.text != ""
    requires parse(reply.text) == Some(data) && IsArrayAt(data, "testCases") && data.fields["testCases"] == JArray(items)
    requires forall i :: 0 <= i < |items| ==> items[i].JObject?
    ensures TestCasesReply(reply, parse, strategy, newId, clock).Ok?
    ensures var cases := TestCasesReply(reply, parse, strategy, newId, clock).value;
            && |cases| == |items|
            && forall i :: 0 <= i < |cases| ==>
                 && cases[i].strategy == strategy
                 && ReadsAsText(items[i], "input", cases[i].input)
                 && ReadsAsText(items[i], "expectedOutput", cases[i].expectedOutput)
                 && ReadsAsText(items[i], "explanation", cases[i].explanation)
                 && cases[i].id == newId(i) && cases[i].generatedAt == clock(i)
  {
    assert JNull !in items by {
      forall i | 0 <= i < |items| ensures items[i] != JNull {
        assert items[i].JObject?;
      }
    }
    assert TestCaseItems(data) == Some(items);
  }

  /**
   * `generateSmartTestCase(spec, strategy, count)`: the request it sends (always the
   * reasoning model, JSON output under the batch schema, a thinking budget of 2048) and
   * the outcome it settles with.
   */
  method GenerateSmartTestCase(spec: ProblemSpec, strategy: TestStrategy, count: int,
                               reply: Reply, parse: JsonParser, newId: nat -> string, clock: nat -> int)
    returns (request: Request, result: Result<seq<TestCase>, ServiceError>)
    ensures request.model == ReasoningModel
    ensures request.contents == TestsPrompt(spec, strategy, count)
    ensures request.config == GenerationConfig(Some(JsonMimeType), Some(TestCasesSchema), Some(2048))
    ensures result == TestCasesReply(reply, parse, strategy, newId, clock)
  {
    request := TestsRequest(spec, strategy, count);
    if reply.TransportError? {
      return request, Err(TransportFailure);
    }
    if reply.text == "" {
      return request, Err(Raised(TestsNoResponseMessage));
    }
    var data := parse(reply.text);
    if data.None? {
      return request, Err(SyntaxError);
    }
    if data.value == JNull {
      return request, Err(TypeError);
    }
    if !IsArrayAt(data.value, "testCases") {
      return request, Err(Raised(InvalidFormatMessage));
    }
    result := MapTestCases(data.value.fields["testCases"].items, strategy, newId, clock);
  }

  // ---- Bug hunting -----------------------------------------------------------

  /** `parsed as BugHuntResult`: each of the four fields is the reply's text under that key. */
  function BugHuntOf(v: JsonValue): (r: BugHuntResult)
    ensures ReadsAsText(v, "input", r.input) && ReadsAsText(v, "expectedOutput", r.expectedOutput)
    ensures ReadsAsText(v, "actualOutput", r.actualOutput) && ReadsAsText(v, "analysis", r.analysis)
  {
    BugHuntResult(TextAt(v, "input"), TextAt(v, "expectedOutput"), TextAt(v, "actualOutput"), TextAt(v, "analysis"))
  }

  /**
   * What `huntBug` resolves or rejects with: the parsed reply, unchecked (`None` when the
   * reply is JSON `null`, which the caller then stores as "no result").
   */
  function BugHuntReply(reply: Reply, parse: JsonParser): (r: Result<Option<BugHuntResult>, ServiceError>)
    ensures reply.TransportError? ==> r == Err(TransportFailure)
    ensures reply == Response("") ==> r == Err(Raised(HuntNoResponseMessage))
    ensures r.Ok? <==> reply.Response? && reply.text != "" && parse(reply.text).Some?
    ensures r.Ok? ==> (r.value.None? <==> parse(reply.text) == Some(JNull))
    ensures r.Err? && reply.Response? && reply.text != "" ==> r.error == SyntaxError
    ensures r.Ok? && r.value.Some? ==> r.value.value == BugHuntOf(parse(reply.text).value)
  {
    match reply
    case TransportError => Err(TransportFailure)
    case Response(text) =>
      if text == "" then Err(Raised(HuntNoResponseMessage))
      else
        match parse(text)
        case None => Err(SyntaxError)
        case Some(v) => if v == JNull then Ok(None) else Ok(Some(BugHuntOf(v)))
  }

  /** The four string fields of the parsed reply are passed through verbatim, whatever else it holds. */
  lemma BugHuntVerbatim(reply: Reply, parse: JsonParser, v: JsonValue,
                        input: string, expected: string, actual: string, analysis: string)
    requires reply.Response? && reply.text != "" && parse(reply.text) == Some(v)
    requires Get(v, "input") == Some(JString(input)) && Get(v, "expectedOutput") == Some(JString(expected))
    requires Get(v, "actualOutput") == Some(JString(actual)) && Get(v, "analysis") == Some(JString(analysis))
    ensures BugHuntReply(reply, parse) == Ok(Some(BugHuntResult(input, expected, actual, analysis)))
  {
  }

  /**
   * `huntBug(spec, suspectCode)`: the request it sends (always the reasoning model, JSON
   * output under the bug-hunt schema, a thinking budget of 2048) and the outcome it settles with.
   */
  method HuntBug(spec: ProblemSpec, suspectCode: string, reply: Reply, parse: JsonParser)
    returns (request: Request, result: Result<Option<BugHuntResult>, ServiceError>)
    ensures request.model == ReasoningModel
    ensures request.contents == HuntPrompt(spec, suspectCode)
    ensures request.config == GenerationConfig(Some(JsonMimeType), Some(BugHuntSchema), Some(2048))
    ensures result == BugHuntReply(reply, parse)
  {
    request := HuntRequest(spec, suspectCode);
    if reply.TransportError? {
      return request, Err(TransportFailure);
    }
    if reply.text == "" {
      return request, Err(Raised(HuntNoResponseMessage));
    }
    var parsed := parse(reply.text);
    if parsed.None? {
      return request, Err(SyntaxError);
    }
    result := if parsed.value == JNull then Ok(None) else Ok(Some(BugHuntOf(parsed.value)));
  }

  /** A reply fenced with a `json` tag reaches the parser as its payload, whatever it contains. */
  lemma FencedJsonReplyCleaned(payload: string)
    ensures CleanedReply("```json\n" + payload + "```") == payload
  {
    var text := "```json\n" + payload + "```";
    assert text[0] == '`' && text[|text| - 1] == '`';
    assert Trim(text) == text;
    FenceRoundTripJson(payload);
  }

  /**
   * Only the parse path strips fences: a reply the parser rejects as it stands but accepts
   * once cleaned (as `FencedJsonReplyCleaned` shows any fenced one to be) is accepted by
   * `parseProblemStatement` and rejected by the two other calls.
   */
  lemma FencesStrippedOnlyWhenParsing(text: string, parse: JsonParser, strategy: TestStrategy,
                                      newId: nat -> string, clock: nat -> int)
    requires text != "" && parse(text).None?
    requires parse(CleanedReply(text)).Some? && parse(CleanedReply(text)).value.JObject?
    ensures ParseReply(Response(text), parse).Ok?
    ensures TestCasesReply(Response(text), parse, strategy, newId, clock) == Err(SyntaxError)
    ensures BugHuntReply(Response(text), parse) == Err(SyntaxError)
  {
  }
}
