/**
 * `App.tsx`: the page's state and its three asynchronous handlers. Each handler is split
 * at its `await`: a start step that sets its busy flag and dispatches the service call,
 * and a settle step that applies the outcome and clears the flag. Calls of different
 * handlers may be pending at once and settle in any order.
 */
module App {
  import opened Wrappers
  import opened Types
  import opened GeminiService

  /** The right panel's tab: `'tests' | 'hunter'`. */
  datatype ToolTab = TestsTab | HunterTab

  /** The seven `useState` slots of the page. */
  datatype SessionState = SessionState(
    spec: Option<ProblemSpec>,
    testCases: seq<TestCase>,
    bugResult: Option<BugHuntResult>,
    isAnalyzing: bool,
    isGenerating: bool,
    isHunting: bool,
    toolTab: ToolTab)

  /** The initial values of the `useState` calls. */
  const InitialState := SessionState(None, [], None, false, false, false, TestsTab)

  /** The three handlers that await a service call. */
  datatype Call = AnalyzeCall | GenerateCall | HuntCall

  /** The busy flag each handler raises while its call is awaited. */
  function BusyFlag(s: SessionState, c: Call): bool {
    match c
    case AnalyzeCall => s.isAnalyzing
    case GenerateCall => s.isGenerating
    case HuntCall => s.isHunting
  }

  /** Whether a click reaches the `await`: the tools return early while there is no statement. */
  predicate Dispatches(s: SessionState, c: Call) {
    c == AnalyzeCall || s.spec.Some?
  }

  /**
   * The part of a handler before its `await`: the handler's own flag goes up when it
   * dispatches; no other flag and none of the data changes.
   */
  function Begin(s: SessionState, c: Call): (t: SessionState)
    ensures BusyFlag(t, c) <==> BusyFlag(s, c) || Dispatches(s, c)
    ensures forall d :: d != c ==> BusyFlag(t, d) == BusyFlag(s, d)
    ensures t.spec == s.spec && t.testCases == s.testCases && t.bugResult == s.bugResult && t.toolTab == s.toolTab
  {
    if !Dispatches(s, c) then s
    else
      match c
      case AnalyzeCall => s.(isAnalyzing := true)
      case GenerateCall => s.(isGenerating := true)
      case HuntCall => s.(isHunting := true)
  }

  /** What a service call settled with. */
  datatype Settlement =
    | AnalysisSettled(analysis: Result<ProblemSpec, ServiceError>)
    | BatchSettled(batch: Result<seq<TestCase>, ServiceError>)
    | HuntSettled(hunt: Result<Option<BugHuntResult>, ServiceError>)

  /** The handler a settlement belongs to. */
  function CallOf(st: Settlement): Call {
    match st
    case AnalysisSettled(_) => AnalyzeCall
    case BatchSettled(_) => GenerateCall
    case HuntSettled(_) => HuntCall
  }

  /**
   * The part of a handler after its `await`, on the state current at that moment: a new
   * statement clears both tool results; a batch goes in front of the cases there now
   * (`prev => [...newTestCases, ...prev]`); a hunt replaces the bug result; a failure
   * leaves the data. The handler's own flag comes down in `finally`; the other flags stay.
   */
  function Settle(s: SessionState, st: Settlement): (t: SessionState)
    ensures !BusyFlag(t, CallOf(st))
    ensures forall d :: d != CallOf(st) ==> BusyFlag(t, d) == BusyFlag(s, d)
    ensures t.toolTab == s.toolTab
    ensures st.AnalysisSettled? && st.analysis.Ok? ==> t.spec == Some(st.analysis.value) && t.testCases == [] && t.bugResult == None
    ensures st.BatchSettled? && st.batch.Ok? ==> t.spec == s.spec && t.testCases == st.batch.value + s.testCases && t.bugResult == s.bugResult
    ensures st.HuntSettled? && st.hunt.Ok? ==> t.spec == s.spec && t.testCases == s.testCases && t.bugResult == st.hunt.value
    ensures (st.AnalysisSettled? && st.analysis.Err?) || (st.BatchSettled? && st.batch.Err?) || (st.HuntSettled? && st.hunt.Err?)
            ==> t.spec == s.spec && t.testCases == s.testCases && t.bugResult == s.bugResult
  {
    match st
    case AnalysisSettled(outcome) =>
      var settled := if outcome.Ok? then s.(spec := Some(outcome.value), testCases := [], bugResult := None) else s;
      settled.(isAnalyzing := false)
    case BatchSettled(outcome) =>
      var settled := if outcome.Ok? then s.(testCases := outcome.value + s.testCases) else s;
      settled.(isGenerating := false)
    case HuntSettled(outcome) =>
      var settled := if outcome.Ok? then s.(bugResult := outcome.value) else s;
      settled.(isHunting := false)
  }

  /**
   * `handleAnalyze` when nothing happens between its start and its settlement: on success
   * the statement replaces the old one and both tool results are cleared; on failure the
   * data stays; `isAnalyzing` ends false either way.
   */
  function Analyzed(s: SessionState, outcome: Result<ProblemSpec, ServiceError>): (t: SessionState)
    ensures !t.isAnalyzing
    ensures outcome.Ok? ==> t.spec == Some(outcome.value) && t.testCases == [] && t.bugResult == None
    ensures outcome.Err? ==> t.spec == s.spec && t.testCases == s.testCases && t.bugResult == s.bugResult
    ensures t.isGenerating == s.isGenerating && t.isHunting == s.isHunting && t.toolTab == s.toolTab
  {
    Settle(Begin(s, AnalyzeCall), AnalysisSettled(outcome))
  }

  /**
   * `handleGenerateTest` when nothing happens in between: without a statement nothing
   * happens, not even the busy flag; otherwise a successful batch is put in front of the
   * existing cases, and `isGenerating` ends false.
   */
  function Generated(s: SessionState, outcome: Result<seq<TestCase>, ServiceError>): (t: SessionState)
    ensures s.spec.None? ==> t == s
    ensures s.spec.Some? ==> !t.isGenerating
    ensures s.spec.Some? && outcome.Ok? ==> t.testCases == outcome.value + s.testCases
    ensures outcome.Err? ==> t.testCases == s.testCases
    ensures t.spec == s.spec && t.bugResult == s.bugResult
    ensures t.isAnalyzing == s.isAnalyzing && t.isHunting == s.isHunting && t.toolTab == s.toolTab
  {
    if s.spec.None? then s else Settle(Begin(s, GenerateCall), BatchSettled(outcome))
  }

  /**
   * `handleBugHunt` when nothing happens in between: without a statement nothing happens;
   * otherwise a successful hunt replaces the bug result (possibly by none), and
   * `isHunting` ends false.
   */
  function Hunted(s: SessionState, outcome: Result<Option<BugHuntResult>, ServiceError>): (t: SessionState)
    ensures s.spec.None? ==> t == s
    ensures s.spec.Some? ==> !t.isHunting
    ensures s.spec.Some? && outcome.Ok? ==> t.bugResult == outcome.value
    ensures outcome.Err? ==> t.bugResult == s.bugResult
    ensures t.spec == s.spec && t.testCases == s.testCases
    ensures t.isAnalyzing == s.isAnalyzing && t.isGenerating == s.isGenerating && t.toolTab == s.toolTab
  {
    if s.spec.None? then s else Settle(Begin(s, HuntCall), HuntSettled(outcome))
  }

  /** The page together with the service calls it is awaiting. */
  datatype Page = Page(state: SessionState, pending: multiset<Call>)

  /** The page as it is first rendered: nothing awaited. */
  const InitialPage := Page(InitialState, multiset{})

  /** What can happen next on the page: a click, a call settling, or a tab switch. */
  datatype Action = Click(call: Call) | Resolve(settlement: Settlement) | PickTab(tab: ToolTab)

  /** The tab a handler's button lives on, if any: the input panel is always shown. */
  predicate OnScreen(s: SessionState, c: Call) {
    match c
    case AnalyzeCall => true
    case GenerateCall => s.toolTab == TestsTab
    case HuntCall => s.toolTab == HunterTab
  }

  /**
   * A handler's button can be clicked only while its panel is shown (`toolTab === 'tests' ?
   * <TestGenerator/> : <BugHunter/>`) and is disabled while its own flag is up
   * (`disabled={isAnalyzing || ...}`, `disabled={isGenerating}`, `disabled={isHunting || ...}`);
   * only an awaited call can settle. The model still allows a tool click without a statement,
   * where the page shows no button and the handler returns early, so it admits more runs
   * than the page does.
   */
  predicate Allowed(p: Page, a: Action) {
    match a
    case Click(c) => OnScreen(p.state, c) && !BusyFlag(p.state, c)
    case Resolve(st) => CallOf(st) in p.pending
    case PickTab(_) => true
  }

  function Act(p: Page, a: Action): Page {
    match a
    case Click(c) => Page(Begin(p.state, c), if Dispatches(p.state, c) then p.pending + multiset{c} else p.pending)
    case Resolve(st) => Page(Settle(p.state, st), p.pending - multiset{CallOf(st)})
    case PickTab(tab) => Page(p.state.(toolTab := tab), p.pending)
  }

  /** Every action of `actions`, oldest first, is allowed when it happens. */
  predicate AllowedRun(p: Page, actions: seq<Action>)
    decreases |actions|
  {
    actions == [] || (Allowed(p, actions[0]) && AllowedRun(Act(p, actions[0]), actions[1..]))
  }

  /** The page after `actions`, oldest first. */
  function Replay(p: Page, actions: seq<Action>): Page
    decreases |actions|
  {
    if actions == [] then p else Replay(Act(p, actions[0]), actions[1..])
  }

  /** Each busy flag is up exactly while one call of its handler is awaited, and never two. */
  predicate Tracks(p: Page) {
    forall c: Call :: (BusyFlag(p.state, c) <==> p.pending[c] == 1) && p.pending[c] <= 1
  }

  /** One allowed action keeps the flags in step with the awaited calls. */
  lemma ActTracks(p: Page, a: Action)
    requires Tracks(p) && Allowed(p, a)
    ensures Tracks(Act(p, a))
  {
    var q := Act(p, a);
    forall c: Call ensures (BusyFlag(q.state, c) <==> q.pending[c] == 1) && q.pending[c] <= 1 {
      assert (BusyFlag(p.state, c) <==> p.pending[c] == 1) && p.pending[c] <= 1;
    }
  }

  /**
   * However clicks, settlements and tab switches interleave, as long as the disabled
   * buttons are respected: a handler's flag is up exactly while its call is awaited, and
   * no handler ever has two calls awaited at once.
   */
  lemma {:induction false} FlagsTrackPendingCalls(p: Page, actions: seq<Action>)
    requires Tracks(p) && AllowedRun(p, actions)
    ensures Tracks(Replay(p, actions))
    decreases |actions|
  {
    if actions != [] {
      ActTracks(p, actions[0]);
      FlagsTrackPendingCalls(Act(p, actions[0]), actions[1..]);
      assert Replay(p, actions) == Replay(Act(p, actions[0]), actions[1..]);
    }
  }

  /** The first page already tracks: no flag is up and nothing is awaited. */
  lemma InitialPageTracks()
    ensures Tracks(InitialPage)
  {
  }

  /**
   * A batch requested for one statement still lands after a new statement has been
   * analysed in the meantime: the settle step stacks onto whatever list is current.
   */
  lemma BatchOutlivesReanalysis(s: SessionState, newSpec: ProblemSpec, batch: seq<TestCase>)
    requires s.spec.Some? && !s.isAnalyzing && !s.isGenerating
    ensures var q := Replay(Page(s, multiset{}),
              [Click(GenerateCall), Click(AnalyzeCall), Resolve(AnalysisSettled(Ok(newSpec))), Resolve(BatchSettled(Ok(batch)))]);
            q.state.spec == Some(newSpec) && q.state.testCases == batch && q.pending == multiset{}
  {
    var p0 := Page(s, multiset{});
    var p1 := Act(p0, Click(GenerateCall));
    var p2 := Act(p1, Click(AnalyzeCall));
    var p3 := Act(p2, Resolve(AnalysisSettled(Ok(newSpec))));
    var p4 := Act(p3, Resolve(BatchSettled(Ok(batch))));
    var actions := [Click(GenerateCall), Click(AnalyzeCall), Resolve(AnalysisSettled(Ok(newSpec))), Resolve(BatchSettled(Ok(batch)))];
    assert actions[1..][1..][1..][1..] == [];
    assert Replay(p3, actions[1..][1..][1..]) == p4;
    assert Replay(p2, actions[1..][1..]) == p4;
    assert Replay(p1, actions[1..]) == p4;
    assert Replay(p0, actions) == p4;
    assert p2.pending == multiset{GenerateCall, AnalyzeCall};
    assert p4.pending == multiset{};
  }

  /** One user action with the outcome of the call it makes. */
  datatype Event =
    | AnalyzeEvent(analysis: Result<ProblemSpec, ServiceError>)
    | GenerateEvent(batch: Result<seq<TestCase>, ServiceError>)
    | HuntEvent(hunt: Result<Option<BugHuntResult>, ServiceError>)
    | TabEvent(tab: ToolTab)

  function Step(s: SessionState, e: Event): SessionState {
    match e
    case AnalyzeEvent(outcome) => Analyzed(s, outcome)
    case GenerateEvent(outcome) => Generated(s, outcome)
    case HuntEvent(outcome) => Hunted(s, outcome)
    case TabEvent(tab) => s.(toolTab := tab)
  }

  /** The state after a sequence of actions, oldest first. */
  function Run(s: SessionState, events: seq<Event>): SessionState
    decreases |events|
  {
    if events == [] then s else Step(Run(s, events[..|events| - 1]), events[|events| - 1])
  }

  /** No action changes the statement except a successful analysis. */
  predicate KeepsStatement(e: Event) {
    !(e.AnalyzeEvent? && e.analysis.Ok?)
  }

  /** The cases of the successful batches among `events`, newest batch first. */
  function NewestFirst(events: seq<Event>): seq<TestCase>
    decreases |events|
  {
    if events == [] then []
    else
      var last := events[|events| - 1];
      (if last.GenerateEvent? && last.batch.Ok? then last.batch.value else []) + NewestFirst(events[..|events| - 1])
  }

  /**
   * While the statement stays, the case list is every successful batch stacked newest
   * first on top of the cases already there; with a statement in place the tab and the
   * hunts never touch it.
   */
  lemma {:induction false} BatchesStackNewestFirst(s: SessionState, events: seq<Event>)
    requires s.spec.Some?
    requires forall i :: 0 <= i < |events| ==> KeepsStatement(events[i])
    ensures Run(s, events).spec == s.spec
    ensures Run(s, events).testCases == NewestFirst(events) + s.testCases
    decreases |events|
  {
    if events != [] {
      var init := events[..|events| - 1];
      var last := events[|events| - 1];
      assert forall i :: 0 <= i < |init| ==> KeepsStatement(init[i]) by {
        forall i | 0 <= i < |init| ensures KeepsStatement(init[i]) {
          assert init[i] == events[i];
        }
      }
      BatchesStackNewestFirst(s, init);
      var prev := Run(s, init);
      assert Run(s, events) == Step(prev, last);
      assert KeepsStatement(last);
      assert NewestFirst(events) ==
        (if last.GenerateEvent? && last.batch.Ok? then last.batch.value else []) + NewestFirst(init);
      match last
      case AnalyzeEvent(outcome) =>
      case GenerateEvent(outcome) =>
      case HuntEvent(outcome) =>
      case TabEvent(tab) =>
    }
  }

  /** Three successful batches A, B, C, in that order, show as C, B, A above the old cases. */
  lemma ThreeBatches(s: SessionState, a: seq<TestCase>, b: seq<TestCase>, c: seq<TestCase>)
    requires s.spec.Some?
    ensures Run(s, [GenerateEvent(Ok(a)), GenerateEvent(Ok(b)), GenerateEvent(Ok(c))]).testCases == c + b + a + s.testCases
  {
    var events := [GenerateEvent(Ok(a)), GenerateEvent(Ok(b)), GenerateEvent(Ok(c))];
    BatchesStackNewestFirst(s, events);
    var two := events[..2];
    var one := two[..1];
    assert two == [GenerateEvent(Ok(a)), GenerateEvent(Ok(b))];
    assert one == [GenerateEvent(Ok(a))] && one[..0] == [];
    assert NewestFirst(one) == a;
    assert NewestFirst(two) == b + a;
    assert NewestFirst(events) == c + (b + a);
  }

  /** A successful analysis starts from a clean slate, whatever came before. */
  lemma AnalysisResetsTools(s: SessionState, events: seq<Event>, spec: ProblemSpec)
    ensures var t := Run(s, events + [AnalyzeEvent(Ok(spec))]);
            t.spec == Some(spec) && t.testCases == [] && t.bugResult == None
  {
    var all := events + [AnalyzeEvent(Ok(spec))];
    assert all[..|all| - 1] == events;
  }

  /** Before any statement exists, the tools do nothing at all. */
  lemma ToolsInertWithoutStatement(s: SessionState, e: Event)
    requires s.spec.None? && (e.GenerateEvent? || e.HuntEvent?)
    ensures Step(s, e) == s
  {
  }

  /**
   * The page state, held in the fields `useState` gives the component.
   */
  class Session {
    var spec: Option<ProblemSpec>
    var testCases: seq<TestCase>
    var bugResult: Option<BugHuntResult>
    var isAnalyzing: bool
    var isGenerating: bool
    var isHunting: bool
    var toolTab: ToolTab

    function State(): SessionState
      reads this
    {
      SessionState(spec, testCases, bugResult, isAnalyzing, isGenerating, isHunting, toolTab)
    }

    constructor()
      ensures State() == InitialState
    {
      spec := None;
      testCases := [];
      bugResult := None;
      isAnalyzing := false;
      isGenerating := false;
      isHunting := false;
      toolTab := TestsTab;
    }

    /** A click on a handler's button, up to its `await`; `dispatched` tells whether the call was made. */
    method Start(c: Call) returns (dispatched: bool)
      modifies this
      ensures dispatched <==> Dispatches(old(State()), c)
      ensures State() == Begin(old(State()), c)
    {
      dispatched := c == AnalyzeCall || spec.Some?;
      if dispatched {
        match c
        case AnalyzeCall => isAnalyzing := true;
        case GenerateCall => isGenerating := true;
        case HuntCall => isHunting := true;
      }
    }

    /** The rest of a handler once its call has settled with `st`. */
    method Finish(st: Settlement)
      modifies this
      ensures State() == Settle(old(State()), st)
    {
      match st
      case AnalysisSettled(outcome) =>
        if outcome.Ok? {
          spec := Some(outcome.value);
          testCases := [];
          bugResult := None;
        }
        isAnalyzing := false;
      case BatchSettled(outcome) =>
        if outcome.Ok? {
          testCases := outcome.value + testCases;
        }
        isGenerating := false;
      case HuntSettled(outcome) =>
        if outcome.Ok? {
          bugResult := outcome.value;
        }
        isHunting := false;
    }

    /** `handleAnalyze`, given what `parseProblemStatement` settled with. */
    method Analyze(outcome: Result<ProblemSpec, ServiceError>)
      modifies this
      ensures State() == Analyzed(old(State()), outcome)
    {
      isAnalyzing := true;
      if outcome.Ok? {
        spec := Some(outcome.value);
        testCases := [];
        bugResult := None;
      }
      isAnalyzing := false;
    }

    /** `handleGenerateTest`, given what `generateSmartTestCase` settled with; `called` tells whether the call was made. */
    method GenerateTests(outcome: Result<seq<TestCase>, ServiceError>) returns (called: bool)
      modifies this
      ensures called <==> old(spec).Some?
      ensures State() == Generated(old(State()), outcome)
    {
      if spec.None? {
        return false;
      }
      called := true;
      isGenerating := true;
      if outcome.Ok? {
        testCases := outcome.value + testCases;
      }
      isGenerating := false;
    }

    /** `handleBugHunt`, given what `huntBug` settled with; `called` tells whether the call was made. */
    method HuntBug(outcome: Result<Option<BugHuntResult>, ServiceError>) returns (called: bool)
      modifies this
      ensures called <==> old(spec).Some?
      ensures State() == Hunted(old(State()), outcome)
    {
      if spec.None? {
        return false;
      }
      called := true;
      isHunting := true;
      if outcome.Ok? {
        bugResult := outcome.value;
      }
      isHunting := false;
    }

    /** The two tab buttons: `setToolTab('tests')` and `setToolTab('hunter')`. */
    method SelectTab(tab: ToolTab)
      modifies this
      ensures State() == old(State()).(toolTab := tab)
    {
      toolTab := tab;
    }
  }
}
