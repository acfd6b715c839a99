/** The `rune build` driver: the phases run in a fixed order, with a hook
    fired before parsing and after every phase that may stop the build. */
module Phases {
  import opened Wrappers
  import opened Strings
  import opened Context

  /** A hook's answer: go on with the next phase, or stop here. */
  datatype Continuation = Continue | Halt

  /** The hooks, in the order a full build fires them. */
  datatype Hook = BeforeParse | AfterParse | AfterLowering | AfterTypeChecking | AfterCodegen | AfterCompile

  /** The phases, in the order a full build runs them. */
  datatype Step = ParseStep | LoweringStep | TypeCheckStep | CodegenStep | CompileStep

  const HookOrder: seq<Hook> := [BeforeParse, AfterParse, AfterLowering, AfterTypeChecking, AfterCodegen, AfterCompile]
  const StepOrder: seq<Step> := [ParseStep, LoweringStep, TypeCheckStep, CodegenStep, CompileStep]

  /** The number of events in a build that runs to the end: every hook and
      every phase between them. */
  const FullLength := 11

  datatype Diagnostic = Diagnostic(message: string)

  /** The resources a build shares with its phases and hooks: the build
      context, the feature flags, the diagnostics, the parsed document and
      the compilation result. Hooks may change any of them. */
  datatype Resources<Doc, C> = Resources(
    ctx: Option<BuildContext>,
    features: Option<FeatureFlags>,
    diagnostics: Option<seq<Diagnostic>>,
    document: Option<Doc>,
    compilation: Option<C>)

  /** The phases the driver sequences, given as functions: parsing a
      Runefile, the lowering and type-checking passes over the world and the
      resources, and compiling the generated crate. */
  datatype Passes<!W, !Doc, !C> = Passes(
    parse: string -> Result<Doc, Diagnostic>,
    lowering: (W, Resources<Doc, C>) -> (W, Resources<Doc, C>),
    typeCheck: (W, Resources<Doc, C>) -> (W, Resources<Doc, C>),
    compile: (BuildContext, FeatureFlags, W) -> C)

  /** What a hook returns: its own new state, its answer, and the world and
      resources as it leaves them. */
  datatype HookCall<H, W, Doc, C> = HookCall(state: H, answer: Continuation, world: W, res: Resources<Doc, C>)

  /** One thing the driver did: a hook fired and answered, or a phase ran. */
  datatype Event = Called(hook: Hook, answer: Continuation) | Ran(step: Step)

  /** What a build leaves behind: the hooks' state, the world and resources
      it returns, the events in order, and what the build's database held:
      the parse result, the world captured for code generation, and the
      compilation result. */
  datatype Run<H, W, Doc, C> = Run(
    state: H,
    world: W,
    res: Resources<Doc, C>,
    trace: seq<Event>,
    parsed: Option<Result<Doc, Diagnostic>>,
    codegenWorld: Option<W>,
    compiled: Option<C>)

  /** The events of a build: hooks and phases alternate in their fixed
      order, starting and ending with a hook; every hook but the last
      answered `Continue`, and the build ends early only on a hook that did
      not. */
  predicate WellFormedTrace(t: seq<Event>) {
    && |t| % 2 == 1 && |t| <= FullLength
    && (forall i :: 0 <= i < |t| ==> (t[i].Called? <==> i % 2 == 0))
    && (forall i :: 0 <= i < |t| && t[i].Called? ==> t[i].hook == HookOrder[i / 2])
    && (forall i :: 0 <= i < |t| && t[i].Ran? ==> t[i].step == StepOrder[i / 2])
    && (forall i :: 0 <= i < |t| - 1 && t[i].Called? ==> t[i].answer == Continue)
    && (|t| < FullLength ==> t[|t| - 1].answer == Halt)
  }

  /** The events of the first `n` rounds: each round fires a hook that
      answered `Continue` and then runs a phase. */
  predicate Rounds(t: seq<Event>, n: nat)
    requires n <= 5
  {
    && |t| == 2 * n
    && (forall i :: 0 <= i < |t| ==> (t[i].Called? <==> i % 2 == 0))
    && (forall i :: 0 <= i < |t| && t[i].Called? ==> t[i].hook == HookOrder[i / 2] && t[i].answer == Continue)
    && (forall i :: 0 <= i < |t| && t[i].Ran? ==> t[i].step == StepOrder[i / 2])
  }

  /** Hooks that never stop the build. */
  ghost predicate AlwaysContinue<H(!new), W(!new), Doc(!new), C(!new)>(hooks: (H, Hook, W, Resources<Doc, C>) -> HookCall<H, W, Doc, C>) {
    forall s, h, w, r :: hooks(s, h, w, r).answer == Continue
  }

  /** Hooks that leave the world and the resources as they found them. */
  ghost predicate Passive<H(!new), W(!new), Doc(!new), C(!new)>(hooks: (H, Hook, W, Resources<Doc, C>) -> HookCall<H, W, Doc, C>) {
    forall s, h, w, r :: hooks(s, h, w, r).world == w && hooks(s, h, w, r).res == r
  }

  /** The diagnostics, or none if a hook removed them. */
  function DiagnosticsOrDefault(d: Option<seq<Diagnostic>>): seq<Diagnostic> {
    match d
    case Some(ds) => ds
    case None => []
  }

  /** What a build carries from phase to phase: the world and resources,
      and what its database holds. */
  datatype State<W, Doc, C> = State(
    world: W,
    res: Resources<Doc, C>,
    parsed: Option<Result<Doc, Diagnostic>>,
    codegenWorld: Option<W>,
    compiled: Option<C>)

  /** Phase `i` of a build. Parsing stores the document or pushes the
      error, creating the diagnostics if a hook removed them; lowering and
      type checking run over the world and resources; code generation
      captures the world into the database; compiling stores its result. */
  function RunPhase<W, Doc, C>(i: nat, ctx: BuildContext, features: FeatureFlags, passes: Passes<W, Doc, C>,
                               st: State<W, Doc, C>): (r: State<W, Doc, C>)
    requires i < 5
    requires i == 4 ==> st.codegenWorld.Some?
    ensures r.parsed == if i == 0 then Some(passes.parse(ctx.runefile)) else st.parsed
    ensures r.codegenWorld == if i == 3 then Some(st.world) else st.codegenWorld
    ensures r.compiled == if i == 4 then Some(passes.compile(ctx, features, st.codegenWorld.value)) else st.compiled
    ensures i == 0 && passes.parse(ctx.runefile).Ok? ==> r.res.document == Some(passes.parse(ctx.runefile).value)
    ensures i == 0 && passes.parse(ctx.runefile).Err? ==> r.res.document == st.res.document
    ensures i == 0 && passes.parse(ctx.runefile).Err? ==>
              r.res.diagnostics == Some(DiagnosticsOrDefault(st.res.diagnostics) + [passes.parse(ctx.runefile).error])
    ensures i >= 3 ==> r.world == st.world
    ensures i == 4 ==> r.res.compilation == r.compiled
    ensures i == 0 ==> r.world == st.world
    ensures i == 0 && passes.parse(ctx.runefile).Ok? ==> r.res == st.res.(document := r.res.document)
    ensures i == 0 && passes.parse(ctx.runefile).Err? ==> r.res == st.res.(diagnostics := r.res.diagnostics)
    ensures i == 1 ==> (r.world, r.res) == passes.lowering(st.world, st.res)
    ensures i == 2 ==> (r.world, r.res) == passes.typeCheck(st.world, st.res)
    ensures i == 3 ==> r.res == st.res
    ensures i == 4 ==> r.res == st.res.(compilation := r.compiled)
  {
    if i == 0 then
      var result := passes.parse(ctx.runefile);
      var res := match result
        case Ok(d) => st.res.(document := Some(d))
        case Err(e) => st.res.(diagnostics := Some(DiagnosticsOrDefault(st.res.diagnostics) + [e]));
      st.(res := res, parsed := Some(result))
    else if i == 1 then
      var (w, res) := passes.lowering(st.world, st.res);
      st.(world := w, res := res)
    else if i == 2 then
      var (w, res) := passes.typeCheck(st.world, st.res);
      st.(world := w, res := res)
    else if i == 3 then
      st.(codegenWorld := Some(st.world))
    else
      var c := passes.compile(ctx, features, st.codegenWorld.value);
      st.(res := st.res.(compilation := Some(c)), compiled := Some(c))
  }

  /** Where every build starts: an empty world, resources holding the
      context, the feature flags and no diagnostics, and an empty database. */
  function Start<W, Doc, C>(ctx: BuildContext, features: FeatureFlags, emptyWorld: W): State<W, Doc, C> {
    State(emptyWorld, Resources(Some(ctx), Some(features), Some([]), None, None), None, None, None)
  }

  /** The rest of a build from round `i` on, as a reference definition:
      fire hook `i` on the current world and resources; stop if it did not
      answer `Continue` or if it was the last hook, otherwise run phase `i`
      and go on with the next round. */
  function Schedule<H, W, Doc, C>(i: nat, ctx: BuildContext, features: FeatureFlags, passes: Passes<W, Doc, C>,
                                  hooks: (H, Hook, W, Resources<Doc, C>) -> HookCall<H, W, Doc, C>,
                                  s: H, st: State<W, Doc, C>, trace: seq<Event>): (r: Run<H, W, Doc, C>)
    requires i <= 5
    requires i >= 4 ==> st.codegenWorld.Some?
    ensures |trace| < |r.trace| && r.trace[..|trace|] == trace
    decreases 5 - i
  {
    var call := hooks(s, HookOrder[i], st.world, st.res);
    if i == 5 || call.answer != Continue then
      Run(call.state, call.world, call.res, trace + [Called(HookOrder[i], call.answer)],
          st.parsed, st.codegenWorld, st.compiled)
    else
      var next := RunPhase(i, ctx, features, passes, st.(world := call.world, res := call.res));
      var t := trace + [Called(HookOrder[i], Continue), Ran(StepOrder[i])];
      var r := Schedule(i + 1, ctx, features, passes, hooks, call.state, next, t);
      assert r.trace[..|t|] == t;
      assert r.trace[..|trace|] == r.trace[..|t|][..|trace|] == t[..|trace|] == trace;
      r
  }

  /** The phases from `i` on, one after the other, with nothing in between. */
  function Phases<W, Doc, C>(i: nat, ctx: BuildContext, features: FeatureFlags, passes: Passes<W, Doc, C>,
                             st: State<W, Doc, C>): State<W, Doc, C>
    requires i <= 5
    requires i >= 4 ==> st.codegenWorld.Some?
    decreases 5 - i
  {
    if i == 5 then st else Phases(i + 1, ctx, features, passes, RunPhase(i, ctx, features, passes, st))
  }

  /** A round whose hook answered `Continue` extends the rounds. */
  lemma RoundsStep(t: seq<Event>, i: nat)
    requires i < 5 && Rounds(t, i)
    ensures Rounds(t + [Called(HookOrder[i], Continue), Ran(StepOrder[i])], i + 1)
  {
    var u := t + [Called(HookOrder[i], Continue), Ran(StepOrder[i])];
    assert u[2 * i] == Called(HookOrder[i], Continue) && (2 * i) / 2 == i && (2 * i) % 2 == 0;
    assert u[2 * i + 1] == Ran(StepOrder[i]) && (2 * i + 1) / 2 == i && (2 * i + 1) % 2 == 1;
    assert forall k :: 0 <= k < |t| ==> u[k] == t[k];
  }

  /** The rounds followed by a hook that halts, or by the last hook, are a
      build's whole trace. */
  lemma RoundsEnd(t: seq<Event>, i: nat, answer: Continuation)
    requires i <= 5 && Rounds(t, i)
    requires answer == Halt || i == 5
    ensures WellFormedTrace(t + [Called(HookOrder[i], answer)])
  {
    var u := t + [Called(HookOrder[i], answer)];
    assert u[2 * i] == Called(HookOrder[i], answer) && (2 * i) / 2 == i && (2 * i) % 2 == 0;
    assert forall k :: 0 <= k < |t| ==> u[k] == t[k];
  }

  /** `build_with_hooks`. Parsing reads the Runefile of the context the
      build was started with, and compiling uses that context, those feature
      flags and the world as it was before the `after_codegen` hook, whatever
      the hooks do to the resources. The run is the one the reference
      schedule computes from the hooks' answers. */
  method BuildWithHooks<H(!new), W(!new), Doc(!new), C(!new)>(
    ctx: BuildContext, features: FeatureFlags, passes: Passes<W, Doc, C>,
    hooks: (H, Hook, W, Resources<Doc, C>) -> HookCall<H, W, Doc, C>,
    state: H, emptyWorld: W)
    returns (run: Run<H, W, Doc, C>)
    ensures run == Schedule(0, ctx, features, passes, hooks, state, Start(ctx, features, emptyWorld), [])
    ensures WellFormedTrace(run.trace)
    ensures AlwaysContinue(hooks) ==> |run.trace| == FullLength
    ensures run.parsed.Some? <==> |run.trace| > 1
    ensures run.parsed.Some? ==> run.parsed.value == passes.parse(ctx.runefile)
    ensures run.codegenWorld.Some? <==> |run.trace| > 7
    ensures run.compiled.Some? <==> |run.trace| > 9
    ensures run.compiled.Some? ==> run.compiled.value == passes.compile(ctx, features, run.codegenWorld.value)
    ensures Passive(hooks) && run.compiled.Some? ==>
              run.codegenWorld == Some(run.world) && run.res.compilation == run.compiled
  {
    var st: State<W, Doc, C> := Start(ctx, features, emptyWorld);
    var s := state;
    var trace: seq<Event> := [];
    var i := 0;
    while i < 5
      invariant 0 <= i <= 5
      invariant Rounds(trace, i)
      invariant st.parsed.Some? <==> i > 0
      invariant st.parsed.Some? ==> st.parsed.value == passes.parse(ctx.runefile)
      invariant st.codegenWorld.Some? <==> i > 3
      invariant st.compiled.Some? <==> i > 4
      invariant st.compiled.Some? ==> st.compiled.value == passes.compile(ctx, features, st.codegenWorld.value)
      invariant Passive(hooks) && i == 4 ==> st.codegenWorld == Some(st.world)
      invariant Passive(hooks) && i == 5 ==> st.codegenWorld == Some(st.world) && st.res.compilation == st.compiled
      invariant Schedule(0, ctx, features, passes, hooks, state, Start(ctx, features, emptyWorld), [])
                == Schedule(i, ctx, features, passes, hooks, s, st, trace)
    {
      var call := hooks(s, HookOrder[i], st.world, st.res);
      if call.answer != Continue {
        RoundsEnd(trace, i, call.answer);
        return Run(call.state, call.world, call.res, trace + [Called(HookOrder[i], call.answer)],
                   st.parsed, st.codegenWorld, st.compiled);
      }
      s, st := call.state, RunPhase(i, ctx, features, passes, st.(world := call.world, res := call.res));
      RoundsStep(trace, i);
      trace := trace + [Called(HookOrder[i], Continue), Ran(StepOrder[i])];
      i := i + 1;
    }
    var call := hooks(s, AfterCompile, st.world, st.res);
    RoundsEnd(trace, 5, call.answer);
    run := Run(call.state, call.world, call.res, trace + [Called(AfterCompile, call.answer)],
               st.parsed, st.codegenWorld, st.compiled);
  }

  /** A hook that never stops the build and changes nothing. */
  function NopHook<W, Doc, C>(s: (), h: Hook, w: W, r: Resources<Doc, C>): HookCall<(), W, Doc, C> {
    HookCall(s, Continue, w, r)
  }

  /** `build`: the full build with no hooks and the production feature
      flags. Every phase runs: the world is the empty world lowered and then
      type checked, with the resources holding the parse result, and it is
      that world that is compiled. */
  method Build<W(!new), Doc(!new), C(!new)>(ctx: BuildContext, passes: Passes<W, Doc, C>, emptyWorld: W)
    returns (run: Run<(), W, Doc, C>)
    ensures |run.trace| == FullLength && WellFormedTrace(run.trace)
    ensures run.parsed == Some(passes.parse(ctx.runefile))
    ensures run.compiled == Some(passes.compile(ctx, Production(), run.world))
    ensures run.res.compilation == run.compiled
    ensures var initial := Resources(Some(ctx), Some(Production()), Some([]), None, None);
            var parsed := match passes.parse(ctx.runefile)
                          case Ok(d) => initial.(document := Some(d))
                          case Err(e) => initial.(diagnostics := Some([e]));
            var lowered := passes.lowering(emptyWorld, parsed);
            var checked := passes.typeCheck(lowered.0, lowered.1);
            && run.world == checked.0
            && run.res == checked.1.(compilation := run.compiled)
  {
    var hooks := (s: (), h: Hook, w: W, r: Resources<Doc, C>) => NopHook(s, h, w, r);
    assert AlwaysContinue(hooks) && Passive(hooks);
    run := BuildWithHooks(ctx, Production(), passes, hooks, (), emptyWorld);
    var st0: State<W, Doc, C> := Start(ctx, Production(), emptyWorld);
    PassiveSchedule(0, ctx, Production(), passes, hooks, (), st0, []);
    var st1 := RunPhase(0, ctx, Production(), passes, st0);
    var st2 := RunPhase(1, ctx, Production(), passes, st1);
    var st3 := RunPhase(2, ctx, Production(), passes, st2);
    var st4 := RunPhase(3, ctx, Production(), passes, st3);
    var st5 := RunPhase(4, ctx, Production(), passes, st4);
    assert Phases(0, ctx, Production(), passes, st0) == st5 by {
      assert Phases(4, ctx, Production(), passes, st4) == st5;
    }
    assert st1.world == emptyWorld;
    match passes.parse(ctx.runefile)
    case Ok(d) =>
      assert st1.res == st0.res.(document := Some(d));
    case Err(e) =>
      assert DiagnosticsOrDefault(st0.res.diagnostics) + [e] == [e];
      assert st1.res == st0.res.(diagnostics := Some([e]));
  }

  /** Reading the reference schedule: a round whose hook does not answer
      `Continue` ends the build there, with the world and resources the hook
      left and the database as the earlier phases left it. */
  lemma HaltingHookEndsBuild<H, W, Doc, C>(i: nat, ctx: BuildContext, features: FeatureFlags, passes: Passes<W, Doc, C>,
                                           hooks: (H, Hook, W, Resources<Doc, C>) -> HookCall<H, W, Doc, C>,
                                           s: H, st: State<W, Doc, C>, trace: seq<Event>)
    requires i <= 5
    requires i >= 4 ==> st.codegenWorld.Some?
    requires hooks(s, HookOrder[i], st.world, st.res).answer == Halt
    ensures var call := hooks(s, HookOrder[i], st.world, st.res);
            Schedule(i, ctx, features, passes, hooks, s, st, trace)
              == Run(call.state, call.world, call.res, trace + [Called(HookOrder[i], Halt)],
                     st.parsed, st.codegenWorld, st.compiled)
  {
  }

  /** The reference schedule, started after `i` rounds that continued,
      always leaves a well-formed trace. */
  lemma {:induction false} ScheduleWellFormed<H, W, Doc, C>(
    i: nat, ctx: BuildContext, features: FeatureFlags, passes: Passes<W, Doc, C>,
    hooks: (H, Hook, W, Resources<Doc, C>) -> HookCall<H, W, Doc, C>,
    s: H, st: State<W, Doc, C>, trace: seq<Event>)
    requires i <= 5
    requires i >= 4 ==> st.codegenWorld.Some?
    requires Rounds(trace, i)
    ensures WellFormedTrace(Schedule(i, ctx, features, passes, hooks, s, st, trace).trace)
    decreases 5 - i
  {
    var call := hooks(s, HookOrder[i], st.world, st.res);
    if i == 5 || call.answer != Continue {
      RoundsEnd(trace, i, call.answer);
    } else {
      RoundsStep(trace, i);
      var next := RunPhase(i, ctx, features, passes, st.(world := call.world, res := call.res));
      ScheduleWellFormed(i + 1, ctx, features, passes, hooks, call.state, next,
                         trace + [Called(HookOrder[i], Continue), Ran(StepOrder[i])]);
    }
  }

  /** With hooks that always continue, every remaining round runs: two events
      per round and the last hook. */
  lemma {:induction false} ContinuingSchedule<H(!new), W(!new), Doc(!new), C(!new)>(
    i: nat, ctx: BuildContext, features: FeatureFlags, passes: Passes<W, Doc, C>,
    hooks: (H, Hook, W, Resources<Doc, C>) -> HookCall<H, W, Doc, C>,
    s: H, st: State<W, Doc, C>, trace: seq<Event>)
    requires i <= 5
    requires i >= 4 ==> st.codegenWorld.Some?
    requires AlwaysContinue(hooks)
    ensures |Schedule(i, ctx, features, passes, hooks, s, st, trace).trace| == |trace| + FullLength - 2 * i
    decreases 5 - i
  {
    var call := hooks(s, HookOrder[i], st.world, st.res);
    if i < 5 {
      assert call.answer == Continue;
      var next := RunPhase(i, ctx, features, passes, st.(world := call.world, res := call.res));
      ContinuingSchedule(i + 1, ctx, features, passes, hooks, call.state, next,
                         trace + [Called(HookOrder[i], Continue), Ran(StepOrder[i])]);
    }
  }

  /** A build whose hooks always continue runs every phase, in order. */
  lemma ContinuingHooksRunEverything<H(!new), W(!new), Doc(!new), C(!new)>(
    ctx: BuildContext, features: FeatureFlags, passes: Passes<W, Doc, C>,
    hooks: (H, Hook, W, Resources<Doc, C>) -> HookCall<H, W, Doc, C>,
    state: H, emptyWorld: W)
    requires AlwaysContinue(hooks)
    ensures var t := Schedule(0, ctx, features, passes, hooks, state, Start(ctx, features, emptyWorld), []).trace;
            && |t| == FullLength
            && forall j :: 0 <= j < 5 ==> t[2 * j + 1] == Ran(StepOrder[j])
  {
    var st: State<W, Doc, C> := Start(ctx, features, emptyWorld);
    var t := Schedule(0, ctx, features, passes, hooks, state, st, []).trace;
    ScheduleWellFormed(0, ctx, features, passes, hooks, state, st, []);
    ContinuingSchedule(0, ctx, features, passes, hooks, state, st, []);
    FullTraceRunsEverything(t);
  }

  /** With hooks that always continue and leave the world and resources
      alone, the build is its phases run one after the other. */
  lemma {:induction false} PassiveSchedule<H(!new), W(!new), Doc(!new), C(!new)>(
    i: nat, ctx: BuildContext, features: FeatureFlags, passes: Passes<W, Doc, C>,
    hooks: (H, Hook, W, Resources<Doc, C>) -> HookCall<H, W, Doc, C>,
    s: H, st: State<W, Doc, C>, trace: seq<Event>)
    requires i <= 5
    requires i >= 4 ==> st.codegenWorld.Some?
    requires AlwaysContinue(hooks) && Passive(hooks)
    ensures var r := Schedule(i, ctx, features, passes, hooks, s, st, trace);
            var f := Phases(i, ctx, features, passes, st);
            && r.world == f.world && r.res == f.res
            && r.parsed == f.parsed && r.codegenWorld == f.codegenWorld && r.compiled == f.compiled
    decreases 5 - i
  {
    var call := hooks(s, HookOrder[i], st.world, st.res);
    if i < 5 {
      assert st.(world := call.world, res := call.res) == st;
      var next := RunPhase(i, ctx, features, passes, st);
      PassiveSchedule(i + 1, ctx, features, passes, hooks, call.state, next,
                      trace + [Called(HookOrder[i], Continue), Ran(StepOrder[i])]);
    }
  }

  /** A hook that answers `Halt` is the last thing the build does. */
  lemma HaltEndsBuild(t: seq<Event>, k: nat)
    requires WellFormedTrace(t)
    requires k < |t| && t[k].Called? && t[k].answer == Halt
    ensures |t| == k + 1
  {
  }

  /** A build in which no hook halted ran every phase. */
  lemma ContinuingRunsEverything(t: seq<Event>)
    requires WellFormedTrace(t)
    requires forall i :: 0 <= i < |t| && t[i].Called? ==> t[i].answer == Continue
    ensures |t| == FullLength
    ensures forall j :: 0 <= j < 5 ==> t[2 * j + 1] == Ran(StepOrder[j])
  {
    FullTraceRunsEverything(t);
  }

  /** A trace of full length holds every phase, in order. */
  lemma FullTraceRunsEverything(t: seq<Event>)
    requires WellFormedTrace(t) && |t| == FullLength
    ensures forall j :: 0 <= j < 5 ==> t[2 * j + 1] == Ran(StepOrder[j])
  {
    forall j | 0 <= j < 5
      ensures t[2 * j + 1] == Ran(StepOrder[j])
    {
      assert (2 * j + 1) / 2 == j;
    }
  }

  /** A type name cut into the parts the logged name is taken from: `k0`
      copies of the crate's name, `a` colons, the name `r`, `b` colons, `c`
      copies of `::run` and `d` copies of `_system`, with every copy
      removable at each end actually counted and `r` holding no `:` at
      either end. */
  predicate PrettyParts(typeName: string, crateName: string, k0: nat, a: nat, r: string, b: nat, c: nat, d: nat) {
    var trimmed := Repeat(":", a) + r + Repeat(":", b);
    var withRun := trimmed + Repeat("::run", c);
    var withoutCrate := withRun + Repeat("_system", d);
    && typeName == Repeat(crateName, k0) + withoutCrate
    && (crateName != "" ==> !StartsWith(withoutCrate, crateName))
    && !EndsWith(withRun, "_system")
    && !EndsWith(trimmed, "::run")
    && !StartsWith(r, ":") && !EndsWith(r, ":")
  }

  /** The name a pass is logged under: the pass's type name without the
      crate's name in front, without the `_system` and `::run` suffixes the
      system macro adds, and without the `:` left at either end. */
  function PrettyName(typeName: string, crateName: string): (r: string)
    ensures !StartsWith(r, ":") && !EndsWith(r, ":")
    ensures exists k0: nat, a: nat, b: nat, c: nat, d: nat :: PrettyParts(typeName, crateName, k0, a, r, b, c, d)
  {
    var withoutCrate := if crateName == "" then typeName else TrimStartMatches(typeName, crateName);
    var withRun := TrimEndMatches(withoutCrate, "_system");
    var trimmed := TrimEndMatches(withRun, "::run");
    var r := TrimMatches(trimmed, ':');
    PrettyPartsFound(typeName, crateName, withoutCrate, withRun, trimmed, r);
    r
  }

  /** The parts behind the steps `PrettyName` takes. */
  lemma PrettyPartsFound(typeName: string, crateName: string, withoutCrate: string, withRun: string,
                         trimmed: string, r: string)
    requires withoutCrate == if crateName == "" then typeName else TrimStartMatches(typeName, crateName)
    requires withRun == TrimEndMatches(withoutCrate, "_system")
    requires trimmed == TrimEndMatches(withRun, "::run")
    requires r == TrimMatches(trimmed, ':')
    ensures exists k0: nat, a: nat, b: nat, c: nat, d: nat :: PrettyParts(typeName, crateName, k0, a, r, b, c, d)
  {
    var a: nat, b: nat :| trimmed == Repeat([':'], a) + r + Repeat([':'], b);
    var c := TrailingCopies(withRun, "::run");
    var d := TrailingCopies(withoutCrate, "_system");
    var k0: nat := if crateName == "" then 0 else LeadingCopies(typeName, crateName);
    assert typeName == Repeat(crateName, k0) + withoutCrate;
    assert PrettyParts(typeName, crateName, k0, a, r, b, c, d);
  }

  /** Read backwards: whatever parts a type name is cut into, the logged name
      is the middle one. */
  lemma PrettyNameUnique(typeName: string, crateName: string, k0: nat, a: nat, r: string, b: nat, c: nat, d: nat)
    requires PrettyParts(typeName, crateName, k0, a, r, b, c, d)
    ensures PrettyName(typeName, crateName) == r
  {
    var trimmed := Repeat(":", a) + r + Repeat(":", b);
    var withRun := trimmed + Repeat("::run", c);
    var withoutCrate := withRun + Repeat("_system", d);
    if crateName == "" {
      RepeatOfEmpty(k0);
    } else {
      TrimStartMatchesUnique(typeName, crateName, k0, withoutCrate);
    }
    assert withoutCrate == if crateName == "" then typeName else TrimStartMatches(typeName, crateName);
    TrimEndMatchesUnique(withoutCrate, "_system", d, withRun);
    TrimEndMatchesUnique(withRun, "::run", c, trimmed);
    assert ":" == [':'];
    TrimMatchesUnique(trimmed, ':', a, r, b);
  }

  /** Trimming a prefix that occurs once. */
  lemma TrimPrefixOnce(p: string, rest: string)
    requires |p| > 0 && !StartsWith(rest, p)
    ensures TrimStartMatches(p + rest, p) == rest
  {
    assert Repeat(p, 1) == p;
    TrimStartMatchesUnique(Repeat(p, 1) + rest, p, 1, rest);
  }

  /** Trimming a suffix that occurs once. */
  lemma TrimSuffixOnce(t: string, p: string)
    requires |p| > 0 && !EndsWith(t, p)
    ensures TrimEndMatches(t + p, p) == t
  {
    assert Repeat(p, 1) == p;
    TrimEndMatchesUnique(t + Repeat(p, 1), p, 1, t);
  }

  /** Trimming `:` from `::pass` leaves `pass` when it has no `:` at
      either end. */
  lemma TrimColons(pass: string)
    requires |pass| > 0 && pass[0] != ':' && pass[|pass| - 1] != ':'
    ensures TrimMatches("::" + pass, ':') == pass
  {
    assert "::" + pass == Repeat([':'], 2) + pass;
    TrimStartMatchesUnique("::" + pass, [':'], 2, pass);
    assert pass == pass + Repeat([':'], 0);
    TrimEndMatchesUnique(pass, [':'], 0, pass);
  }

  /** The pass `pass::run_system` of crate `crate` is logged as `pass`. */
  lemma PrettyNameOfSystem(crate: string, pass: string)
    requires |crate| > 0 && crate[0] != ':'
    requires |pass| > 0 && pass[0] != ':' && pass[|pass| - 1] != ':'
    requires !EndsWith("::" + pass, "::run")
    ensures PrettyName(crate + "::" + pass + "::run_system", crate) == pass
  {
    var colons := "::" + pass;
    var run := colons + "::run";
    var rest := run + "_system";
    assert crate + "::" + pass + "::run_system" == crate + rest;
    assert !StartsWith(rest, crate) by {
      assert rest[0] == ':';
    }
    TrimPrefixOnce(crate, rest);
    assert !EndsWith(run, "_system") by {
      assert run[|run| - 1] == 'n';
    }
    TrimSuffixOnce(run, "_system");
    TrimSuffixOnce(colons, "::run");
    TrimColons(pass);
  }
}
