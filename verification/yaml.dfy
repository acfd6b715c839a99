/** The Runefile pipeline as the YAML front end reads it: argument values,
    stages, the conversion of values into the AST's argument values, and the
    first two analysis steps, which name every stage and give each one a node
    in the pipeline graph. */
module Yaml {
  import opened Wrappers
  import opened DependencyPath

  /** A signed 64-bit integer, the width of `Value::Int`. */
  type I64 = x: int | -0x8000_0000_0000_0000 <= x < 0x8000_0000_0000_0000

  /** A 64-bit float, kept as its bit pattern: the front end only moves
      floats from one place to another. */
  datatype F64 = F64(bits: bv64)

  /** An argument as written in the Runefile. */
  datatype Value = Int(i: I64) | Float(f: F64) | Str(s: string) | List(items: seq<Value>)

  /** The AST's literal kinds and argument values (`ast::Literal` without its
      source span, which the conversion always sets to `0..0`). */
  datatype LiteralKind = IntegerLit(i: I64) | FloatLit(f: F64) | StringLit(s: string)

  datatype ArgumentValue = LiteralArg(kind: LiteralKind) | ListArg(items: seq<string>)

  /** The inverse of `ToArgument`: the value an argument value came from,
      built the way the `From` impls build a `Value` from an integer, a
      float, a string or a list of values. */
  function FromArgument(a: ArgumentValue): Value {
    match a
    case LiteralArg(IntegerLit(i)) => Int(i)
    case LiteralArg(FloatLit(f)) => Float(f)
    case LiteralArg(StringLit(s)) => Str(s)
    case ListArg(items) => List(seq(|items|, k requires 0 <= k < |items| => Str(items[k])))
  }

  /** The strings of a list whose items are all strings; `None` stands for
      the `unimplemented!()` panic on the first item that is not. */
  function StringItems(items: seq<Value>): (r: Option<seq<string>>)
    ensures r.Some? <==> forall k :: 0 <= k < |items| ==> items[k].Str?
    ensures r.Some? ==> |r.value| == |items| && forall k :: 0 <= k < |items| ==> items[k] == Str(r.value[k])
  {
    if |items| == 0 then Some([])
    else
      match items[0]
      case Str(s) =>
        (match StringItems(items[1..])
         case Some(rest) =>
           assert forall k :: 1 <= k < |items| ==> items[k] == items[1..][k - 1];
           Some([s] + rest)
         case None =>
           assert forall k :: 0 <= k < |items| - 1 ==> items[1..][k] == items[k + 1];
           None)
      case _ => None
  }

  /** `From<Value> for ArgumentValue`: integers, floats and strings become
      literals, a list of strings becomes a list argument, and a list holding
      anything else panics (`None`). */
  function ToArgument(v: Value): (r: Option<ArgumentValue>)
    ensures r.None? <==> v.List? && exists k :: 0 <= k < |v.items| && !v.items[k].Str?
    ensures r.Some? ==> FromArgument(r.value) == v
    ensures r.Some? && v.List? ==> r.value.ListArg? && |r.value.items| == |v.items|
  {
    match v
    case Int(i) => Some(LiteralArg(IntegerLit(i)))
    case Float(f) => Some(LiteralArg(FloatLit(f)))
    case Str(s) => Some(LiteralArg(StringLit(s)))
    case List(items) =>
      match StringItems(items)
      case Some(strings) =>
        assert List(seq(|strings|, k requires 0 <= k < |strings| => Str(strings[k]))) == v;
        Some(ListArg(strings))
      case None => None
  }

  /** Converting back and forth loses nothing: every argument value is the
      conversion of the value it came from. */
  lemma ArgumentRoundTrip(a: ArgumentValue)
    ensures ToArgument(FromArgument(a)) == Some(a)
  {
    if a.ListArg? {
      var v := FromArgument(a);
      assert forall k :: 0 <= k < |v.items| ==> v.items[k] == Str(a.items[k]);
      var strings := StringItems(v.items).value;
      assert strings == a.items;
    }
  }

  /** The inverse of `ToParameters`: each argument turned back into a value. */
  function FromParameters(params: map<string, ArgumentValue>): (r: map<string, Value>)
    ensures r.Keys == params.Keys
  {
    map k | k in params :: FromArgument(params[k])
  }

  /** `to_parameters`: every argument converted on its own, under the same
      name. A panic on any argument is a panic of the whole conversion. */
  function ToParameters(args: map<string, Value>): (r: Option<map<string, ArgumentValue>>)
    ensures r.Some? <==> forall k :: k in args ==> ToArgument(args[k]).Some?
    ensures r.Some? ==> r.value.Keys == args.Keys
    ensures r.Some? ==> forall k :: k in args ==> Some(r.value[k]) == ToArgument(args[k])
    ensures r.Some? ==> FromParameters(r.value) == args
  {
    if forall k :: k in args ==> ToArgument(args[k]).Some? then
      var m := map k | k in args :: ToArgument(args[k]).value;
      assert FromParameters(m) == args;
      Some(m)
    else
      None
  }

  /** A tensor type declared on a stage's inputs or outputs. */
  datatype Type = Type(ty: string, dimensions: seq<nat>)

  /** A pipeline stage as written in the Runefile. */
  datatype Stage =
    | Model(model: string, inputs: seq<string>, outputs: seq<Type>)
    | ProcBlock(procBlock: Path, inputs: seq<string>, outputs: seq<Type>, args: map<string, Value>)
    | Capability(capability: string, outputs: seq<Type>, args: map<string, Value>)
    | Out(out: string, inputs: seq<string>, args: map<string, Value>)

  type HirId = nat

  /** A node of the high-level pipeline graph. */
  datatype HirStage =
    | HirModel(modelFile: string)
    | HirProcBlock(path: Path, parameters: map<string, ArgumentValue>)
    | Source(kind: string, parameters: map<string, ArgumentValue>)
    | Sink(kind: string)

  /** The part of the analysed Rune these steps build: the name table, the
      graph's nodes in insertion order, and the node of each id. */
  datatype Rune = Rune(names: map<string, HirId>, graph: seq<HirStage>, nodeOf: map<HirId, nat>)

  /** What a stage must become in the graph: a model stays a model, a proc
      block a proc block, a capability becomes a source and an output a sink;
      parameters convert back into the stage's arguments. An output's
      arguments are dropped. */
  ghost predicate Lowers(stage: Stage, node: HirStage) {
    match stage
    case Model(m, _, _) => node == HirModel(m)
    case ProcBlock(p, _, _, args) => node.HirProcBlock? && node.path == p && FromParameters(node.parameters) == args
    case Capability(c, _, args) => node.Source? && node.kind == c && FromParameters(node.parameters) == args
    case Out(o, _, _) => node == Sink(o)
  }

  /** The node `register_stages` builds for one stage; `None` when converting
      its arguments panics. */
  function Lower(stage: Stage): (r: Option<HirStage>)
    ensures r.None? <==> (stage.ProcBlock? || stage.Capability?) && ToParameters(stage.args).None?
    ensures r.Some? ==> Lowers(stage, r.value)
  {
    match stage
    case Model(m, _, _) => Some(HirModel(m))
    case ProcBlock(p, _, _, args) =>
      (match ToParameters(args)
       case Some(params) => Some(HirProcBlock(p, params))
       case None => None)
    case Capability(c, _, args) =>
      (match ToParameters(args)
       case Some(params) => Some(Source(c, params))
       case None => None)
    case Out(o, _, _) => Some(Sink(o))
  }

  /** `order` lists every key of the pipeline exactly once: the order in which
      the hash map happens to be iterated. */
  predicate Enumerates(order: seq<string>, keys: set<string>) {
    && (forall k :: 0 <= k < |order| ==> order[k] in keys)
    && (forall x :: x in keys ==> x in order)
    && (forall a, b :: 0 <= a < b < |order| ==> order[a] != order[b])
  }

  /** The names after registering `order`, in order, from id `next` on. */
  function Registered(names: map<string, HirId>, next: HirId, order: seq<string>): map<string, HirId>
  {
    if |order| == 0 then names
    else Registered(names, next, order[..|order| - 1])[order[|order| - 1] := next + |order| - 1]
  }

  /** Registering distinct names adds exactly those names, gives the `k`-th
      one id `next + k`, and leaves every other name's id alone. */
  lemma {:induction false} RegisteredFacts(names: map<string, HirId>, next: HirId, order: seq<string>)
    requires forall a, b :: 0 <= a < b < |order| ==> order[a] != order[b]
    ensures forall x :: x in Registered(names, next, order) <==> x in names || x in order
    ensures forall k :: 0 <= k < |order| ==> Registered(names, next, order)[order[k]] == next + k
    ensures forall n :: n in names && n !in order ==> Registered(names, next, order)[n] == names[n]
  {
    if |order| > 0 {
      var init := order[..|order| - 1];
      var last := order[|order| - 1];
      RegisteredFacts(names, next, init);
      assert order == init + [last];
      assert last !in init by {
        forall k | 0 <= k < |init| ensures init[k] != last {
          assert init[k] == order[k];
        }
      }
    }
  }

  /** Registering a pipeline's names in an order that enumerates them. */
  lemma RegisteredPipeline(names: map<string, HirId>, next: HirId, pipeline: map<string, Stage>, order: seq<string>)
    requires Enumerates(order, pipeline.Keys)
    ensures Registered(names, next, order).Keys == names.Keys + pipeline.Keys
    ensures forall k :: 0 <= k < |order| ==> Registered(names, next, order)[order[k]] == next + k
    ensures forall n :: n in names && n !in pipeline ==> Registered(names, next, order)[n] == names[n]
  {
    RegisteredFacts(names, next, order);
  }

  /** `Context::register_names`: each stage name, in iteration order, is
      registered under the next id the generator hands out. */
  method RegisterNames(rune: Rune, nextId: HirId, pipeline: map<string, Stage>, order: seq<string>)
    returns (r: Rune, next: HirId)
    requires Enumerates(order, pipeline.Keys)
    ensures next == nextId + |order|
    ensures r.names.Keys == rune.names.Keys + pipeline.Keys
    ensures forall k :: 0 <= k < |order| ==> r.names[order[k]] == nextId + k
    ensures forall n :: n in rune.names && n !in pipeline ==> r.names[n] == rune.names[n]
    ensures r.graph == rune.graph && r.nodeOf == rune.nodeOf
  {
    r := rune;
    next := nextId;
    var i := 0;
    while i < |order|
      invariant 0 <= i <= |order|
      invariant next == nextId + i
      invariant r == rune.(names := Registered(rune.names, nextId, order[..i]))
    {
      assert order[..i + 1][..i] == order[..i];
      r := r.(names := r.names[order[i] := next]);
      next := next + 1;
      i := i + 1;
    }
    assert order[..|order|] == order;
    RegisteredPipeline(rune.names, nextId, pipeline, order);
  }

  /** Different stages of the pipeline got different ids. */
  predicate DistinctIds(names: map<string, HirId>, order: seq<string>) {
    && (forall k :: 0 <= k < |order| ==> order[k] in names)
    && (forall a, b :: 0 <= a < b < |order| ==> names[order[a]] != names[order[b]])
  }

  /** The first `i` stages were named and lowered. */
  ghost predicate StagesLowered(rune: Rune, pipeline: map<string, Stage>, order: seq<string>, i: nat)
    requires (forall k :: 0 <= k < |order| ==> order[k] in pipeline) && i <= |order|
  {
    forall k :: 0 <= k < i ==> order[k] in rune.names && Lower(pipeline[order[k]]).Some?
  }

  /** The graph holds the nodes of the first `i` stages, in order, after
      the nodes it had. */
  ghost predicate GraphExtended(rune: Rune, graph: seq<HirStage>, pipeline: map<string, Stage>, order: seq<string>, i: nat)
    requires (forall k :: 0 <= k < |order| ==> order[k] in pipeline) && i <= |order|
  {
    && |graph| == |rune.graph| + i && graph[..|rune.graph|] == rune.graph
    && forall k :: 0 <= k < i ==> Lowers(pipeline[order[k]], graph[|rune.graph| + k])
  }

  /** The ids of the first `i` stages are mapped to their nodes. */
  ghost predicate NodesMapped(rune: Rune, nodeOf: map<HirId, nat>, order: seq<string>, i: nat)
    requires i <= |order| && forall k :: 0 <= k < i ==> order[k] in rune.names
  {
    && (forall k :: 0 <= k < i ==> rune.names[order[k]] in nodeOf)
    && (DistinctIds(rune.names, order) ==>
          forall k :: 0 <= k < i ==> nodeOf[rune.names[order[k]]] == |rune.graph| + k)
  }

  /** The ids of the first `i` stages. */
  function StageIds(names: map<string, HirId>, order: seq<string>, i: nat): set<HirId>
    requires i <= |order|
  {
    set k | 0 <= k < i && order[k] in names :: names[order[k]]
  }

  /** The node map gained exactly the ids of the first `i` stages; every
      other id keeps its node. */
  ghost predicate NodesFramed(rune: Rune, nodeOf: map<HirId, nat>, order: seq<string>, i: nat)
    requires i <= |order|
  {
    && nodeOf.Keys == rune.nodeOf.Keys + StageIds(rune.names, order, i)
    && forall id :: id in rune.nodeOf && id !in StageIds(rune.names, order, i) ==> nodeOf[id] == rune.nodeOf[id]
  }

  /** One more stage adds its id and nothing else. */
  lemma StageIdsStep(names: map<string, HirId>, order: seq<string>, i: nat)
    requires i < |order| && order[i] in names
    ensures StageIds(names, order, i + 1) == StageIds(names, order, i) + {names[order[i]]}
  {
    assert names[order[i]] in StageIds(names, order, i + 1);
  }

  /** Recording stage `i`'s id keeps the node map framed. */
  lemma FramedStep(rune: Rune, nodeOf: map<HirId, nat>, order: seq<string>, i: nat, node: nat)
    requires i < |order| && order[i] in rune.names
    requires NodesFramed(rune, nodeOf, order, i)
    ensures NodesFramed(rune, nodeOf[rune.names[order[i]] := node], order, i + 1)
  {
    StageIdsStep(rune.names, order, i);
  }

  /** When the order lists every name exactly, the stages' ids are all the
      ids the names hold. */
  lemma StageIdsAreValues(names: map<string, HirId>, order: seq<string>)
    requires Enumerates(order, names.Keys)
    ensures StageIds(names, order, |order|) == names.Values
  {
    forall id | id in names.Values
      ensures id in StageIds(names, order, |order|)
    {
      var n :| n in names && names[n] == id;
      var k :| 0 <= k < |order| && order[k] == n;
    }
  }

  /** Appending the node of stage `i` extends the graph by that stage. */
  lemma GraphStep(rune: Rune, graph: seq<HirStage>, pipeline: map<string, Stage>, order: seq<string>, i: nat, node: HirStage)
    requires (forall k :: 0 <= k < |order| ==> order[k] in pipeline) && i < |order|
    requires GraphExtended(rune, graph, pipeline, order, i)
    requires Lowers(pipeline[order[i]], node)
    ensures GraphExtended(rune, graph + [node], pipeline, order, i + 1)
  {
    var next := graph + [node];
    var g := |rune.graph|;
    assert next[..g] == graph[..g];
    forall k | 0 <= k < i + 1
      ensures Lowers(pipeline[order[k]], next[g + k])
    {
      if k < i {
        assert next[g + k] == graph[g + k];
      }
    }
  }

  /** Mapping the id of stage `i` to the next node keeps the earlier ids
      mapped. */
  lemma NodesStep(rune: Rune, nodeOf: map<HirId, nat>, order: seq<string>, i: nat)
    requires i < |order| && forall k :: 0 <= k <= i ==> order[k] in rune.names
    requires NodesMapped(rune, nodeOf, order, i)
    ensures NodesMapped(rune, nodeOf[rune.names[order[i]] := |rune.graph| + i], order, i + 1)
  {
    if DistinctIds(rune.names, order) {
      assert forall k :: 0 <= k < i ==> rune.names[order[k]] != rune.names[order[i]];
    }
  }

  /** Registering stage `i` keeps the graph extended and the node map both
      mapped and framed. */
  lemma RegisterStep(rune: Rune, cur: Rune, pipeline: map<string, Stage>, order: seq<string>, i: nat, node: HirStage)
    requires (forall k :: 0 <= k < |order| ==> order[k] in pipeline) && i < |order|
    requires StagesLowered(rune, pipeline, order, i) && order[i] in rune.names
    requires cur.names == rune.names
    requires GraphExtended(rune, cur.graph, pipeline, order, i)
    requires NodesMapped(rune, cur.nodeOf, order, i)
    requires NodesFramed(rune, cur.nodeOf, order, i)
    requires Lowers(pipeline[order[i]], node)
    ensures var next := cur.nodeOf[cur.names[order[i]] := |cur.graph|];
            && GraphExtended(rune, cur.graph + [node], pipeline, order, i + 1)
            && NodesMapped(rune, next, order, i + 1)
            && NodesFramed(rune, next, order, i + 1)
  {
    GraphStep(rune, cur.graph, pipeline, order, i, node);
    NodesStep(rune, cur.nodeOf, order, i);
    FramedStep(rune, cur.nodeOf, order, i, |cur.graph|);
  }

  /** `Context::register_stages`: each stage, in iteration order, is lowered
      to a node appended to the graph and recorded under its name's id.
      `None` stands for a panic: a name that was never registered, or
      arguments that do not convert. */
  method RegisterStages(rune: Rune, pipeline: map<string, Stage>, order: seq<string>)
    returns (r: Option<Rune>)
    requires (forall k :: 0 <= k < |order| ==> order[k] in pipeline)
    ensures r.None? <==> exists k :: 0 <= k < |order| && (order[k] !in rune.names || Lower(pipeline[order[k]]).None?)
    ensures r.Some? ==> r.value.names == rune.names
    ensures r.Some? ==> StagesLowered(rune, pipeline, order, |order|)
    ensures r.Some? ==> GraphExtended(rune, r.value.graph, pipeline, order, |order|)
    ensures r.Some? ==> NodesMapped(rune, r.value.nodeOf, order, |order|)
    ensures r.Some? ==> NodesFramed(rune, r.value.nodeOf, order, |order|)
  {
    var cur := rune;
    var i := 0;
    while i < |order|
      invariant 0 <= i <= |order|
      invariant StagesLowered(rune, pipeline, order, i)
      invariant cur.names == rune.names
      invariant GraphExtended(rune, cur.graph, pipeline, order, i)
      invariant NodesMapped(rune, cur.nodeOf, order, i)
      invariant NodesFramed(rune, cur.nodeOf, order, i)
    {
      var name := order[i];
      if name !in cur.names {
        return None;
      }
      var id := cur.names[name];
      var node := Lower(pipeline[name]);
      if node.None? {
        return None;
      }
      RegisterStep(rune, cur, pipeline, order, i, node.value);
      cur := Rune(cur.names, cur.graph + [node.value], cur.nodeOf[id := |cur.graph|]);
      i := i + 1;
    }
    r := Some(cur);
  }

  /** The two registration steps run back to back on a fresh Rune, as
      `analyse` runs them: every stage gets an id and a node, and only
      arguments that do not convert can stop it. */
  method RegisterPipeline(firstId: HirId, pipeline: map<string, Stage>, order: seq<string>)
    returns (r: Option<Rune>)
    requires Enumerates(order, pipeline.Keys)
    ensures r.None? <==> exists k :: 0 <= k < |order| && Lower(pipeline[order[k]]).None?
    ensures r.Some? ==> r.value.names.Keys == pipeline.Keys && |r.value.graph| == |order|
    ensures r.Some? ==> forall name :: name in pipeline ==>
              && r.value.names[name] in r.value.nodeOf
              && r.value.nodeOf[r.value.names[name]] < |r.value.graph|
              && Lowers(pipeline[name], r.value.graph[r.value.nodeOf[r.value.names[name]]])
    ensures r.Some? ==> r.value.nodeOf.Keys == r.value.names.Values
  {
    var named, _ := RegisterNames(Rune(map[], [], map[]), firstId, pipeline, order);
    assert named.nodeOf == map[] && named.graph == [] && named.names.Keys == pipeline.Keys;
    assert DistinctIds(named.names, order);
    r := RegisterStages(named, pipeline, order);
    if r.Some? {
      var cur := r.value;
      EveryStageReachable(named, cur, pipeline, order);
      NodesAreStages(named, cur, pipeline, order);
    }
  }

  /** Starting from an empty node map, the ids mapped afterwards are
      exactly the ids the stages' names hold. */
  lemma NodesAreStages(named: Rune, cur: Rune, pipeline: map<string, Stage>, order: seq<string>)
    requires Enumerates(order, pipeline.Keys)
    requires named.nodeOf == map[] && named.names.Keys == pipeline.Keys
    requires NodesFramed(named, cur.nodeOf, order, |order|)
    requires cur.names == named.names
    ensures cur.nodeOf.Keys == cur.names.Values
  {
    StageIdsAreValues(named.names, order);
  }

  /** When the stages got distinct ids on an empty graph, every stage's id
      leads to the node it was lowered to. */
  lemma EveryStageReachable(named: Rune, cur: Rune, pipeline: map<string, Stage>, order: seq<string>)
    requires Enumerates(order, pipeline.Keys)
    requires named.graph == [] && DistinctIds(named.names, order)
    requires GraphExtended(named, cur.graph, pipeline, order, |order|)
    requires NodesMapped(named, cur.nodeOf, order, |order|)
    requires cur.names == named.names
    ensures forall name :: name in pipeline ==>
              && cur.names[name] in cur.nodeOf
              && cur.nodeOf[cur.names[name]] < |cur.graph|
              && Lowers(pipeline[name], cur.graph[cur.nodeOf[cur.names[name]]])
  {
    forall name | name in pipeline
      ensures && cur.names[name] in cur.nodeOf
              && cur.nodeOf[cur.names[name]] < |cur.graph|
              && Lowers(pipeline[name], cur.graph[cur.nodeOf[cur.names[name]]])
    {
      var k :| 0 <= k < |order| && order[k] == name;
      assert cur.nodeOf[named.names[order[k]]] == k;
    }
  }
}
