/** Validation of a capsule's step list: field checks, known dependencies, no cycles. */
module StepValidator {
  import opened Wrappers
  import opened Sequences
  import opened StepGraphs
  import opened DepthFirst

  /** A `depends_on` field: absent, one name given as a plain string, or a list of names. */
  datatype DependsOn = Absent | One(dep: Name) | Many(deps: seq<Name>)

  datatype RawStep = RawStep(name: Option<Name>, hasTool: bool, dependsOn: DependsOn)

  datatype Step = Step(name: Name, dependsOn: DependsOn) {
    function Listed(): seq<Name> {
      match dependsOn
      case Absent => []
      case One(dep) => [dep]
      case Many(deps) => deps
    }
  }

  datatype ValidationError =
    | BadStepCount
    | MissingName(index: nat)
    | MissingTool(index: nat)
    | DuplicateNames
    | UnknownDependency(step: Name, dep: Name)
    | CircularDependency

  datatype Result<+T> = Ok(value: T) | Err(error: ValidationError)

  const MAX_STEPS := 100

  function Names(steps: seq<Step>): seq<Name> {
    seq(|steps|, i requires 0 <= i < |steps| => steps[i].name)
  }

  /** The adjacency dictionary: a later step of the same name replaces an earlier one. */
  function GraphOf(steps: seq<Step>): Graph {
    if steps == [] then map[]
    else
      var last := steps[|steps| - 1];
      GraphOf(steps[..|steps| - 1])[last.name := last.Listed()]
  }

  ghost predicate DependenciesKnown(steps: seq<Step>) {
    forall s, d :: s in steps && d in s.Listed() ==> d in Names(steps)
  }

  ghost predicate WellFormed(raw: seq<RawStep>) {
    && 1 <= |raw| <= MAX_STEPS
    && (forall i :: 0 <= i < |raw| ==> raw[i].name.Some? && raw[i].hasTool)
  }

  function StepsOf(raw: seq<RawStep>): seq<Step>
    requires forall i :: 0 <= i < |raw| ==> raw[i].name.Some?
  {
    seq(|raw|, i requires 0 <= i < |raw| => Step(raw[i].name.value, raw[i].dependsOn))
  }

  /** What a caller is promised: unique names, known dependencies, and an order to run all steps in. */
  ghost predicate Runnable(steps: seq<Step>) {
    Distinct(Names(steps)) && DependenciesKnown(steps) && Orderable(GraphOf(steps))
  }

  lemma NamesGrow(steps: seq<Step>)
    requires steps != []
    ensures Names(steps) == Names(steps[..|steps| - 1]) + [steps[|steps| - 1].name]
    ensures Distinct(Names(steps)) ==> Distinct(Names(steps[..|steps| - 1])) && steps[|steps| - 1].name !in Names(steps[..|steps| - 1])
  {
    var init, all := Names(steps[..|steps| - 1]), Names(steps);
    assert all == init + [steps[|steps| - 1].name];
    if Distinct(all) {
      assert forall i, j :: 0 <= i < j < |init| ==> init[i] == all[i] && init[j] == all[j];
      assert forall i :: 0 <= i < |init| ==> init[i] == all[i] && all[i] != all[|init|];
    }
  }

  lemma {:induction false} GraphKeys(steps: seq<Step>)
    ensures GraphOf(steps).Keys == ToSet(Names(steps))
  {
    if steps != [] {
      GraphKeys(steps[..|steps| - 1]);
      NamesGrow(steps);
      ToSetAppend(Names(steps[..|steps| - 1]), steps[|steps| - 1].name);
    }
  }

  lemma NameOf(steps: seq<Step>, i: nat)
    requires i < |steps|
    ensures steps[i].name in Names(steps)
  {
    assert Names(steps)[i] == steps[i].name;
  }

  /** With unique names every step's own list is what the graph holds for it. */
  lemma {:induction false} GraphHoldsEveryStep(steps: seq<Step>, i: nat)
    requires Distinct(Names(steps)) && i < |steps|
    ensures Targets(GraphOf(steps), steps[i].name) == steps[i].Listed()
  {
    var init := steps[..|steps| - 1];
    NamesGrow(steps);
    if i < |init| {
      assert steps[i] == init[i];
      NameOf(init, i);
      GraphHoldsEveryStep(init, i);
    }
  }

  /** Whatever the graph holds for a name was listed by a step of that name. */
  lemma {:induction false} GraphComesFromSteps(steps: seq<Step>, n: Name)
    requires n in GraphOf(steps)
    ensures exists i :: 0 <= i < |steps| && steps[i].name == n && GraphOf(steps)[n] == steps[i].Listed()
  {
    var init, last := steps[..|steps| - 1], steps[|steps| - 1];
    if n == last.name {
      assert steps[|steps| - 1].name == n;
    } else {
      GraphComesFromSteps(init, n);
      var i :| 0 <= i < |init| && init[i].name == n && GraphOf(init)[n] == init[i].Listed();
      assert steps[i] == init[i];
    }
  }

  /** When dependencies are known the nodes of the graph are exactly the step names. */
  lemma KnownNodes(steps: seq<Step>)
    requires DependenciesKnown(steps)
    ensures Nodes(GraphOf(steps)) == ToSet(Names(steps))
  {
    GraphKeys(steps);
    forall n, t | n in GraphOf(steps) && t in GraphOf(steps)[n]
      ensures t in Names(steps)
    {
      GraphComesFromSteps(steps, n);
      var i :| 0 <= i < |steps| && steps[i].name == n && GraphOf(steps)[n] == steps[i].Listed();
      assert steps[i] in steps && t in steps[i].Listed();
    }
  }

  method BuildGraph(steps: seq<Step>) returns (graph: Graph)
    ensures graph == GraphOf(steps)
  {
    graph := map[];
    for i := 0 to |steps|
      invariant graph == GraphOf(steps[..i])
    {
      assert steps[..i + 1][..i] == steps[..i];
      graph := graph[steps[i].name := steps[i].Listed()];
    }
    assert steps[..|steps|] == steps;
  }

  lemma KeysAreEntered(steps: seq<Step>, visited: set<Name>)
    requires forall j :: 0 <= j < |steps| ==> steps[j].name in visited
    ensures GraphOf(steps).Keys <= visited
  {
    forall n | n in GraphOf(steps)
      ensures n in visited
    {
      GraphComesFromSteps(steps, n);
    }
  }

  lemma CanStart(steps: seq<Step>, t: Trail, i: nat)
    requires i < |steps| && t.path == [] && steps[i].name !in t.entered
    ensures CanEnter(GraphOf(steps), t, steps[i].name)
  {
    NameOf(steps, i);
    GraphKeys(steps);
  }

  /**
   * Raises exactly on cyclic graphs, whatever the step list, unknown or repeated names included.
   * When it does not raise, the finishing order is a complete topological order, each node was
   * entered once and each listed dependency was examined once.
   */
  method CheckCircularDependencies(steps: seq<Step>) returns (circular: bool, ghost trail: Trail)
    ensures circular <==> Cyclic(GraphOf(steps))
    ensures circular <==> !Orderable(GraphOf(steps))
    ensures Affordable(GraphOf(steps), trail)
    ensures !circular ==> TopologicalOrder(GraphOf(steps), trail.finished)
    ensures !circular ==> ToSet(trail.entered) == Nodes(GraphOf(steps))
    ensures !circular ==> ToSet(trail.examined) == Slots(GraphOf(steps))
  {
    var graph := BuildGraph(steps);
    var search := new DepthFirstSearch(graph);
    for i := 0 to |steps|
      invariant search.Valid() && search.trail.path == []
      invariant forall j :: 0 <= j < i ==> steps[j].name in search.visited
    {
      if steps[i].name !in search.visited {
        CanStart(steps, search.trail, i);
        ghost var before := search.trail;
        var found := search.Dfs(steps[i].name);
        if found {
          CyclicIsUnorderable(graph);
          return true, search.trail;
        }
        PrefixMembers(before.entered, search.trail.entered);
      }
    }
    KeysAreEntered(steps, search.visited);
    EverythingFinished(graph, search.trail);
    CyclicIsUnorderable(graph);
    return false, search.trail;
  }

  function TotalListed(steps: seq<Step>): nat {
    if steps == [] then 0 else TotalListed(steps[..|steps| - 1]) + |steps[|steps| - 1].Listed()|
  }

  lemma {:induction false} SlotsOfList(n: Name, k: nat)
    ensures |set i: nat | i < k :: (n, i)| == k
  {
    if k > 0 {
      SlotsOfList(n, k - 1);
      assert (set i: nat | i < k :: (n, i)) == (set i: nat | i < k - 1 :: (n, i)) + {(n, k - 1)};
    }
  }

  lemma {:induction false} SlotsAreListed(steps: seq<Step>)
    ensures |Slots(GraphOf(steps))| <= TotalListed(steps)
  {
    if steps == [] {
      assert Slots(GraphOf(steps)) == {};
    } else {
      var init, last := steps[..|steps| - 1], steps[|steps| - 1];
      SlotsAreListed(init);
      var added := set i: nat | i < |last.Listed()| :: (last.name, i);
      SlotsOfList(last.name, |last.Listed()|);
      SubsetSize(Slots(GraphOf(steps)), Slots(GraphOf(init)) + added);
    }
  }

  /** The cost of the search is linear: at most one entry per node and one look per listed dependency. */
  lemma SearchIsLinear(steps: seq<Step>, t: Trail)
    requires Affordable(GraphOf(steps), t)
    ensures |t.entered| <= |Nodes(GraphOf(steps))|
    ensures |t.examined| <= TotalListed(steps)
  {
    ToSetSize(t.entered);
    ToSetSize(t.examined);
    SubsetSize(ToSet(t.entered), Nodes(GraphOf(steps)));
    SubsetSize(ToSet(t.examined), Slots(GraphOf(steps)));
    SlotsAreListed(steps);
  }

  /** Entry `j` of step `i` is unknown and everything listed before it is known. */
  ghost predicate FirstUnknown(steps: seq<Step>, i: int, j: int) {
    && 0 <= i < |steps| && 0 <= j < |steps[i].Listed()|
    && steps[i].Listed()[j] !in Names(steps)
    && (forall k, l :: 0 <= k < i && 0 <= l < |steps[k].Listed()| ==> steps[k].Listed()[l] in Names(steps))
    && (forall l :: 0 <= l < j ==> steps[i].Listed()[l] in Names(steps))
  }

  /** Accepts exactly the lists whose dependencies are all known and that some order can run; an unknown one is reported first in list order. */
  method ValidateStepDependencies(steps: seq<Step>) returns (r: Result<()>, ghost trail: Trail)
    ensures r.Ok? <==> DependenciesKnown(steps) && Orderable(GraphOf(steps))
    ensures r.Ok? ==> Distinct(trail.finished) && ToSet(trail.finished) == ToSet(Names(steps))
    ensures r.Ok? ==> DependenciesFirst(GraphOf(steps), trail.finished)
    ensures r.Err? && !r.error.UnknownDependency? ==> r.error.CircularDependency? && DependenciesKnown(steps) && Cyclic(GraphOf(steps))
    ensures r.Err? && r.error.UnknownDependency? ==>
              exists i, j :: FirstUnknown(steps, i, j) && r.error == UnknownDependency(steps[i].name, steps[i].Listed()[j])
    ensures trail.deepest <= |steps|
  {
    var stepNames := ToSet(Names(steps));
    trail := START;
    for i := 0 to |steps|
      invariant trail.deepest == 0
      invariant forall k, l :: 0 <= k < i && 0 <= l < |steps[k].Listed()| ==> steps[k].Listed()[l] in stepNames
    {
      var dependsOn := steps[i].Listed();
      for j := 0 to |dependsOn|
        invariant forall l :: 0 <= l < j ==> dependsOn[l] in stepNames
      {
        if dependsOn[j] !in stepNames {
          assert FirstUnknown(steps, i, j);
          assert steps[i] in steps && dependsOn[j] in steps[i].Listed();
          return Err(UnknownDependency(steps[i].name, dependsOn[j])), trail;
        }
      }
    }
    var circular;
    circular, trail := CheckCircularDependencies(steps);
    KnownNodes(steps);
    ToSetSize(Names(steps));
    if circular {
      return Err(CircularDependency), trail;
    }
    return Ok(()), trail;
  }

  /** The first field to fail is that of step `i`. */
  ghost predicate FirstBadField(raw: seq<RawStep>, i: nat) {
    i < |raw| && forall k :: 0 <= k < i ==> raw[k].name.Some? && raw[k].hasTool
  }

  ghost predicate FieldsFine(raw: seq<RawStep>) {
    && 1 <= |raw| <= 100
    && (forall i :: 0 <= i < |raw| ==> raw[i].name.Some? && raw[i].hasTool)
  }

  /** The field checks: between one and a hundred steps, each with a name and a tool, no name twice. */
  method ValidateSteps(raw: seq<RawStep>) returns (r: Result<seq<Step>>)
    ensures r.Ok? <==> WellFormed(raw) && Distinct(Names(StepsOf(raw)))
    ensures r.Ok? ==> r.value == StepsOf(raw)
    ensures r.Err? ==>
              match r.error
              case BadStepCount => |raw| < 1 || |raw| > 100
              case MissingName(i) => 1 <= |raw| <= 100 && FirstBadField(raw, i) && raw[i].name.None?
              case MissingTool(i) => 1 <= |raw| <= 100 && FirstBadField(raw, i) && raw[i].name.Some? && !raw[i].hasTool
              case DuplicateNames => FieldsFine(raw) && !Distinct(Names(StepsOf(raw)))
              case _ => false
  {
    if |raw| < 1 || |raw| > MAX_STEPS {
      return Err(BadStepCount);
    }
    for i := 0 to |raw|
      invariant forall k :: 0 <= k < i ==> raw[k].name.Some? && raw[k].hasTool
    {
      if raw[i].name.None? {
        return Err(MissingName(i));
      }
      if !raw[i].hasTool {
        return Err(MissingTool(i));
      }
    }
    var stepNames := Names(StepsOf(raw));
    ToSetSize(stepNames);
    if |stepNames| != |ToSet(stepNames)| {
      return Err(DuplicateNames);
    }
    return Ok(StepsOf(raw));
  }

  /** The field names `d`: as a plain string, or in a list. */
  predicate Mentions(dependsOn: DependsOn, d: Name) {
    dependsOn == One(d) || (dependsOn.Many? && d in dependsOn.deps)
  }

  ghost predicate Named(raw: seq<RawStep>, n: Name) {
    exists i :: 0 <= i < |raw| && raw[i].name == Some(n)
  }

  ghost predicate Before(order: seq<Name>, d: Name, n: Name) {
    exists p, q :: 0 <= p < q < |order| && order[p] == d && order[q] == n
  }

  /** Every step once, and whatever a step mentions before the step. */
  ghost predicate RunsAll(raw: seq<RawStep>, order: seq<Name>) {
    && Distinct(order)
    && (forall n :: n in order <==> Named(raw, n))
    && (forall i, d :: 0 <= i < |raw| && raw[i].name.Some? && Mentions(raw[i].dependsOn, d) ==> Before(order, d, raw[i].name.value))
  }

  /** All that validation of the step list promises, in terms of what was written. */
  ghost predicate Promised(raw: seq<RawStep>) {
    && 1 <= |raw| <= 100
    && (forall i :: 0 <= i < |raw| ==> raw[i].name.Some? && raw[i].hasTool)
    && (forall i, j :: 0 <= i < j < |raw| ==> raw[i].name != raw[j].name)
    && (exists order :: RunsAll(raw, order))
  }

  /** Some step called `n` lists `d`. */
  ghost predicate Depends(steps: seq<Step>, n: Name, d: Name) {
    exists i :: 0 <= i < |steps| && steps[i].name == n && d in steps[i].Listed()
  }

  /** Two step lists with the same names and the same dependencies, in whatever order and form these are listed. */
  ghost predicate SameDependencies(a: seq<Step>, b: seq<Step>) {
    && |a| == |b|
    && ToSet(Names(a)) == ToSet(Names(b))
    && (forall n, d :: Depends(a, n, d) <==> Depends(b, n, d))
  }

  lemma EdgesAreDependencies(steps: seq<Step>, n: Name, d: Name)
    requires Distinct(Names(steps))
    ensures Edge(GraphOf(steps), n, d) <==> Depends(steps, n, d)
  {
    if Depends(steps, n, d) {
      var i :| 0 <= i < |steps| && steps[i].name == n && d in steps[i].Listed();
      GraphHoldsEveryStep(steps, i);
    }
    if Edge(GraphOf(steps), n, d) {
      GraphComesFromSteps(steps, n);
    }
  }

  lemma KnownMeansNamed(steps: seq<Step>)
    ensures DependenciesKnown(steps) <==> forall n, d :: Depends(steps, n, d) ==> d in ToSet(Names(steps))
  {
    if DependenciesKnown(steps) {
      forall n, d | Depends(steps, n, d)
        ensures d in ToSet(Names(steps))
      {
        var i :| 0 <= i < |steps| && steps[i].name == n && d in steps[i].Listed();
        assert steps[i] in steps;
      }
    }
    if forall n, d :: Depends(steps, n, d) ==> d in ToSet(Names(steps)) {
      forall s, d | s in steps && d in s.Listed()
        ensures d in Names(steps)
      {
        assert Depends(steps, s.name, d);
      }
    }
  }

  lemma MentionsListed(step: Step, d: Name)
    ensures d in step.Listed() <==> Mentions(step.dependsOn, d)
  {
  }

  lemma NamedIff(raw: seq<RawStep>, n: Name)
    requires forall i :: 0 <= i < |raw| ==> raw[i].name.Some?
    ensures n in Names(StepsOf(raw)) <==> Named(raw, n)
  {
    if n in Names(StepsOf(raw)) {
      var i :| 0 <= i < |raw| && Names(StepsOf(raw))[i] == n;
      assert raw[i].name == Some(n);
    }
    if Named(raw, n) {
      var i :| 0 <= i < |raw| && raw[i].name == Some(n);
      NameOf(StepsOf(raw), i);
    }
  }

  lemma DistinctNamesIff(raw: seq<RawStep>)
    requires forall i :: 0 <= i < |raw| ==> raw[i].name.Some?
    ensures Distinct(Names(StepsOf(raw))) <==> forall i, j :: 0 <= i < j < |raw| ==> raw[i].name != raw[j].name
  {
    var names := Names(StepsOf(raw));
    assert forall i :: 0 <= i < |raw| ==> raw[i].name == Some(names[i]);
    if !Distinct(names) {
      var i, j :| 0 <= i < j < |names| && names[i] == names[j];
      assert raw[i].name == raw[j].name;
    }
  }

  lemma BeforeIsPrefix(order: seq<Name>, d: Name, q: nat)
    requires Distinct(order) && q < |order|
    ensures Before(order, d, order[q]) <==> d in order[..q]
  {
    if d in order[..q] {
      var p :| 0 <= p < q && order[..q][p] == d;
      assert order[p] == d;
    }
  }

  lemma MentionIsEdge(raw: seq<RawStep>, i: nat, d: Name)
    requires (forall j :: 0 <= j < |raw| ==> raw[j].name.Some?) && Distinct(Names(StepsOf(raw))) && i < |raw|
    ensures Edge(GraphOf(StepsOf(raw)), raw[i].name.value, d) <==> Mentions(raw[i].dependsOn, d)
  {
    GraphHoldsEveryStep(StepsOf(raw), i);
    MentionsListed(StepsOf(raw)[i], d);
  }

  lemma EdgeIsMention(raw: seq<RawStep>, n: Name, d: Name) returns (i: nat)
    requires (forall j :: 0 <= j < |raw| ==> raw[j].name.Some?) && Edge(GraphOf(StepsOf(raw)), n, d)
    ensures i < |raw| && raw[i].name == Some(n) && Mentions(raw[i].dependsOn, d)
  {
    var steps := StepsOf(raw);
    GraphComesFromSteps(steps, n);
    i :| 0 <= i < |steps| && steps[i].name == n && GraphOf(steps)[n] == steps[i].Listed();
    MentionsListed(steps[i], d);
  }

  /** An order that runs everything makes dependencies known and is a topological order. */
  lemma RunningOrderIsTopological(raw: seq<RawStep>, order: seq<Name>)
    requires (forall i :: 0 <= i < |raw| ==> raw[i].name.Some?) && Distinct(Names(StepsOf(raw))) && RunsAll(raw, order)
    ensures DependenciesKnown(StepsOf(raw)) && TopologicalOrder(GraphOf(StepsOf(raw)), order)
  {
    var steps := StepsOf(raw);
    forall s, d | s in steps && d in s.Listed()
      ensures d in Names(steps)
    {
      var i :| 0 <= i < |steps| && steps[i] == s;
      MentionsListed(s, d);
      assert Before(order, d, raw[i].name.value);
      assert d in order;
      NamedIff(raw, d);
    }
    KnownNodes(steps);
    forall n
      ensures n in order <==> n in Names(steps)
    {
      NamedIff(raw, n);
    }
    forall q, d | 0 <= q < |order| && Edge(GraphOf(steps), order[q], d)
      ensures d in order[..q]
    {
      var i := EdgeIsMention(raw, order[q], d);
      BeforeIsPrefix(order, d, q);
    }
  }

  /** A topological order of known dependencies runs everything. */
  lemma TopologicalOrderRuns(raw: seq<RawStep>, order: seq<Name>)
    requires (forall i :: 0 <= i < |raw| ==> raw[i].name.Some?) && Distinct(Names(StepsOf(raw)))
    requires DependenciesKnown(StepsOf(raw)) && TopologicalOrder(GraphOf(StepsOf(raw)), order)
    ensures RunsAll(raw, order)
  {
    var steps := StepsOf(raw);
    KnownNodes(steps);
    forall n
      ensures n in order <==> Named(raw, n)
    {
      NamedIff(raw, n);
      assert n in order <==> n in ToSet(order);
    }
    forall i, d | 0 <= i < |raw| && Mentions(raw[i].dependsOn, d)
      ensures Before(order, d, raw[i].name.value)
    {
      MentionIsEdge(raw, i, d);
      assert Named(raw, raw[i].name.value);
      var q :| 0 <= q < |order| && order[q] == raw[i].name.value;
      BeforeIsPrefix(order, d, q);
    }
  }

  lemma PromisedIff(raw: seq<RawStep>)
    ensures Promised(raw) <==> WellFormed(raw) && Runnable(StepsOf(raw))
  {
    if WellFormed(raw) {
      DistinctNamesIff(raw);
      if Promised(raw) {
        var order :| RunsAll(raw, order);
        RunningOrderIsTopological(raw, order);
      }
      if Runnable(StepsOf(raw)) {
        var order :| TopologicalOrder(GraphOf(StepsOf(raw)), order);
        TopologicalOrderRuns(raw, order);
      }
    }
  }

  ghost predicate AllMentionsKnown(raw: seq<RawStep>, upto: nat)
    requires upto <= |raw|
  {
    forall k, d :: 0 <= k < upto && Mentions(raw[k].dependsOn, d) ==> Named(raw, d)
  }

  ghost predicate FirstUnknownAt(raw: seq<RawStep>, deps: seq<Name>, j: int, d: Name) {
    0 <= j < |deps| && deps[j] == d && forall l :: 0 <= l < j ==> Named(raw, deps[l])
  }

  /** Step `i` mentions `d`, which is no step's name, and everything mentioned before, in list order, is. */
  ghost predicate FirstUnknownMention(raw: seq<RawStep>, i: nat, d: Name) {
    && i < |raw| && !Named(raw, d) && AllMentionsKnown(raw, i)
    && (|| raw[i].dependsOn == One(d)
        || (raw[i].dependsOn.Many? && exists j :: FirstUnknownAt(raw, raw[i].dependsOn.deps, j, d)))
  }

  ghost predicate NamesFine(raw: seq<RawStep>) {
    FieldsFine(raw) && forall i, j :: 0 <= i < j < |raw| ==> raw[i].name != raw[j].name
  }

  /** The answer to a step list, error by error, in terms of what was written. */
  ghost predicate Answers(raw: seq<RawStep>, error: Option<ValidationError>) {
    match error
    case None => Promised(raw)
    case Some(BadStepCount) => |raw| < 1 || |raw| > 100
    case Some(MissingName(i)) => 1 <= |raw| <= 100 && FirstBadField(raw, i) && raw[i].name.None?
    case Some(MissingTool(i)) => 1 <= |raw| <= 100 && FirstBadField(raw, i) && raw[i].name.Some? && !raw[i].hasTool
    case Some(DuplicateNames) => FieldsFine(raw) && exists i, j :: 0 <= i < j < |raw| && raw[i].name == raw[j].name
    case Some(UnknownDependency(n, d)) =>
      NamesFine(raw) && exists i: nat :: FirstUnknownMention(raw, i, d) && raw[i].name == Some(n)
    case Some(CircularDependency) => NamesFine(raw) && AllMentionsKnown(raw, |raw|) && !Promised(raw)
  }

  lemma KnownMentions(raw: seq<RawStep>)
    requires forall i :: 0 <= i < |raw| ==> raw[i].name.Some?
    ensures DependenciesKnown(StepsOf(raw)) <==> AllMentionsKnown(raw, |raw|)
  {
    var steps := StepsOf(raw);
    if DependenciesKnown(steps) {
      forall k, d | 0 <= k < |raw| && Mentions(raw[k].dependsOn, d)
        ensures Named(raw, d)
      {
        MentionsListed(steps[k], d);
        assert steps[k] in steps;
        NamedIff(raw, d);
      }
    }
    if AllMentionsKnown(raw, |raw|) {
      forall s, d | s in steps && d in s.Listed()
        ensures d in Names(steps)
      {
        var i :| 0 <= i < |steps| && steps[i] == s;
        MentionsListed(s, d);
        assert Mentions(raw[i].dependsOn, d);
        NamedIff(raw, d);
      }
    }
  }

  lemma ManyListsAll(step: Step)
    requires step.dependsOn.Many?
    ensures step.Listed() == step.dependsOn.deps
  {
  }

  lemma UnknownIsFirst(raw: seq<RawStep>, i: nat, j: nat)
    requires (forall k :: 0 <= k < |raw| ==> raw[k].name.Some?) && FirstUnknown(StepsOf(raw), i, j)
    ensures FirstUnknownMention(raw, i, StepsOf(raw)[i].Listed()[j])
  {
    var steps := StepsOf(raw);
    var d := steps[i].Listed()[j];
    NamedIff(raw, d);
    forall k, e | 0 <= k < i && Mentions(raw[k].dependsOn, e)
      ensures Named(raw, e)
    {
      MentionsListed(steps[k], e);
      var l :| 0 <= l < |steps[k].Listed()| && steps[k].Listed()[l] == e;
      NamedIff(raw, e);
    }
    MentionsListed(steps[i], d);
    if raw[i].dependsOn.Many? {
      var deps := raw[i].dependsOn.deps;
      ManyListsAll(steps[i]);
      forall l | 0 <= l < j
        ensures Named(raw, deps[l])
      {
        NamedIff(raw, deps[l]);
      }
      assert FirstUnknownAt(raw, deps, j, d);
    }
  }

  /** Schema check followed by dependency check, as the complete validation runs them. */
  method ValidateStepList(raw: seq<RawStep>) returns (r: Result<seq<Step>>, ghost order: seq<Name>)
    ensures r.Ok? <==> WellFormed(raw) && Runnable(StepsOf(raw))
    ensures Answers(raw, if r.Ok? then None else Some(r.error))
    ensures r.Ok? ==> r.value == StepsOf(raw) && RunsAll(raw, order)
    ensures r.Ok? ==> TopologicalOrder(GraphOf(r.value), order) && |order| == |raw|
  {
    order := [];
    PromisedIff(raw);
    r := ValidateSteps(raw);
    if r.Ok? {
      DistinctNamesIff(raw);
      KnownMentions(raw);
      var checked, trail := ValidateStepDependencies(r.value);
      order := trail.finished;
      if checked.Err? {
        if checked.error.UnknownDependency? {
          ghost var i, j :| FirstUnknown(r.value, i, j) && checked.error == UnknownDependency(r.value[i].name, r.value[i].Listed()[j]);
          UnknownIsFirst(raw, i, j);
        }
        return Err(checked.error), order;
      }
      KnownNodes(r.value);
      ToSetSize(order);
      ToSetSize(Names(r.value));
      TopologicalOrderRuns(raw, order);
    }
  }

  lemma UnknownIsMentioned(raw: seq<RawStep>, i: nat, d: Name)
    requires FirstUnknownMention(raw, i, d)
    ensures Mentions(raw[i].dependsOn, d)
  {
  }

  lemma PromisedMentionsKnown(raw: seq<RawStep>)
    requires Promised(raw)
    ensures AllMentionsKnown(raw, |raw|)
  {
    var order :| RunsAll(raw, order);
    forall k, d | 0 <= k < |raw| && Mentions(raw[k].dependsOn, d)
      ensures Named(raw, d)
    {
      assert Before(order, d, raw[k].name.value);
      assert d in order;
    }
  }

  lemma UnknownIsNotPromised(raw: seq<RawStep>, error: Option<ValidationError>)
    requires Answers(raw, error) && error.Some? && error.value.UnknownDependency?
    ensures !Promised(raw) && !AllMentionsKnown(raw, |raw|)
  {
    var i: nat :| FirstUnknownMention(raw, i, error.value.dep) && raw[i].name == Some(error.value.step);
    UnknownIsMentioned(raw, i, error.value.dep);
    if Promised(raw) {
      PromisedMentionsKnown(raw);
    }
  }

  /** The answer is determined by what was written. */
  lemma AnswerIsUnique(raw: seq<RawStep>, a: Option<ValidationError>, b: Option<ValidationError>)
    requires Answers(raw, a) && Answers(raw, b)
    ensures a == b
  {
    if a.Some? && a.value.UnknownDependency? && b.Some? && b.value.UnknownDependency? {
      var i: nat :| FirstUnknownMention(raw, i, a.value.dep) && raw[i].name == Some(a.value.step);
      var j: nat :| FirstUnknownMention(raw, j, b.value.dep) && raw[j].name == Some(b.value.step);
      UnknownIsMentioned(raw, i, a.value.dep);
      UnknownIsMentioned(raw, j, b.value.dep);
    }
    if a.Some? && a.value.UnknownDependency? {
      UnknownIsNotPromised(raw, a);
    }
    if b.Some? && b.value.UnknownDependency? {
      UnknownIsNotPromised(raw, b);
    }
  }

  /** The same list with every plain string written as a list of one. */
  function Spelled(raw: seq<RawStep>): seq<RawStep> {
    seq(|raw|, i requires 0 <= i < |raw| =>
      raw[i].(dependsOn := if raw[i].dependsOn.One? then Many([raw[i].dependsOn.dep]) else raw[i].dependsOn))
  }

  lemma SpelledMentions(raw: seq<RawStep>, i: nat, d: Name)
    requires i < |raw|
    ensures Mentions(Spelled(raw)[i].dependsOn, d) <==> Mentions(raw[i].dependsOn, d)
  {
  }

  lemma SpelledNames(raw: seq<RawStep>, n: Name)
    ensures Named(Spelled(raw), n) <==> Named(raw, n)
  {
    if Named(raw, n) {
      var i :| 0 <= i < |raw| && raw[i].name == Some(n);
      assert Spelled(raw)[i].name == Some(n);
    }
  }

  lemma SpelledRuns(raw: seq<RawStep>, order: seq<Name>)
    ensures RunsAll(Spelled(raw), order) <==> RunsAll(raw, order)
  {
    forall n
      ensures Named(Spelled(raw), n) <==> Named(raw, n)
    {
      SpelledNames(raw, n);
    }
    forall i, d | 0 <= i < |raw|
      ensures Mentions(Spelled(raw)[i].dependsOn, d) <==> Mentions(raw[i].dependsOn, d)
    {
      SpelledMentions(raw, i, d);
    }
  }

  lemma SpelledPromised(raw: seq<RawStep>)
    ensures Promised(Spelled(raw)) <==> Promised(raw)
  {
    forall order
      ensures RunsAll(Spelled(raw), order) <==> RunsAll(raw, order)
    {
      SpelledRuns(raw, order);
    }
    assert forall i :: 0 <= i < |raw| ==> Spelled(raw)[i].name == raw[i].name && Spelled(raw)[i].hasTool == raw[i].hasTool;
  }

  lemma SpelledUnknown(raw: seq<RawStep>, i: nat, d: Name)
    requires FirstUnknownMention(raw, i, d)
    ensures FirstUnknownMention(Spelled(raw), i, d)
  {
    var also := Spelled(raw);
    SpelledNames(raw, d);
    forall k, e | 0 <= k < i && Mentions(also[k].dependsOn, e)
      ensures Named(also, e)
    {
      SpelledMentions(raw, k, e);
      SpelledNames(raw, e);
    }
    if raw[i].dependsOn == One(d) {
      assert FirstUnknownAt(also, [d], 0, d);
    } else {
      var deps := raw[i].dependsOn.deps;
      var j :| FirstUnknownAt(raw, deps, j, d);
      forall l | 0 <= l < j
        ensures Named(also, deps[l])
      {
        SpelledNames(raw, deps[l]);
      }
      assert FirstUnknownAt(also, deps, j, d);
    }
  }

  /** Writing a single dependency as a string or as a list of one changes neither verdict nor error. */
  lemma SpellingDoesNotMatter(raw: seq<RawStep>, error: Option<ValidationError>)
    requires Answers(raw, error)
    ensures Answers(Spelled(raw), error)
  {
    var also := Spelled(raw);
    SpelledPromised(raw);
    assert forall i :: 0 <= i < |raw| ==> also[i].name == raw[i].name && also[i].hasTool == raw[i].hasTool;
    match error
    case Some(UnknownDependency(n, d)) =>
      var i: nat :| FirstUnknownMention(raw, i, d) && raw[i].name == Some(n);
      SpelledUnknown(raw, i, d);
    case Some(CircularDependency) =>
      forall k, d | 0 <= k < |raw| && Mentions(also[k].dependsOn, d)
        ensures Named(also, d)
      {
        SpelledMentions(raw, k, d);
        SpelledNames(raw, d);
      }
    case _ =>
  }

  /** The verdict depends on neither the order of the steps nor the order of `depends_on` entries. */
  lemma VerdictIgnoresOrder(a: seq<Step>, b: seq<Step>)
    requires SameDependencies(a, b)
    ensures Runnable(a) <==> Runnable(b)
  {
    ToSetSize(Names(a));
    ToSetSize(Names(b));
    KnownMeansNamed(a);
    KnownMeansNamed(b);
    if Distinct(Names(a)) {
      GraphKeys(a);
      GraphKeys(b);
      forall n, d
        ensures Edge(GraphOf(a), n, d) <==> Edge(GraphOf(b), n, d)
      {
        EdgesAreDependencies(a, n, d);
        EdgesAreDependencies(b, n, d);
      }
      SameEdgesSameVerdict(GraphOf(a), GraphOf(b));
    }
  }

  lemma MembersDecide(a: seq<Step>, b: seq<Step>)
    requires forall s :: s in a ==> s in b
    ensures ToSet(Names(a)) <= ToSet(Names(b))
    ensures forall n, d :: Depends(a, n, d) ==> Depends(b, n, d)
  {
    forall n | n in Names(a)
      ensures n in Names(b)
    {
      var i :| 0 <= i < |a| && Names(a)[i] == n;
      assert a[i] in a;
      var j :| 0 <= j < |b| && b[j] == a[i];
      NameOf(b, j);
    }
    forall n, d | Depends(a, n, d)
      ensures Depends(b, n, d)
    {
      var i :| 0 <= i < |a| && a[i].name == n && d in a[i].Listed();
      assert a[i] in a;
      var j :| 0 <= j < |b| && b[j] == a[i];
    }
  }

  /** In particular, reordering the list of steps never changes the verdict. */
  lemma ReorderedStepsSameVerdict(a: seq<Step>, b: seq<Step>)
    requires multiset(a) == multiset(b)
    ensures Runnable(a) <==> Runnable(b)
  {
    assert |multiset(a)| == |multiset(b)|;
    forall s
      ensures s in a <==> s in b
    {
      assert s in a <==> s in multiset(a);
      assert s in b <==> s in multiset(b);
    }
    MembersDecide(a, b);
    MembersDecide(b, a);
    VerdictIgnoresOrder(a, b);
  }
}
