/** The package walk of scripts/collect-third-party-notices.py: a work list over the dependency
    graph that cargo reports for each target.  The graph may hold cycles, edges to build and
    development dependencies, and nodes no edge leads to; the walk takes the last pending node,
    follows its normal edges once and collects names and versions, leaving out the root.
  */
module LinkedPackages {
  import opened Json
  import opened Sorting

  datatype Package = Package(id: string, name: string, version: string)

  /** A dependency with its kinds; a normal dependency has a kind that is null. */
  datatype Dependency = Dependency(pkg: string, kinds: seq<Option<string>>)

  datatype Node = Node(id: string, deps: seq<Dependency>)

  /** `cargo metadata` for one target. */
  datatype Metadata = Metadata(packages: seq<Package>, nodes: seq<Node>, root: Option<string>)

  datatype WalkError = CargoFailed | NoRoot | MissingPackage(id: string)

  type Graph = map<string, seq<string>>

  // -------------------------------------------------------------------- the two indexes

  predicate IsNormal(d: Dependency) {
    None in d.kinds
  }

  function NormalDependencies(deps: seq<Dependency>): seq<string> {
    if deps == [] then []
    else if IsNormal(deps[0]) then [deps[0].pkg] + NormalDependencies(deps[1..])
    else NormalDependencies(deps[1..])
  }

  lemma {:induction false} NormalMember(deps: seq<Dependency>, id: string)
    ensures id in NormalDependencies(deps) <==> exists d | d in deps :: IsNormal(d) && d.pkg == id
  {
    if deps != [] {
      NormalMember(deps[1..], id);
      assert deps == [deps[0]] + deps[1..];
      if d :| d in deps && IsNormal(d) && d.pkg == id {
        assert d == deps[0] || d in deps[1..];
      }
    }
  }

  /** The last package, or node, with an ID: the one a Python dictionary keeps. */
  function LastPackage(packages: seq<Package>, id: string): Option<Package> {
    if packages == [] then None
    else if packages[|packages| - 1].id == id then Some(packages[|packages| - 1])
    else LastPackage(packages[..|packages| - 1], id)
  }

  function LastNode(nodes: seq<Node>, id: string): Option<Node> {
    if nodes == [] then None
    else if nodes[|nodes| - 1].id == id then Some(nodes[|nodes| - 1])
    else LastNode(nodes[..|nodes| - 1], id)
  }

  method PackagesById(packages: seq<Package>) returns (byId: map<string, Package>)
    ensures forall id :: Lookup(byId, id) == LastPackage(packages, id)
  {
    byId := map[];
    for i := 0 to |packages|
      invariant forall id :: Lookup(byId, id) == LastPackage(packages[..i], id)
    {
      assert packages[..i + 1][..i] == packages[..i];
      byId := byId[packages[i].id := packages[i]];
    }
    assert packages[..|packages|] == packages;
  }

  /** The edge relation of a target's graph. */
  function Edges(nodes: seq<Node>, id: string): seq<string> {
    match LastNode(nodes, id)
    case None => []
    case Some(node) => NormalDependencies(node.deps)
  }

  method DependenciesById(nodes: seq<Node>) returns (graph: Graph)
    ensures forall id :: Out(graph, id) == Edges(nodes, id)
  {
    graph := map[];
    for i := 0 to |nodes|
      invariant forall id :: Out(graph, id) == Edges(nodes[..i], id)
    {
      assert nodes[..i + 1][..i] == nodes[..i];
      ghost var before := graph;
      graph := graph[nodes[i].id := NormalDependencies(nodes[i].deps)];
      forall id: string ensures Out(graph, id) == Edges(nodes[..i + 1], id) {
        assert Out(before, id) == Edges(nodes[..i], id);
      }
    }
    assert nodes[..|nodes|] == nodes;
  }

  /** `dependencies.get(current, [])` */
  function Out(graph: Graph, id: string): seq<string> {
    if id in graph then graph[id] else []
  }

  // ----------------------------------------------------------------------- reachability

  predicate IsPath(graph: Graph, path: seq<string>) {
    path != [] && forall i | 0 <= i < |path| - 1 :: path[i + 1] in Out(graph, path[i])
  }

  /** There is a path of normal dependencies. */
  ghost predicate Reaches(graph: Graph, from: string, to: string) {
    exists path :: IsPath(graph, path) && path[0] == from && path[|path| - 1] == to
  }

  lemma ReachesItself(graph: Graph, root: string)
    ensures Reaches(graph, root, root)
  {
    assert IsPath(graph, [root]);
  }

  lemma ReachesNext(graph: Graph, root: string, id: string, next: string)
    requires Reaches(graph, root, id) && next in Out(graph, id)
    ensures Reaches(graph, root, next)
  {
    var path :| IsPath(graph, path) && path[0] == root && path[|path| - 1] == id;
    assert IsPath(graph, path + [next]);
  }

  /** A set that holds the root and every dependency of its members holds all that is reachable. */
  lemma {:induction false} ClosedHoldsPath(graph: Graph, s: set<string>, path: seq<string>)
    requires IsPath(graph, path) && path[0] in s
    requires forall id, d | id in s && d in Out(graph, id) :: d in s
    ensures path[|path| - 1] in s
    decreases |path|
  {
    if |path| > 1 {
      assert path[1] in Out(graph, path[0]);
      ClosedHoldsPath(graph, s, path[1..]);
    }
  }

  lemma ClosedHoldsReachable(graph: Graph, s: set<string>, root: string)
    requires root in s
    requires forall id, d | id in s && d in Out(graph, id) :: d in s
    ensures forall id | Reaches(graph, root, id) :: id in s
  {
    forall id | Reaches(graph, root, id) ensures id in s {
      var path :| IsPath(graph, path) && path[0] == root && path[|path| - 1] == id;
      ClosedHoldsPath(graph, s, path);
    }
  }

  // --------------------------------------------------------------------------- the walk

  function PairOf(p: Package): (string, string) {
    (p.name, p.version)
  }

  predicate Distinct(ids: seq<string>) {
    forall i, j | 0 <= i < j < |ids| :: ids[i] != ids[j]
  }

  /** The walk between two rounds: `popped` is done, `pending` is still to do, both together are
      what was seen, and every node was enqueued once. */
  ghost predicate Walking(graph: Graph, root: string, popped: seq<string>, pending: seq<string>, seen: set<string>) {
    && Distinct(popped + pending)
    && (forall id :: id in seen <==> id in popped || id in pending)
    && root in seen
    && (forall id | id in seen :: Reaches(graph, root, id))
    && (forall id, d | id in popped && d in Out(graph, id) :: d in seen)
  }

  /** The walk inside a round: `current` was taken from the pending nodes and is not done yet. */
  ghost predicate Taken(graph: Graph, root: string, popped: seq<string>, current: string, pending: seq<string>, seen: set<string>) {
    && Distinct(popped + [current] + pending)
    && (forall id :: id in seen <==> id in popped + [current] || id in pending)
    && root in seen
    && (forall id | id in seen :: Reaches(graph, root, id))
    && (forall id, d | id in popped && d in Out(graph, id) :: d in seen)
  }

  /** What the packages of some nodes add to the result. */
  ghost predicate LinkedBy(linked: set<(string, string)>, before: set<(string, string)>, packages: map<string, Package>, root: string, ids: seq<string>) {
    && (forall id | id in ids && id != root :: id in packages)
    && (forall pair :: pair in linked <==>
          pair in before || exists id | id in ids && id in packages :: id != root && pair == PairOf(packages[id]))
  }

  /** All nodes an edge can lead to. */
  function Targets(graph: Graph, root: string): set<string> {
    {root} + set id, d | id in graph && d in graph[id] :: d
  }

  method PushNew(graph: Graph, ghost root: string, ghost popped: seq<string>, current: string, pending: seq<string>, seen: set<string>)
    returns (pending': seq<string>, seen': set<string>)
    requires Taken(graph, root, popped, current, pending, seen)
    ensures Walking(graph, root, popped + [current], pending', seen')
    ensures seen <= seen' && (seen' == seen ==> pending' == pending)
    ensures seen <= Targets(graph, root) ==> seen' <= Targets(graph, root)
  {
    pending', seen' := pending, seen;
    var dependencies := Out(graph, current);
    ghost var done := popped + [current];
    for i := 0 to |dependencies|
      invariant Distinct(done + pending')
      invariant forall id :: id in seen' <==> id in done || id in pending'
      invariant seen <= seen' && (seen' == seen ==> pending' == pending)
      invariant forall id | id in seen' :: Reaches(graph, root, id)
      invariant forall d | d in dependencies[..i] :: d in seen'
      invariant seen <= Targets(graph, root) ==> seen' <= Targets(graph, root)
    {
      var dependency := dependencies[i];
      assert dependencies[..i + 1] == dependencies[..i] + [dependency];
      if dependency !in seen' {
        assert current in done;
        ReachesNext(graph, root, current, dependency);
        assert done + (pending' + [dependency]) == (done + pending') + [dependency];
        seen' := seen' + {dependency};
        pending' := pending' + [dependency];
      }
    }
    assert dependencies[..|dependencies|] == dependencies;
  }

  /** One target: the pairs of exactly the nodes other than the root that normal dependencies reach,
      each node enqueued once; an error names a reachable node without a package. */
  method Walk(graph: Graph, packages: map<string, Package>, root: string, before: set<(string, string)>)
    returns (r: Result<set<(string, string)>, WalkError>, ghost popped: seq<string>)
    ensures r.Ok? <==> forall id | Reaches(graph, root, id) && id != root :: id in packages
    ensures r.Ok? ==> Distinct(popped) && (forall id :: id in popped <==> Reaches(graph, root, id))
    ensures r.Ok? ==> LinkedBy(r.value, before, packages, root, popped)
    ensures r.Err? ==> r.error.MissingPackage? && r.error.id != root && Reaches(graph, root, r.error.id) && r.error.id !in packages
  {
    var pending := [root];
    var seen := {root};
    var linked := before;
    popped := [];
    hide Walking, Taken, LinkedBy, Targets, Reaches, Distinct;
    WalkStarts(graph, packages, root, before);
    while pending != []
      invariant Walking(graph, root, popped, pending, seen)
      invariant LinkedBy(linked, before, packages, root, popped)
      invariant seen <= Targets(graph, root)
      decreases |Targets(graph, root) - seen|, |pending|
    {
      var current := pending[|pending| - 1];
      TakeLast(graph, root, popped, pending, seen);
      pending := pending[..|pending| - 1];
      if current != root && current !in packages {
        return Err(MissingPackage(current)), popped;
      }
      LinkedByNext(linked, before, packages, root, popped, current);
      if current != root {
        linked := linked + {PairOf(packages[current])};
      }
      var later, known := PushNew(graph, root, popped, current, pending, seen);
      Shrinks(Targets(graph, root), seen, known);
      popped := popped + [current];
      pending, seen := later, known;
    }
    WalkEnds(graph, packages, root, popped, seen, linked, before);
    return Ok(linked), popped;
  }

  lemma WalkStarts(graph: Graph, packages: map<string, Package>, root: string, before: set<(string, string)>)
    ensures Walking(graph, root, [], [root], {root}) && LinkedBy(before, before, packages, root, [])
    ensures {root} <= Targets(graph, root)
  {
    ReachesItself(graph, root);
    hide Reaches;
  }

  lemma WalkEnds(graph: Graph, packages: map<string, Package>, root: string, popped: seq<string>, seen: set<string>,
                 linked: set<(string, string)>, before: set<(string, string)>)
    requires Walking(graph, root, popped, [], seen) && LinkedBy(linked, before, packages, root, popped)
    ensures Distinct(popped) && forall id :: id in popped <==> Reaches(graph, root, id)
    ensures forall id | Reaches(graph, root, id) && id != root :: id in packages
  {
    hide Reaches, Distinct;
    assert popped + [] == popped;
    ClosedHoldsReachable(graph, seen, root);
  }

  lemma TakeLast(graph: Graph, root: string, popped: seq<string>, pending: seq<string>, seen: set<string>)
    requires pending != [] && Walking(graph, root, popped, pending, seen)
    ensures var current, rest := pending[|pending| - 1], pending[..|pending| - 1];
            Taken(graph, root, popped, current, rest, seen) && Reaches(graph, root, current)
  {
    hide Reaches;
    var current, rest := pending[|pending| - 1], pending[..|pending| - 1];
    LastMoves(popped, pending);
    assert pending == rest + [current];
    hide Distinct;
    assert forall id :: id in pending <==> id in rest || id == current;
  }

  /** The linked pairs with one more node. */
  lemma LinkedByNext(linked: set<(string, string)>, before: set<(string, string)>, packages: map<string, Package>, root: string,
                     ids: seq<string>, id: string)
    requires LinkedBy(linked, before, packages, root, ids) && (id != root ==> id in packages)
    ensures LinkedBy(if id == root then linked else linked + {PairOf(packages[id])}, before, packages, root, ids + [id])
  {
    hide PairOf;
    var later := if id == root then linked else linked + {PairOf(packages[id])};
    assert forall x :: x in ids + [id] <==> x in ids || x == id;
    forall pair
      ensures pair in later <==>
              pair in before || exists x | x in ids + [id] && x in packages :: x != root && pair == PairOf(packages[x])
    {
      if x :| x in ids && x in packages && x != root && pair == PairOf(packages[x]) {
        assert x in ids + [id];
      }
    }
  }

  lemma LastMoves(popped: seq<string>, pending: seq<string>)
    requires pending != [] && Distinct(popped + pending)
    ensures Distinct(popped + [pending[|pending| - 1]] + pending[..|pending| - 1])
  {
    var current, rest := pending[|pending| - 1], pending[..|pending| - 1];
    var all := popped + pending;
    assert pending == rest + [current];
    assert forall i | 0 <= i < |popped| :: all[i] == popped[i];
    assert forall i | 0 <= i < |rest| :: all[|popped| + i] == rest[i];
    assert all[|all| - 1] == current;
    var moved := popped + [current] + rest;
    forall i, j | 0 <= i < j < |moved| ensures moved[i] != moved[j] {
      var a := if i < |popped| then i else if i == |popped| then |all| - 1 else i - 1;
      var b := if j < |popped| then j else if j == |popped| then |all| - 1 else j - 1;
      assert moved[i] == all[a] && moved[j] == all[b] && a != b;
    }
  }

  lemma Shrinks(all: set<string>, seen: set<string>, known: set<string>)
    requires seen <= known <= all
    ensures known == seen || |all - known| < |all - seen|
  {
    if known != seen {
      var id :| id in known && id !in seen;
      assert all - known <= (all - seen) - {id};
      SubsetSize(all - known, (all - seen) - {id});
    }
  }

  lemma {:induction false} SubsetSize<T>(a: set<T>, b: set<T>)
    requires a <= b
    ensures |a| <= |b|
    decreases a
  {
    if a != {} {
      var x :| x in a;
      SubsetSize(a - {x}, b - {x});
    }
  }

  // ------------------------------------------------------------------- over all targets

  /** A node a target links: reached from its root and not the root itself. */
  ghost predicate Links(m: Metadata, id: string) {
    m.root.Some? && id != m.root.value && exists graph :: IsGraphOf(graph, m) && Reaches(graph, m.root.value, id)
  }

  ghost predicate IsGraphOf(graph: Graph, m: Metadata) {
    forall id :: Out(graph, id) == Edges(m.nodes, id)
  }

  lemma SameGraphReaches(a: Graph, b: Graph, m: Metadata, root: string, id: string)
    requires IsGraphOf(a, m) && IsGraphOf(b, m) && Reaches(a, root, id)
    ensures Reaches(b, root, id)
  {
    var path :| IsPath(a, path) && path[0] == root && path[|path| - 1] == id;
    assert forall x :: Out(a, x) == Edges(m.nodes, x) == Out(b, x);
    assert IsPath(b, path);
  }

  /** Everything the walk of a target needs is in its metadata. */
  ghost predicate Resolved(target: Option<Metadata>) {
    && target.Some? && target.value.root.Some?
    && forall id | Links(target.value, id) :: LastPackage(target.value.packages, id).Some?
  }

  ghost predicate LinkedPair(targets: seq<Option<Metadata>>, pair: (string, string)) {
    exists t, id :: t in targets && t.Some? && Links(t.value, id)
                    && LastPackage(t.value.packages, id).Some? && pair == PairOf(LastPackage(t.value.packages, id).value)
  }

  method LinkTarget(target: Option<Metadata>, before: set<(string, string)>) returns (r: Result<set<(string, string)>, WalkError>)
    ensures r.Ok? <==> Resolved(target)
    ensures r.Ok? ==> forall pair :: pair in r.value <==> pair in before || LinkedPair([target], pair)
  {
    if target.None? {
      return Err(CargoFailed);
    }
    var m := target.value;
    var packages := PackagesById(m.packages);
    var graph := DependenciesById(m.nodes);
    if m.root.None? {
      return Err(NoRoot);
    }
    var root := m.root.value;
    hide LastPackage, Edges, Reaches;
    ghost var popped;
    r, popped := Walk(graph, packages, root, before);
    assert IsGraphOf(graph, m);
    forall id: string ensures Links(m, id) <==> id != root && Reaches(graph, root, id) {
      if other :| IsGraphOf(other, m) && Reaches(other, root, id) {
        SameGraphReaches(other, graph, m, root, id);
      }
    }
    forall id: string ensures id in packages <==> LastPackage(m.packages, id).Some? {
      assert Lookup(packages, id) == LastPackage(m.packages, id);
    }
    if r.Ok? {
      LinkedIsByTarget(target, before, packages, root, popped, r.value);
    }
  }

  lemma LinkedIsByTarget(target: Option<Metadata>, before: set<(string, string)>, packages: map<string, Package>, root: string,
                         ids: seq<string>, linked: set<(string, string)>)
    requires target.Some? && LinkedBy(linked, before, packages, root, ids)
    requires forall id :: Links(target.value, id) <==> id != root && id in ids
    requires forall id :: Lookup(packages, id) == LastPackage(target.value.packages, id)
    ensures forall pair :: pair in linked <==> pair in before || LinkedPair([target], pair)
  {
    hide Links, LastPackage;
    forall pair: (string, string)
      ensures LinkedPair([target], pair) <==> exists id | id in ids && id in packages :: id != root && pair == PairOf(packages[id])
    {
      if id :| id in ids && id in packages && id != root && pair == PairOf(packages[id]) {
        assert Lookup(packages, id) == Some(packages[id]);
        assert target in [target];
      }
      if LinkedPair([target], pair) {
        var t, id :| t in [target] && t.Some? && Links(t.value, id)
                     && LastPackage(t.value.packages, id).Some? && pair == PairOf(LastPackage(t.value.packages, id).value);
        assert Lookup(packages, id) == LastPackage(target.value.packages, id);
      }
    }
  }

  /** `linked_packages`: the sorted name and version pairs of every node other than the root that
      some target reaches by normal dependencies. */
  method Linked(targets: seq<Option<Metadata>>) returns (r: Result<seq<(string, string)>, WalkError>)
    ensures r.Ok? <==> forall t | t in targets :: Resolved(t)
    ensures r.Ok? ==>
              && Sorted(r.value, PairLe)
              && (forall i, j | 0 <= i < j < |r.value| :: r.value[i] != r.value[j])
              && (forall pair :: pair in r.value <==> LinkedPair(targets, pair))
  {
    hide Resolved, LinkedPair;
    var linked := {};
    assert forall pair :: !LinkedPair([], pair) by { NoTargets(); }
    for i := 0 to |targets|
      invariant forall t | t in targets[..i] :: Resolved(t)
      invariant forall pair :: pair in linked <==> LinkedPair(targets[..i], pair)
    {
      assert targets[..i + 1] == targets[..i] + [targets[i]];
      var next := LinkTarget(targets[i], linked);
      if next.Err? {
        assert targets[i] in targets;
        return Err(next.error);
      }
      LinkedAppend(targets[..i], targets[i]);
      linked := next.value;
    }
    assert targets[..|targets|] == targets;
    PairOrder();
    var sorted := SortedElements(linked, PairLe);
    SetElements(sorted, linked);
    return Ok(sorted);
  }

  lemma NoTargets()
    ensures forall pair :: !LinkedPair([], pair)
  {}

  lemma LinkedAppend(targets: seq<Option<Metadata>>, target: Option<Metadata>)
    ensures forall pair :: LinkedPair(targets + [target], pair) <==> LinkedPair(targets, pair) || LinkedPair([target], pair)
  {
    hide Links, LastPackage;
    assert forall t :: t in targets + [target] <==> t in targets || t in [target];
  }
}
