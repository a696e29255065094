/** The resolved dependency graph of a workspace crate: what ends up linked into it. */
module DependencyGraph {

  datatype Dep = Dep(pkg: string, kinds: seq<string>)
  datatype Node = Node(id: string, deps: seq<Dep>)
  datatype Graph = Graph(names: map<string, string>, nodes: seq<Node>)

  type Edges = map<string, seq<string>>

  const DEV := "dev"

  // ── Edges ────────────────────────────────────────────────────────────────

  /** A dependency reaches the binary unless every kind of it is a dev one. */
  predicate Links(d: Dep) { exists i :: 0 <= i < |d.kinds| && d.kinds[i] != DEV }

  function LinkedDeps(deps: seq<Dep>): seq<string> {
    if deps == [] then []
    else (if Links(deps[0]) then [deps[0].pkg] else []) + LinkedDeps(deps[1..])
  }

  lemma {:induction false} LinkedDepsAreTheLinkingOnes(deps: seq<Dep>, pkg: string)
    ensures pkg in LinkedDeps(deps) <==> exists i :: 0 <= i < |deps| && Links(deps[i]) && deps[i].pkg == pkg
  {
    if deps != [] {
      LinkedDepsAreTheLinkingOnes(deps[1..], pkg);
      assert forall i :: 1 <= i < |deps| ==> deps[1..][i - 1] == deps[i];
      if i :| 0 <= i < |deps| && Links(deps[i]) && deps[i].pkg == pkg {
        if i > 0 { assert Links(deps[1..][i - 1]) && deps[1..][i - 1].pkg == pkg; }
      }
    }
  }

  /** One entry per node id; the last node of an id counts. */
  function EdgesOf(nodes: seq<Node>): Edges {
    if nodes == [] then map[]
    else
      var last := nodes[|nodes| - 1];
      EdgesOf(nodes[..|nodes| - 1])[last.id := LinkedDeps(last.deps)]
  }

  method ReadEdges(g: Graph) returns (edges: Edges)
    ensures edges == EdgesOf(g.nodes)
  {
    edges := map[];
    for n := 0 to |g.nodes|
      invariant edges == EdgesOf(g.nodes[..n])
    {
      assert g.nodes[..n + 1][..n] == g.nodes[..n];
      edges := edges[g.nodes[n].id := LinkedDeps(g.nodes[n].deps)];
    }
    assert g.nodes[..|g.nodes|] == g.nodes;
  }

  // ── Reachability ─────────────────────────────────────────────────────────

  predicate Edge(edges: Edges, a: string, b: string) { a in edges && b in edges[a] }

  ghost predicate IsPath(edges: Edges, p: seq<string>) {
    forall i :: 0 <= i < |p| - 1 ==> Edge(edges, p[i], p[i + 1])
  }

  /** `b` is reached from `a` by one edge or more. */
  ghost predicate Reaches(edges: Edges, a: string, b: string) {
    exists p :: |p| >= 2 && p[0] == a && p[|p| - 1] == b && IsPath(edges, p)
  }

  lemma ReachesStep(edges: Edges, a: string, b: string, c: string)
    requires (a == b || Reaches(edges, a, b)) && Edge(edges, b, c)
    ensures Reaches(edges, a, c)
  {
    if a == b {
      assert IsPath(edges, [a, c]);
      assert [a, c][0] == a && [a, c][1] == c;
    } else {
      var p :| |p| >= 2 && p[0] == a && p[|p| - 1] == b && IsPath(edges, p);
      var q := p + [c];
      assert IsPath(edges, q);
      assert q[0] == a && q[|q| - 1] == c;
    }
  }

  ghost predicate Closed(edges: Edges, s: set<string>) {
    forall a, b :: a in s && Edge(edges, a, b) ==> b in s
  }

  lemma {:induction false} PathStaysInside(edges: Edges, s: set<string>, p: seq<string>, i: nat)
    requires Closed(edges, s) && IsPath(edges, p) && i < |p| && p[0] in s
    ensures p[i] in s
  {
    if i > 0 {
      PathStaysInside(edges, s, p, i - 1);
      assert Edge(edges, p[i - 1], p[i]);
    }
  }

  /** `all` holds every id a walk from `root` can meet. */
  ghost predicate Spans(edges: Edges, root: string, all: set<string>) {
    root in all && forall a, b :: Edge(edges, a, b) ==> b in all
  }

  lemma SomethingSpans(edges: Edges, root: string) returns (all: set<string>)
    ensures Spans(edges, root, all)
  {
    all := {root} + set a, i | a in edges && 0 <= i < |edges[a]| :: edges[a][i];
  }

  /** The names of what `root` reaches. */
  ghost predicate IsLinked(g: Graph, root: string, linked: set<string>) {
    forall name :: name in linked <==>
      exists id :: id in g.names && g.names[id] == name && Reaches(EdgesOf(g.nodes), root, id)
  }

  // ── The walk ─────────────────────────────────────────────────────────────

  /** Everything met so far is reached, and what is visited has handed its successors on. */
  ghost predicate Progress(names: map<string, string>, edges: Edges, root: string,
                           visited: set<string>, queue: seq<string>, linked: set<string>) {
    && (root in visited || root in queue)
    && (forall id :: id in visited || id in queue ==> id == root || Reaches(edges, root, id))
    && (forall a, b :: a in visited && Edge(edges, a, b) ==> b in visited || b in queue)
    && (forall a, b :: a in visited && Edge(edges, a, b) && b in names ==> names[b] in linked)
    && (forall name :: name in linked ==>
          exists id :: id in names && names[id] == name && Reaches(edges, root, id))
  }

  /** The successors of one node: named, and put on the stack, in order. */
  method Expand(names: map<string, string>, edges: Edges, id: string, queue: seq<string>, linked: set<string>)
    returns (queue': seq<string>, linked': set<string>)
    ensures queue' == queue + if id in edges then edges[id] else []
    ensures linked' == linked + set b | Edge(edges, id, b) && b in names :: names[b]
  {
    queue', linked' := queue, linked;
    if id in edges {
      var deps := edges[id];
      for i := 0 to |deps|
        invariant queue' == queue + deps[..i]
        invariant linked' == linked + set b | b in deps[..i] && b in names :: names[b]
      {
        var dep := deps[i];
        assert deps[..i + 1] == deps[..i] + [dep];
        if dep in names { linked' := linked' + {names[dep]}; }
        queue' := queue' + [dep];
      }
      assert deps[..|deps|] == deps;
    }
  }

  lemma ExpandKeepsProgress(names: map<string, string>, edges: Edges, root: string, visited: set<string>,
                            rest: seq<string>, linked: set<string>, id: string)
    requires id !in visited && Progress(names, edges, root, visited, rest + [id], linked)
    ensures Progress(names, edges, root, visited + {id}, rest + (if id in edges then edges[id] else []),
                     linked + set b | Edge(edges, id, b) && b in names :: names[b])
  {
    var deps := if id in edges then edges[id] else [];
    assert forall x :: x in rest + [id] <==> x in rest || x == id;
    assert id in rest + [id];
    forall b | b in deps ensures Reaches(edges, root, b) { ReachesStep(edges, root, id, b); }
  }

  lemma SkipKeepsProgress(names: map<string, string>, edges: Edges, root: string, visited: set<string>,
                          rest: seq<string>, linked: set<string>, id: string)
    requires id in visited && Progress(names, edges, root, visited, rest + [id], linked)
    ensures Progress(names, edges, root, visited, rest, linked)
  {
    assert forall x :: x in rest + [id] <==> x in rest || x == id;
  }

  ghost predicate Within(queue: seq<string>, all: set<string>) { forall x :: x in queue ==> x in all }

  lemma ExpandStaysWithin(edges: Edges, root: string, all: set<string>, rest: seq<string>, id: string)
    requires Spans(edges, root, all) && Within(rest, all)
    ensures Within(rest + (if id in edges then edges[id] else []), all)
  {
    assert forall x :: id in edges && x in edges[id] ==> Edge(edges, id, x);
  }

  lemma ProgressIsClosed(names: map<string, string>, edges: Edges, root: string, visited: set<string>,
                         linked: set<string>, id: string)
    requires Progress(names, edges, root, visited, [], linked)
    requires id in names && Reaches(edges, root, id)
    ensures names[id] in linked
  {
    assert Closed(edges, visited);
    var p :| |p| >= 2 && p[0] == root && p[|p| - 1] == id && IsPath(edges, p);
    PathStaysInside(edges, visited, p, |p| - 2);
    assert Edge(edges, p[|p| - 2], p[|p| - 1]);
  }

  lemma WalkIsExact(g: Graph, edges: Edges, root: string, visited: set<string>, linked: set<string>)
    requires edges == EdgesOf(g.nodes) && Progress(g.names, edges, root, visited, [], linked)
    ensures IsLinked(g, root, linked)
  {
    forall id | id in g.names && Reaches(edges, root, id) ensures g.names[id] in linked {
      ProgressIsClosed(g.names, edges, root, visited, linked, id);
    }
  }

  method Visit(names: map<string, string>, edges: Edges, root: string, ghost all: set<string>,
               visited: set<string>, rest: seq<string>, linked: set<string>, id: string)
    returns (visited': set<string>, queue': seq<string>, linked': set<string>)
    requires Spans(edges, root, all) && id !in visited && id in all && Within(rest, all)
    requires Progress(names, edges, root, visited, rest + [id], linked)
    ensures visited' == visited + {id} && Within(queue', all)
    ensures |all - visited'| < |all - visited|
    ensures Progress(names, edges, root, visited', queue', linked')
  {
    ExpandKeepsProgress(names, edges, root, visited, rest, linked, id);
    ExpandStaysWithin(edges, root, all, rest, id);
    visited' := visited + {id};
    assert all - visited' == (all - visited) - {id};
    queue', linked' := Expand(names, edges, id, rest, linked);
  }

  /** Every crate linked into the package at `root`, at any depth, on any graph. */
  method LinkedCrates(g: Graph, root: string) returns (linked: set<string>)
    ensures IsLinked(g, root, linked)
  {
    var edges := ReadEdges(g);
    linked := {};
    var visited: set<string> := {};
    var queue := [root];
    ghost var all := SomethingSpans(edges, root);
    while queue != []
      invariant Within(queue, all)
      invariant Progress(g.names, edges, root, visited, queue, linked)
      decreases |all - visited|, |queue|
    {
      var id := queue[|queue| - 1];
      var rest := queue[..|queue| - 1];
      assert queue == rest + [id] && id in queue && Within(rest, all);
      if id in visited {
        SkipKeepsProgress(g.names, edges, root, visited, rest, linked, id);
        queue := rest;
      } else {
        visited, queue, linked := Visit(g.names, edges, root, all, visited, rest, linked, id);
      }
    }
    WalkIsExact(g, edges, root, visited, linked);
  }

  /** The crates the package itself declares. */
  function DirectCrates(g: Graph, root: string): (direct: set<string>) {
    var edges := EdgesOf(g.nodes);
    set i | root in edges && 0 <= i < |edges[root]| && edges[root][i] in g.names :: g.names[edges[root][i]]
  }

  lemma DirectIsLinked(g: Graph, root: string, linked: set<string>)
    requires IsLinked(g, root, linked)
    ensures DirectCrates(g, root) <= linked
  {
    var edges := EdgesOf(g.nodes);
    forall name | name in DirectCrates(g, root) ensures name in linked {
      var i :| root in edges && 0 <= i < |edges[root]| && edges[root][i] in g.names && g.names[edges[root][i]] == name;
      ReachesStep(edges, root, root, edges[root][i]);
    }
  }

  /** A package is linked into itself exactly when it lies on a cycle, or shares its name
      with something it reaches. */
  lemma SelfIsLinkedOnACycle(g: Graph, root: string, linked: set<string>)
    requires IsLinked(g, root, linked) && root in g.names
    requires forall id :: id in g.names && g.names[id] == g.names[root] ==> id == root
    ensures g.names[root] in linked <==> Reaches(EdgesOf(g.nodes), root, root)
  {
  }

  /** The members of `forbidden` that `linked` contains, in the order they were listed. */
  function Leaks(linked: set<string>, forbidden: seq<string>): (r: seq<string>)
    ensures forall f :: f in r <==> f in forbidden && f in linked
  {
    if forbidden == [] then []
    else (if forbidden[0] in linked then [forbidden[0]] else []) + Leaks(linked, forbidden[1..])
  }

  /** The gate is silent exactly when nothing forbidden is reached. */
  lemma GateIsExact(g: Graph, root: string, linked: set<string>, forbidden: seq<string>)
    requires IsLinked(g, root, linked)
    ensures Leaks(linked, forbidden) == [] <==>
            forall id :: id in g.names && Reaches(EdgesOf(g.nodes), root, id) ==> g.names[id] !in forbidden
  {
    var r := Leaks(linked, forbidden);
    if r == [] {
      forall id | id in g.names && Reaches(EdgesOf(g.nodes), root, id) ensures g.names[id] !in forbidden {
        assert g.names[id] in linked;
        assert g.names[id] !in r;
      }
    } else {
      assert r[0] in r;
    }
  }
}
