/**
 * The queries of src/TrafficTraversal.ts as values over one frozen graph
 * state. Every query of the source reads `state.data[vertex]` and iterates
 * `for k in state.data`, but the state's data is `{ vertex, embedded }`;
 * the model reads the adjacency `state.data.vertex`, which is what the
 * queries need to mean anything.
 *
 * The class TraversalEngine.TrafficTraversal runs the loops of the source
 * and is proved to compute the functions defined here.
 */
module TraversalModel {
  import opened Base
  import opened ArrayUtil
  import opened OrderedMap
  import opened GraphModel

  /** A JavaScript number that may be `Infinity`. */
  datatype Dist = Fin(value: real) | Inf

  /** `d + w`: `Infinity` absorbs every finite weight. */
  function Plus(d: Dist, w: real): Dist {
    if d.Inf? then Inf else Fin(d.value + w)
  }

  /** `a < b`, never true of `Infinity < x`. */
  predicate Below(a: Dist, b: Dist) {
    a.Fin? && (b.Inf? || a.value < b.value)
  }

  /** `a <= b` */
  predicate AtMost(a: Dist, b: Dist) {
    b.Inf? || (a.Fin? && a.value <= b.value)
  }

  /** `Math.min(a, b)` */
  function Min(a: Dist, b: Dist): (r: Dist)
    ensures AtMost(r, a) && AtMost(r, b)
    ensures r == a || r == b
  {
    if AtMost(a, b) then a else b
  }

  /** The adjacency the queries see. */
  function AdjOf(g: State): Adj {
    g.data.vertex
  }

  /** The vertices the rows of `keys` point to. */
  function TargetsIn(adj: Adj, keys: seq<Vertex>): set<Vertex>
    decreases |keys|
  {
    if keys == [] then {} else RowOf(adj, keys[0]).at.Keys + TargetsIn(adj, keys[1..])
  }

  /** Every vertex that some edge points to. */
  function Targets(adj: Adj): set<Vertex> {
    TargetsIn(adj, adj.keys)
  }

  lemma {:induction false} TargetsInRow(adj: Adj, keys: seq<Vertex>, u: Vertex)
    requires u in keys
    ensures RowOf(adj, u).at.Keys <= TargetsIn(adj, keys)
    decreases |keys|
  {
    if keys[0] != u {
      TargetsInRow(adj, keys[1..], u);
    }
  }

  lemma RowInTargets(adj: Adj, u: Vertex)
    ensures forall v :: v in RowOf(adj, u).at ==> v in Targets(adj)
  {
    Keys(adj);
    if u in adj.at {
      TargetsInRow(adj, adj.keys, u);
    }
  }

  /** `m[k]` for a map whose absent keys read as `undefined` (or `''`). */
  function Lookup(m: map<Vertex, Vertex>, k: Vertex): (r: Option<Vertex>)
    ensures r.Some? <==> k in m
    ensures r.Some? ==> r.value == m[k]
  {
    if k in m then Some(m[k]) else None
  }

  // ------------------------------------------------------ _getTrafficPrev

  /** The locals of `_getTrafficPrev`: the work queue, the vertices ever
      queued, the best distance found so far and the predecessor on it.
      The source fills `edge` with `''` for every vertex first; `''` and a
      missing key read alike, so the model leaves those keys out. */
  datatype Relax = Relax(queue: seq<Vertex>, inQueue: set<Vertex>, distance: map<Vertex, Dist>, edge: map<Vertex, Vertex>)

  /** Every vertex of `vs` at `Infinity`. */
  function Unvisited(vs: seq<Vertex>): (m: map<Vertex, Dist>)
    ensures forall v :: v in m <==> v in vs
    ensures forall v :: v in m ==> m[v] == Inf
  {
    map v | v in vs :: Inf
  }

  /** The locals when the `while` loop starts. */
  function Start(vs: seq<Vertex>, from: Vertex): Relax {
    Relax([from], {from}, Unvisited(vs)[from := Fin(0.0)], map[])
  }

  /** One pass of the inner `for (const v in vertices)` loop, `v` a key of
      the row of `u`. A vertex whose distance is unknown (`undefined`)
      compares false and is left alone. */
  function Visit(row: Row, u: Vertex, v: Vertex, st: Relax): Relax
    requires v in row.at
  {
    if u in st.distance && v in st.distance && Below(Plus(st.distance[u], row.at[v]), st.distance[v]) then
      Relax(if v in st.inQueue then st.queue else st.queue + [v],
            st.inQueue + {v},
            st.distance[v := Plus(st.distance[u], row.at[v])],
            st.edge[v := u])
    else st
  }

  /** The inner loop over the remaining keys of the row of `u`. A vertex is
      queued exactly when it is marked for the first time. */
  function ScanRow(row: Row, u: Vertex, keys: seq<Vertex>, st: Relax): (r: Relax)
    requires forall k :: k in keys ==> k in row.at
    ensures st.inQueue <= r.inQueue
    ensures forall x :: x in r.inQueue && x !in st.inQueue ==> x in keys
    ensures |r.queue| == |st.queue| + |r.inQueue - st.inQueue|
    decreases |keys|
  {
    if keys == [] then st
    else
      var s1 := Visit(row, u, keys[0], st);
      assert s1.inQueue - st.inQueue == {} || s1.inQueue - st.inQueue == {keys[0]};
      var r := ScanRow(row, u, keys[1..], s1);
      assert r.inQueue - st.inQueue == (r.inQueue - s1.inQueue) + (s1.inQueue - st.inQueue);
      r
  }

  /** `queue.shift()` and the scan of the row of the vertex taken. */
  function Pass(adj: Adj, st: Relax): (r: Relax)
    requires st.queue != []
    ensures st.inQueue <= r.inQueue
    ensures forall x :: x in r.inQueue && x !in st.inQueue ==> x in Targets(adj)
    ensures |r.queue| + 1 == |st.queue| + |r.inQueue - st.inQueue|
  {
    RowInTargets(adj, st.queue[0]);
    Keys(RowOf(adj, st.queue[0]));
    ScanRow(RowOf(adj, st.queue[0]), st.queue[0], RowOf(adj, st.queue[0]).keys, st.(queue := st.queue[1..]))
  }

  /** Marking one more of a finite set of vertices leaves one fewer unmarked. */
  lemma MarkShrinks(all: set<Vertex>, marked: set<Vertex>, x: Vertex)
    requires x in all && x !in marked
    ensures |all - (marked + {x})| + 1 == |all - marked|
  {
    assert all - marked == (all - (marked + {x})) + {x};
  }

  /** More marks leave no more vertices unmarked. */
  lemma MarksShrink(all: set<Vertex>, m1: set<Vertex>, m2: set<Vertex>)
    requires m1 <= m2
    ensures |all - m2| <= |all - m1|
  {
    assert all - m1 == (all - m2) + ((all - m1) - (all - m2));
  }

  /** Marking vertices of a finite set leaves as many fewer unmarked. */
  lemma MarksAdded(all: set<Vertex>, m1: set<Vertex>, m2: set<Vertex>)
    requires m1 <= m2 && forall x :: x in m2 && x !in m1 ==> x in all
    ensures |all - m1| == |all - m2| + |m2 - m1|
  {
    assert all - m1 == (all - m2) + (m2 - m1);
    assert (all - m2) * (m2 - m1) == {};
  }

  /** A pass either marks a new target or shortens the queue. */
  lemma PassProgress(adj: Adj, st: Relax)
    requires st.queue != []
    ensures |Targets(adj) - Pass(adj, st).inQueue| + |Pass(adj, st).queue| + 1
         == |Targets(adj) - st.inQueue| + |st.queue|
  {
    MarksAdded(Targets(adj), st.inQueue, Pass(adj, st).inQueue);
  }

  /** The `while (queue.length)` loop: it ends because every vertex is
      queued at most once, `inQueue` being never cleared. */
  function Run(adj: Adj, st: Relax): Relax
    decreases |Targets(adj) - st.inQueue|, |st.queue|
  {
    if st.queue == [] then st
    else
      PassProgress(adj, st);
      Run(adj, Pass(adj, st))
  }

  /** The locals when the loop ends. */
  function Relaxed(g: State, from: Vertex): Relax {
    Run(AdjOf(g), Start(g.vertices, from))
  }

  /** `_getTrafficPrev(from)`: the predecessor of every vertex reached. */
  function TrafficPrev(g: State, from: Vertex): map<Vertex, Vertex> {
    Relaxed(g, from).edge
  }

  /** How many times the `while` loop of `_getTrafficPrev` runs. */
  function Passes(adj: Adj, st: Relax): nat
    decreases |Targets(adj) - st.inQueue|, |st.queue|
  {
    if st.queue == [] then 0
    else
      PassProgress(adj, st);
      1 + Passes(adj, Pass(adj, st))
  }

  lemma {:induction false} PassesBounded(adj: Adj, st: Relax)
    ensures Passes(adj, st) <= |st.queue| + |Targets(adj) - st.inQueue|
    decreases |Targets(adj) - st.inQueue|, |st.queue|
  {
    if st.queue != [] {
      PassProgress(adj, st);
      PassesBounded(adj, Pass(adj, st));
    }
  }

  /** The relaxation loop runs at most once per target vertex, plus once for `from`. */
  lemma RelaxationBounded(g: State, from: Vertex)
    ensures Passes(AdjOf(g), Start(g.vertices, from)) <= |Targets(AdjOf(g))| + 1
  {
    PassesBounded(AdjOf(g), Start(g.vertices, from));
    assert Targets(AdjOf(g)) - {from} <= Targets(AdjOf(g));
  }

  /** On a state the graph hands out, the loop runs at most once per listed
      vertex, plus once. */
  lemma RelaxationBoundedByVertices(d: GraphData, from: Vertex)
    ensures Passes(AdjOf(Snapshot(d)), Start(Snapshot(d).vertices, from)) <= |Snapshot(d).vertices| + 1
  {
    RelaxationBounded(Snapshot(d), from);
    TargetsListed(d.vertex);
    VerticesOfMembers(d.vertex);
    DistinctCard(VerticesOf(d.vertex));
    SubsetCard(Targets(d.vertex), set x | x in VerticesOf(d.vertex));
  }

  /** Every target is in the `vertices` list. */
  lemma TargetsListed(adj: Adj)
    ensures Targets(adj) <= set x | x in VerticesOf(adj)
  {
    VerticesOfMembers(adj);
    forall x | x in Targets(adj) ensures x in VerticesOf(adj) {
      TargetsMentioned(adj, adj.keys, x);
    }
  }

  /** A subset is no larger than the set it is taken from. */
  lemma SubsetCard(a: set<Vertex>, b: set<Vertex>)
    requires a <= b
    ensures |a| <= |b|
  {
    assert b == a + (b - a);
  }

  /** A vertex some row points to is mentioned by the adjacency. */
  lemma {:induction false} TargetsMentioned(adj: Adj, keys: seq<Vertex>, x: Vertex)
    requires x in TargetsIn(adj, keys)
    ensures Mentioned(adj, x)
    decreases |keys|
  {
    if x in RowOf(adj, keys[0]).at {
      assert keys[0] in adj.at && x in adj.at[keys[0]].at;
    } else {
      TargetsMentioned(adj, keys[1..], x);
    }
  }

  /** A duplicate-free sequence has as many members as elements. */
  lemma {:induction false} DistinctCard(s: seq<Vertex>)
    requires Distinct(s)
    ensures |set x | x in s| == |s|
    decreases |s|
  {
    if s != [] {
      DistinctTail(s);
      DistinctCard(s[1..]);
      assert (set x | x in s) == {s[0]} + set x | x in s[1..];
    }
  }

  // --------------------------------------- what the relaxation maintains

  /** Facts about the locals of `_getTrafficPrev` that every pass keeps:
      a recorded predecessor is the source of an edge into the vertex, and
      exactly `from` and the vertices with a predecessor are at a finite
      distance. */
  predicate Sane(adj: Adj, from: Vertex, st: Relax) {
    Tracks(adj, from, st.distance, st.edge)
  }

  predicate Tracks(adj: Adj, from: Vertex, distance: map<Vertex, Dist>, edge: map<Vertex, Vertex>) {
    && (forall v :: v in edge ==> v in RowOf(adj, edge[v]).at)
    && (forall v :: v in edge ==> v in distance)
    && (forall v :: v in distance ==> (distance[v].Fin? <==> v == from || v in edge))
  }

  /** `after` knows the same vertices as `before`, none farther away. */
  predicate Lower(before: Relax, after: Relax) {
    && after.distance.Keys == before.distance.Keys
    && forall v :: v in before.distance ==> AtMost(after.distance[v], before.distance[v])
  }

  lemma VisitKeeps(adj: Adj, from: Vertex, u: Vertex, v: Vertex, st: Relax)
    requires v in RowOf(adj, u).at && Sane(adj, from, st)
    ensures Sane(adj, from, Visit(RowOf(adj, u), u, v, st))
    ensures Lower(st, Visit(RowOf(adj, u), u, v, st))
  {
    if u in st.distance && v in st.distance && Below(Plus(st.distance[u], RowOf(adj, u).at[v]), st.distance[v]) {
      UpdateSane(adj, from, u, v, st.edge, st.distance, Plus(st.distance[u], RowOf(adj, u).at[v]));
    }
  }

  /** An improving visit records `u` as the predecessor of `v` at the finite
      distance `d`. */
  lemma UpdateSane(adj: Adj, from: Vertex, u: Vertex, v: Vertex, edge: map<Vertex, Vertex>, dist: map<Vertex, Dist>, d: Dist)
    requires v in RowOf(adj, u).at && v in dist && d.Fin?
    requires Tracks(adj, from, dist, edge)
    ensures Tracks(adj, from, dist[v := d], edge[v := u])
  {
  }

  lemma {:induction false} ScanKeeps(adj: Adj, from: Vertex, u: Vertex, keys: seq<Vertex>, st: Relax)
    requires forall k :: k in keys ==> k in RowOf(adj, u).at
    requires Sane(adj, from, st)
    ensures Sane(adj, from, ScanRow(RowOf(adj, u), u, keys, st))
    ensures Lower(st, ScanRow(RowOf(adj, u), u, keys, st))
    decreases |keys|
  {
    if keys != [] {
      VisitKeeps(adj, from, u, keys[0], st);
      ScanKeeps(adj, from, u, keys[1..], Visit(RowOf(adj, u), u, keys[0], st));
    }
  }

  lemma {:induction false} RunKeeps(adj: Adj, from: Vertex, st: Relax)
    requires Sane(adj, from, st)
    ensures Sane(adj, from, Run(adj, st))
    ensures Lower(st, Run(adj, st))
    decreases |Targets(adj) - st.inQueue|, |st.queue|
  {
    if st.queue != [] {
      PassKeeps(adj, from, st);
      PassProgress(adj, st);
      RunKeeps(adj, from, Pass(adj, st));
      LowerTrans(st, Pass(adj, st), Run(adj, Pass(adj, st)));
    }
  }

  lemma PassKeeps(adj: Adj, from: Vertex, st: Relax)
    requires st.queue != [] && Sane(adj, from, st)
    ensures Sane(adj, from, Pass(adj, st))
    ensures Lower(st, Pass(adj, st))
  {
    Keys(RowOf(adj, st.queue[0]));
    ScanKeeps(adj, from, st.queue[0], RowOf(adj, st.queue[0]).keys, st.(queue := st.queue[1..]));
  }

  lemma LowerTrans(a: Relax, b: Relax, c: Relax)
    requires Lower(a, b) && Lower(b, c)
    ensures Lower(a, c)
  {
  }

  /** Whenever the relaxation records `prev[v] = u`, `v` is a key of the row of `u`. */
  lemma PrevIsEdge(g: State, from: Vertex)
    ensures forall v :: v in TrafficPrev(g, from) ==> v in RowOf(AdjOf(g), TrafficPrev(g, from)[v]).at
  {
    RunKeeps(AdjOf(g), from, Start(g.vertices, from));
  }

  /** Only a vertex some edge points to gets a predecessor. */
  lemma PrevInTargets(g: State, from: Vertex)
    ensures forall v :: v in TrafficPrev(g, from) ==> v in Targets(AdjOf(g))
  {
    PrevIsEdge(g, from);
    forall v | v in TrafficPrev(g, from) ensures v in Targets(AdjOf(g)) {
      RowInTargets(AdjOf(g), TrafficPrev(g, from)[v]);
    }
  }

  /** A vertex ends at a finite distance exactly when it is `from` or has a
      recorded predecessor; the distances only ever decrease, so `from`
      stays at most 0 and the other vertices at most `Infinity`. */
  lemma RelaxedDistances(g: State, from: Vertex)
    ensures Relaxed(g, from).distance.Keys == Start(g.vertices, from).distance.Keys
    ensures forall v :: v in Relaxed(g, from).distance ==>
              (Relaxed(g, from).distance[v].Fin? <==> v == from || v in TrafficPrev(g, from))
    ensures AtMost(Relaxed(g, from).distance[from], Fin(0.0))
  {
    RunKeeps(AdjOf(g), from, Start(g.vertices, from));
  }

  // ------------------------------------------------------------ _getRoutes

  /** The `while (v)` loop of `_getRoutes`. `routes` is the walk so far,
      newest last, `v` the predecessor just read and `seen` the `inQueue`
      marks. Every pass marks a vertex it has not marked before, or stops. */
  function Walk(prev: map<Vertex, Vertex>, from: Vertex, v: Option<Vertex>, seen: set<Vertex>, routes: seq<Vertex>): (r: seq<Vertex>)
    requires v.Some? ==> v.value in prev.Values && v.value !in seen
    ensures |routes| <= |r| && r[..|routes|] == routes
    decreases |prev.Values - seen|
  {
    match v {
      case None => routes
      case Some(x) =>
        if Lookup(prev, x) == Some(from) then routes + [x, from]
        else if Lookup(prev, x).Some? && Lookup(prev, x).value in seen + {x} then routes + [x]
        else
          MarkShrinks(prev.Values, seen, x);
          Walk(prev, from, Lookup(prev, x), seen + {x}, routes + [x])
    }
  }

  /** The route from `from` to `to` that `_getRoutes` builds from a
      predecessor map: the walk back from `to`, reversed. */
  function RoutesOf(prev: map<Vertex, Vertex>, from: Vertex, to: Vertex): seq<Vertex> {
    Reversed(Walk(prev, from, Lookup(prev, to), {}, [to]))
  }

  /** `_getRoutes(from, to)` */
  function GetRoutes(g: State, from: Vertex, to: Vertex): seq<Vertex> {
    RoutesOf(TrafficPrev(g, from), from, to)
  }

  /** `_reach(routes, from, to)` */
  predicate Reach(routes: seq<Vertex>, from: Vertex, to: Vertex) {
    First(routes) == Some(from) && Last(routes) == Some(to)
  }

  /** `reachable(from, to)` */
  predicate Reachable(g: State, from: Vertex, to: Vertex) {
    Reach(GetRoutes(g, from, to), from, to)
  }

  /** `routes(from, to)`: the route, or the error a structure that cannot
      be reached throws. `copy` hands back an equal array. */
  function Routes(g: State, from: Vertex, to: Vertex): (r: Result<seq<Vertex>>)
    ensures r.Ok? <==> Reachable(g, from, to)
    ensures r.Ok? ==> r.value == GetRoutes(g, from, to)
    ensures r.Err? ==> r.error == Unreachable
  {
    if Reach(GetRoutes(g, from, to), from, to) then Ok(Copy(GetRoutes(g, from, to))) else Err(Unreachable)
  }

  /** Each element of `w` but the last has the next one as its predecessor. */
  predicate Linked(prev: map<Vertex, Vertex>, w: seq<Vertex>) {
    forall i :: 0 <= i < |w| - 1 ==> w[i] in prev && prev[w[i]] == w[i + 1]
  }

  lemma {:induction false} WalkLinked(prev: map<Vertex, Vertex>, from: Vertex, v: Option<Vertex>, seen: set<Vertex>, routes: seq<Vertex>)
    requires v.Some? ==> v.value in prev.Values && v.value !in seen
    requires routes != [] && Linked(prev, routes) && v == Lookup(prev, routes[|routes| - 1])
    ensures Linked(prev, Walk(prev, from, v, seen, routes))
    decreases |prev.Values - seen|
  {
    match v {
      case None =>
      case Some(x) =>
        assert Linked(prev, routes + [x]);
        if Lookup(prev, x) != Some(from) && !(Lookup(prev, x).Some? && Lookup(prev, x).value in seen + {x}) {
          MarkShrinks(prev.Values, seen, x);
          WalkLinked(prev, from, Lookup(prev, x), seen + {x}, routes + [x]);
        }
    }
  }

  /** Reversing a linked walk: each element after the first is recorded as
      the predecessor of the one before it. */
  lemma ReversedLinked(prev: map<Vertex, Vertex>, w: seq<Vertex>)
    requires Linked(prev, w)
    ensures forall i :: 0 < i < |w| ==> Reversed(w)[i] in prev && prev[Reversed(w)[i]] == Reversed(w)[i - 1]
  {
    forall i | 0 < i < |w|
      ensures Reversed(w)[i] in prev && prev[Reversed(w)[i]] == Reversed(w)[i - 1]
    {
      assert Reversed(w)[i - 1] == w[|w| - i] && Reversed(w)[i] == w[|w| - 1 - i];
    }
  }

  /** Read from the end, the route follows recorded predecessors and ends at `to`. */
  lemma RoutesOfLinked(prev: map<Vertex, Vertex>, from: Vertex, to: Vertex)
    ensures |RoutesOf(prev, from, to)| >= 1
    ensures RoutesOf(prev, from, to)[|RoutesOf(prev, from, to)| - 1] == to
    ensures forall i :: 0 < i < |RoutesOf(prev, from, to)| ==>
              RoutesOf(prev, from, to)[i] in prev && prev[RoutesOf(prev, from, to)[i]] == RoutesOf(prev, from, to)[i - 1]
  {
    assert Walk(prev, from, Lookup(prev, to), {}, [to])[..1] == [to];
    WalkLinked(prev, from, Lookup(prev, to), {}, [to]);
    ReversedLinked(prev, Walk(prev, from, Lookup(prev, to), {}, [to]));
  }

  /** The route always ends at `to`, so it reaches exactly when it starts at `from`. */
  lemma RouteEnds(g: State, from: Vertex, to: Vertex)
    ensures |GetRoutes(g, from, to)| >= 1
    ensures Last(GetRoutes(g, from, to)) == Some(to)
    ensures Reachable(g, from, to) <==> GetRoutes(g, from, to)[0] == from
  {
    RoutesOfLinked(TrafficPrev(g, from), from, to);
  }

  /** Every step of a route follows an edge of the graph. */
  lemma RouteIsPath(g: State, from: Vertex, to: Vertex)
    ensures forall i :: 0 <= i < |GetRoutes(g, from, to)| - 1 ==>
              GetRoutes(g, from, to)[i + 1] in RowOf(AdjOf(g), GetRoutes(g, from, to)[i]).at
  {
    RoutesOfLinked(TrafficPrev(g, from), from, to);
    PrevIsEdge(g, from);
  }

  /** A vertex with no recorded predecessor of its own is reached from
      itself by the route of one vertex. */
  lemma RouteToItself(g: State, a: Vertex)
    requires a !in TrafficPrev(g, a)
    ensures GetRoutes(g, a, a) == [a]
    ensures Reachable(g, a, a)
  {
  }

  // --------------------------------------------------- traffic and depth

  /** The sum of the weights of the steps of a walk. */
  function PathWeight(adj: Adj, r: seq<Vertex>): real
    decreases |r|
  {
    if |r| < 2 then 0.0 else Before(RowOf(adj, r[0]), r[1]) + PathWeight(adj, r[1..])
  }

  /** `traffic(from, to)`: the sum of the weights along the route, or
      `Infinity` when `to` cannot be reached. */
  function Traffic(g: State, from: Vertex, to: Vertex): (r: Dist)
    ensures r.Fin? <==> Reachable(g, from, to)
  {
    if Reachable(g, from, to) then Fin(PathWeight(AdjOf(g), GetRoutes(g, from, to))) else Inf
  }

  /** `depth(from, to)`: the number of steps of the route, or `Infinity`. */
  function Depth(g: State, from: Vertex, to: Vertex): (r: Dist)
    ensures r.Fin? <==> Reachable(g, from, to)
  {
    if Reachable(g, from, to) then Fin((|GetRoutes(g, from, to)| - 1) as real) else Inf
  }

  /** `distance(a, b)`: the smaller depth of the two directions. */
  function Distance(g: State, a: Vertex, b: Vertex): (r: Dist)
    ensures AtMost(r, Depth(g, a, b)) && AtMost(r, Depth(g, b, a))
    ensures r == Depth(g, a, b) || r == Depth(g, b, a)
    ensures r.Fin? <==> Reachable(g, a, b) || Reachable(g, b, a)
  {
    Min(Depth(g, a, b), Depth(g, b, a))
  }

  /** `distance` does not depend on the direction. */
  lemma DistanceSymmetric(g: State, a: Vertex, b: Vertex)
    ensures Distance(g, a, b) == Distance(g, b, a)
  {
  }

  /** A vertex with no predecessor of its own is at traffic 0 and depth 0 from itself. */
  lemma TrafficToItself(g: State, a: Vertex)
    requires a !in TrafficPrev(g, a)
    ensures Traffic(g, a, a) == Fin(0.0)
    ensures Depth(g, a, a) == Fin(0.0) && Distance(g, a, a) == Fin(0.0)
  {
    RouteToItself(g, a);
  }

  /** The key `hasOwnProperty` looks up when it is handed `undefined`. */
  const Undefined: Vertex := "undefined"

  /** The accumulator loop of `traffic` as the source writes it, from
      position `i` of the route on. Past the last vertex `routes[i]` is
      `undefined`, which `hasOwnProperty` reads as the key `"undefined"`;
      when the last vertex has an edge to a vertex of that name its weight
      is added once more, and the loop stops since `vertex` is then
      `undefined`. */
  function LoopSum(adj: Adj, r: seq<Vertex>, i: nat): real
    requires i < |r|
    decreases |r| - i
  {
    if i + 1 < |r| then
      if r[i + 1] in RowOf(adj, r[i]).at then RowOf(adj, r[i]).at[r[i + 1]] + LoopSum(adj, r, i + 1) else 0.0
    else Before(RowOf(adj, r[i]), Undefined)
  }

  /** `traffic(from, to)` as written. */
  function TrafficAsWritten(g: State, from: Vertex, to: Vertex): (r: Dist)
    ensures r.Fin? <==> Reachable(g, from, to)
  {
    RouteEnds(g, from, to);
    if Reachable(g, from, to) then Fin(LoopSum(AdjOf(g), GetRoutes(g, from, to), 0)) else Inf
  }

  lemma {:induction false} LoopSumOnPath(adj: Adj, r: seq<Vertex>, i: nat)
    requires i < |r|
    requires forall j :: 0 <= j < |r| - 1 ==> r[j + 1] in RowOf(adj, r[j]).at
    ensures LoopSum(adj, r, i) == PathWeight(adj, r[i..]) + Before(RowOf(adj, r[|r| - 1]), Undefined)
    decreases |r| - i
  {
    if i + 1 < |r| {
      LoopSumOnPath(adj, r, i + 1);
      assert r[i..][1..] == r[i + 1..];
    }
  }

  /** The loop as written adds the weight of the edge from `to` to a
      vertex named `"undefined"` to the traffic of every route it ends. */
  lemma TrafficAsWrittenAddsUndefined(g: State, from: Vertex, to: Vertex)
    requires Reachable(g, from, to)
    ensures TrafficAsWritten(g, from, to).value
         == Traffic(g, from, to).value + Before(RowOf(AdjOf(g), to), Undefined)
  {
    RouteEnds(g, from, to);
    RouteIsPath(g, from, to);
    LoopSumOnPath(AdjOf(g), GetRoutes(g, from, to), 0);
  }

  /** A graph of one edge, from `"a"` to a vertex named `"undefined"` of weight 5. */
  function UndefinedEdgeGraph(): State {
    State(GraphData(Put(Empty(), "a", Put(Empty(), Undefined, 5.0)), ["a", Undefined]), ["a", Undefined])
  }

  /** In that graph `traffic("a", "a")` as written is 5, not 0. */
  lemma TrafficOfUndefinedEdge()
    ensures TrafficAsWritten(UndefinedEdgeGraph(), "a", "a") == Fin(5.0)
    ensures Traffic(UndefinedEdgeGraph(), "a", "a") == Fin(0.0)
  {
    var g := UndefinedEdgeGraph();
    assert "a" !in Targets(AdjOf(g));
    PrevInTargets(g, "a");
    TrafficToItself(g, "a");
    TrafficAsWrittenAddsUndefined(g, "a", "a");
  }

  // ------------------------------------------------------ _addEdges/edges

  /** The `queue` and `inQueue` that the calls of `_addEdges` share. */
  datatype Found = Found(queue: seq<Vertex>, inQueue: set<Vertex>)

  /** `_addEdges(x, depth, cur, queue, inQueue)`: nothing once `cur` has
      reached `depth` (never, for a negative `depth`), otherwise the scan of
      the row of `x`. */
  function Expand(adj: Adj, depth: int, cur: int, x: Vertex, acc: Found): (r: Found)
    ensures acc.inQueue <= r.inQueue
    ensures acc.queue <= r.queue
    decreases |Targets(adj) - acc.inQueue|, |RowOf(adj, x).keys| + 1
  {
    if cur == depth then acc
    else
      RowInTargets(adj, x);
      Keys(RowOf(adj, x));
      ScanEdges(adj, depth, cur, RowOf(adj, x).keys, acc)
  }

  /** The `for (const v in gv)` loop of `_addEdges` over the remaining keys:
      a vertex already marked is skipped, a new one is queued, marked and
      expanded one level deeper. */
  function ScanEdges(adj: Adj, depth: int, cur: int, keys: seq<Vertex>, acc: Found): (r: Found)
    requires forall k :: k in keys ==> k in Targets(adj)
    ensures acc.inQueue <= r.inQueue
    ensures acc.queue <= r.queue
    decreases |Targets(adj) - acc.inQueue|, |keys|
  {
    if keys == [] then acc
    else if keys[0] in acc.inQueue then ScanEdges(adj, depth, cur, keys[1..], acc)
    else
      MarkShrinks(Targets(adj), acc.inQueue, keys[0]);
      var a2 := Expand(adj, depth, cur + 1, keys[0], Push(acc, keys[0]));
      MarksShrink(Targets(adj), acc.inQueue, a2.inQueue);
      var r := ScanEdges(adj, depth, cur, keys[1..], a2);
      assert acc.queue <= Push(acc, keys[0]).queue <= a2.queue <= r.queue;
      r
  }

  /** `queue.push(v)` and `inQueue[v] = true` */
  function Push(acc: Found, v: Vertex): (r: Found)
    ensures r.queue == acc.queue + [v] && r.inQueue == acc.inQueue + {v}
  {
    Found(acc.queue + [v], acc.inQueue + {v})
  }

  /** A key already marked is skipped. */
  lemma ScanSkip(adj: Adj, depth: int, cur: int, keys: seq<Vertex>, acc: Found)
    requires forall k :: k in keys ==> k in Targets(adj)
    requires keys != [] && keys[0] in acc.inQueue
    ensures ScanEdges(adj, depth, cur, keys, acc) == ScanEdges(adj, depth, cur, keys[1..], acc)
  {
  }

  /** A key not marked yet is queued, marked and expanded before the scan goes on. */
  lemma ScanPush(adj: Adj, depth: int, cur: int, keys: seq<Vertex>, acc: Found)
    requires forall k :: k in keys ==> k in Targets(adj)
    requires keys != [] && keys[0] !in acc.inQueue
    ensures |Targets(adj) - Push(acc, keys[0]).inQueue| < |Targets(adj) - acc.inQueue|
    ensures |Targets(adj) - Expand(adj, depth, cur + 1, keys[0], Push(acc, keys[0])).inQueue| <= |Targets(adj) - acc.inQueue|
    ensures ScanEdges(adj, depth, cur, keys, acc)
         == ScanEdges(adj, depth, cur, keys[1..], Expand(adj, depth, cur + 1, keys[0], Push(acc, keys[0])))
  {
    MarkShrinks(Targets(adj), acc.inQueue, keys[0]);
    MarksShrink(Targets(adj), acc.inQueue, Expand(adj, depth, cur + 1, keys[0], Push(acc, keys[0])).inQueue);
  }

  /** `edges(vertex, depth)`: the vertices `_addEdges` queues, starting
      with nothing marked. */
  function Edges(g: State, v: Vertex, depth: int): seq<Vertex> {
    Expand(AdjOf(g), depth, 0, v, Found([], {})).queue
  }

  /** `y` is reached from `x` by a walk of at least one and at most `n` edges. */
  ghost predicate Reaches(adj: Adj, x: Vertex, y: Vertex, n: nat)
    decreases n
  {
    n > 0 && (y in RowOf(adj, x).at || exists z :: z in RowOf(adj, x).at && Reaches(adj, z, y, n - 1))
  }

  /** The marks and the queue agree, and nothing is queued twice. */
  ghost predicate Good(f: Found) {
    Distinct(f.queue) && forall x :: x in f.queue <==> x in f.inQueue
  }

  lemma {:induction false} ExpandGood(adj: Adj, depth: int, cur: int, x: Vertex, acc: Found)
    requires Good(acc)
    ensures Good(Expand(adj, depth, cur, x, acc))
    decreases |Targets(adj) - acc.inQueue|, |RowOf(adj, x).keys| + 1
  {
    if cur != depth {
      RowInTargets(adj, x);
      Keys(RowOf(adj, x));
      ScanGood(adj, depth, cur, RowOf(adj, x).keys, acc);
    }
  }

  lemma {:induction false} ScanGood(adj: Adj, depth: int, cur: int, keys: seq<Vertex>, acc: Found)
    requires forall k :: k in keys ==> k in Targets(adj)
    requires Good(acc)
    ensures Good(ScanEdges(adj, depth, cur, keys, acc))
    decreases |Targets(adj) - acc.inQueue|, |keys|
  {
    if keys != [] {
      if keys[0] in acc.inQueue {
        ScanSkip(adj, depth, cur, keys, acc);
        ScanGood(adj, depth, cur, keys[1..], acc);
      } else {
        ScanPush(adj, depth, cur, keys, acc);
        assert Good(Push(acc, keys[0])) by {
          forall i, j | 0 <= i < j < |acc.queue + [keys[0]]|
            ensures (acc.queue + [keys[0]])[i] != (acc.queue + [keys[0]])[j]
          {
            if j == |acc.queue| { assert (acc.queue + [keys[0]])[i] in acc.queue; }
          }
        }
        ExpandGood(adj, depth, cur + 1, keys[0], Push(acc, keys[0]));
        ScanGood(adj, depth, cur, keys[1..], Expand(adj, depth, cur + 1, keys[0], Push(acc, keys[0])));
      }
    }
  }

  /** `edges` never lists a vertex twice. */
  lemma EdgesDistinct(g: State, v: Vertex, depth: int)
    ensures Distinct(Edges(g, v, depth))
  {
    ExpandGood(AdjOf(g), depth, 0, v, Found([], {}));
  }

  /** `edges(v, 0)` is empty. */
  lemma EdgesAtDepthZero(g: State, v: Vertex)
    ensures Edges(g, v, 0) == []
  {
  }

  /** One level above the depth limit a new key is queued and marked, and
      its expansion adds nothing. */
  lemma ScanLastLevel(adj: Adj, keys: seq<Vertex>, acc: Found)
    requires forall k :: k in keys ==> k in Targets(adj)
    requires keys != [] && keys[0] !in acc.inQueue
    ensures ScanEdges(adj, 1, 0, keys, acc) == ScanEdges(adj, 1, 0, keys[1..], Push(acc, keys[0]))
  {
    ScanPush(adj, 1, 0, keys, acc);
  }

  lemma {:induction false} ScanOneLevel(adj: Adj, keys: seq<Vertex>, acc: Found)
    requires forall k :: k in keys ==> k in Targets(adj)
    requires Distinct(keys)
    requires forall k :: k in keys ==> k !in acc.inQueue
    ensures ScanEdges(adj, 1, 0, keys, acc).queue == acc.queue + keys
    decreases |keys|
  {
    if keys != [] {
      DistinctTail(keys);
      assert keys[0] in keys;
      ScanLastLevel(adj, keys, acc);
      forall k | k in keys[1..] ensures k in Targets(adj) && k !in Push(acc, keys[0]).inQueue {
        assert k in keys;
      }
      ScanOneLevel(adj, keys[1..], Push(acc, keys[0]));
      assert acc.queue + [keys[0]] + keys[1..] == acc.queue + keys;
    }
  }

  /** `edges(v, 1)` is the row of `v`, in the order of its keys. */
  lemma EdgesAtDepthOne(g: State, v: Vertex)
    ensures Edges(g, v, 1) == RowOf(AdjOf(g), v).keys
  {
    RowInTargets(AdjOf(g), v);
    Keys(RowOf(AdjOf(g), v));
    ScanOneLevel(AdjOf(g), RowOf(AdjOf(g), v).keys, Found([], {}));
  }

  lemma {:induction false} ExpandWithin(adj: Adj, depth: int, cur: int, x: Vertex, acc: Found)
    requires 0 <= cur <= depth
    ensures forall y :: y in Expand(adj, depth, cur, x, acc).inQueue && y !in acc.inQueue ==> Reaches(adj, x, y, depth - cur)
    decreases |Targets(adj) - acc.inQueue|, |RowOf(adj, x).keys| + 1
  {
    if cur != depth {
      RowInTargets(adj, x);
      Keys(RowOf(adj, x));
      ScanWithin(adj, depth, cur, x, RowOf(adj, x).keys, acc);
    }
  }

  lemma {:induction false} ScanWithin(adj: Adj, depth: int, cur: int, x: Vertex, keys: seq<Vertex>, acc: Found)
    requires 0 <= cur < depth
    requires forall k :: k in keys ==> k in RowOf(adj, x).at && k in Targets(adj)
    ensures forall y :: y in ScanEdges(adj, depth, cur, keys, acc).inQueue && y !in acc.inQueue ==> Reaches(adj, x, y, depth - cur)
    decreases |Targets(adj) - acc.inQueue|, |keys|
  {
    if keys != [] {
      if keys[0] in acc.inQueue {
        ScanSkip(adj, depth, cur, keys, acc);
        ScanWithin(adj, depth, cur, x, keys[1..], acc);
      } else {
        assert keys[0] in keys;
        ScanPush(adj, depth, cur, keys, acc);
        ExpandWithin(adj, depth, cur + 1, keys[0], Push(acc, keys[0]));
        ScanWithin(adj, depth, cur, x, keys[1..], Expand(adj, depth, cur + 1, keys[0], Push(acc, keys[0])));
        StepWithin(adj, depth - cur, x, keys[0], acc.inQueue, Expand(adj, depth, cur + 1, keys[0], Push(acc, keys[0])).inQueue,
          ScanEdges(adj, depth, cur, keys[1..], Expand(adj, depth, cur + 1, keys[0], Push(acc, keys[0]))).inQueue);
      }
    }
  }

  /** The marks after one new key `k` of the row of `x`: `k` itself, what
      its expansion marked (reached from `k`), then what the rest of the
      scan marked (reached from `x`). */
  lemma StepWithin(adj: Adj, n: nat, x: Vertex, k: Vertex, m0: set<Vertex>, m2: set<Vertex>, m3: set<Vertex>)
    requires 0 < n && k in RowOf(adj, x).at
    requires forall y :: y in m2 && y !in m0 + {k} ==> Reaches(adj, k, y, n - 1)
    requires forall y :: y in m3 && y !in m2 ==> Reaches(adj, x, y, n)
    ensures forall y :: y in m3 && y !in m0 ==> Reaches(adj, x, y, n)
  {
    forall y | y in m3 && y !in m0 ensures Reaches(adj, x, y, n) {
      if y in m2 && y != k {
        assert Reaches(adj, k, y, n - 1);
      }
    }
  }

  /** With a depth of 0 or more, every vertex `edges` lists is reached from
      the start by a walk of 1 to `depth` edges. */
  lemma EdgesWithin(g: State, v: Vertex, depth: int)
    requires depth >= 0
    ensures forall y :: y in Edges(g, v, depth) ==> Reaches(AdjOf(g), v, y, depth)
  {
    ExpandWithin(AdjOf(g), depth, 0, v, Found([], {}));
    ExpandGood(AdjOf(g), depth, 0, v, Found([], {}));
  }

  /** `y` is reached from `x` by a walk of one edge or more. */
  ghost predicate ReachesSome(adj: Adj, x: Vertex, y: Vertex) {
    exists n: nat :: Reaches(adj, x, y, n)
  }

  lemma {:induction false} ExpandFinds(adj: Adj, depth: int, cur: int, x: Vertex, acc: Found)
    requires depth < 0 <= cur
    ensures forall y :: y in Expand(adj, depth, cur, x, acc).inQueue && y !in acc.inQueue ==> ReachesSome(adj, x, y)
    decreases |Targets(adj) - acc.inQueue|, |RowOf(adj, x).keys| + 1
  {
    RowInTargets(adj, x);
    Keys(RowOf(adj, x));
    ScanFinds(adj, depth, cur, x, RowOf(adj, x).keys, acc);
  }

  lemma {:induction false} ScanFinds(adj: Adj, depth: int, cur: int, x: Vertex, keys: seq<Vertex>, acc: Found)
    requires depth < 0 <= cur
    requires forall k :: k in keys ==> k in RowOf(adj, x).at && k in Targets(adj)
    ensures forall y :: y in ScanEdges(adj, depth, cur, keys, acc).inQueue && y !in acc.inQueue ==> ReachesSome(adj, x, y)
    decreases |Targets(adj) - acc.inQueue|, |keys|
  {
    if keys != [] {
      if keys[0] in acc.inQueue {
        ScanSkip(adj, depth, cur, keys, acc);
        ScanFinds(adj, depth, cur, x, keys[1..], acc);
      } else {
        assert keys[0] in keys;
        ScanPush(adj, depth, cur, keys, acc);
        ExpandFinds(adj, depth, cur + 1, keys[0], Push(acc, keys[0]));
        ScanFinds(adj, depth, cur, x, keys[1..], Expand(adj, depth, cur + 1, keys[0], Push(acc, keys[0])));
        StepFinds(adj, x, keys[0], acc.inQueue, Expand(adj, depth, cur + 1, keys[0], Push(acc, keys[0])).inQueue,
          ScanEdges(adj, depth, cur, keys[1..], Expand(adj, depth, cur + 1, keys[0], Push(acc, keys[0]))).inQueue);
      }
    }
  }

  /** The marks after one new key `k` of the row of `x`, as in StepWithin
      but with no bound on the length of the walks. */
  lemma StepFinds(adj: Adj, x: Vertex, k: Vertex, m0: set<Vertex>, m2: set<Vertex>, m3: set<Vertex>)
    requires k in RowOf(adj, x).at
    requires forall y :: y in m2 && y !in m0 + {k} ==> ReachesSome(adj, k, y)
    requires forall y :: y in m3 && y !in m2 ==> ReachesSome(adj, x, y)
    ensures forall y :: y in m3 && y !in m0 ==> ReachesSome(adj, x, y)
  {
    forall y | y in m3 && y !in m0 ensures ReachesSome(adj, x, y) {
      if y == k {
        assert Reaches(adj, x, y, 1);
      } else if y in m2 {
        var n: nat :| Reaches(adj, k, y, n);
        assert Reaches(adj, x, y, n + 1);
      }
    }
  }

  /** Every vertex marked after `before` has its whole row marked. */
  ghost predicate ClosedOver(adj: Adj, before: set<Vertex>, after: set<Vertex>) {
    forall m {:trigger RowOf(adj, m)} :: m in after && m !in before ==> RowOf(adj, m).at.Keys <= after
  }

  lemma {:induction false} ExpandCovers(adj: Adj, depth: int, cur: int, x: Vertex, acc: Found)
    requires depth < 0 <= cur
    ensures RowOf(adj, x).at.Keys <= Expand(adj, depth, cur, x, acc).inQueue
  {
    RowInTargets(adj, x);
    Keys(RowOf(adj, x));
    ScanCovers(adj, depth, cur, RowOf(adj, x).keys, acc);
  }

  /** A scan with no depth limit marks every key it passes. */
  lemma {:induction false} ScanCovers(adj: Adj, depth: int, cur: int, keys: seq<Vertex>, acc: Found)
    requires depth < 0 <= cur
    requires forall k :: k in keys ==> k in Targets(adj)
    ensures forall k :: k in keys ==> k in ScanEdges(adj, depth, cur, keys, acc).inQueue
    decreases |keys|
  {
    if keys != [] {
      if keys[0] in acc.inQueue {
        ScanSkip(adj, depth, cur, keys, acc);
      } else {
        ScanPush(adj, depth, cur, keys, acc);
      }
      ScanCovers(adj, depth, cur, keys[1..], ScanStep(adj, depth, cur, keys, acc));
      KeysCovered(keys, ScanEdges(adj, depth, cur, keys, acc).inQueue);
    }
  }

  /** What the scan holds after its first key. */
  function ScanStep(adj: Adj, depth: int, cur: int, keys: seq<Vertex>, acc: Found): (r: Found)
    requires keys != [] && forall k :: k in keys ==> k in Targets(adj)
    ensures acc.inQueue <= r.inQueue && keys[0] in r.inQueue
  {
    if keys[0] in acc.inQueue then acc else Expand(adj, depth, cur + 1, keys[0], Push(acc, keys[0]))
  }

  lemma KeysCovered(keys: seq<Vertex>, m3: set<Vertex>)
    requires keys != [] && keys[0] in m3
    requires forall k :: k in keys[1..] ==> k in m3
    ensures forall k :: k in keys ==> k in m3
  {
    assert forall k :: k in keys ==> k == keys[0] || k in keys[1..];
  }

  lemma {:induction false} ExpandCloses(adj: Adj, depth: int, cur: int, x: Vertex, acc: Found)
    requires depth < 0 <= cur
    ensures ClosedOver(adj, acc.inQueue, Expand(adj, depth, cur, x, acc).inQueue)
    decreases |Targets(adj) - acc.inQueue|, |RowOf(adj, x).keys| + 1
  {
    RowInTargets(adj, x);
    Keys(RowOf(adj, x));
    ScanCloses(adj, depth, cur, RowOf(adj, x).keys, acc);
  }

  lemma {:induction false} ScanCloses(adj: Adj, depth: int, cur: int, keys: seq<Vertex>, acc: Found)
    requires depth < 0 <= cur
    requires forall k :: k in keys ==> k in Targets(adj)
    ensures ClosedOver(adj, acc.inQueue, ScanEdges(adj, depth, cur, keys, acc).inQueue)
    decreases |Targets(adj) - acc.inQueue|, |keys|, 1
  {
    if keys != [] {
      if keys[0] in acc.inQueue {
        ScanSkip(adj, depth, cur, keys, acc);
        ScanCloses(adj, depth, cur, keys[1..], acc);
      } else {
        ScanPush(adj, depth, cur, keys, acc);
        PushCloses(adj, depth, cur, keys, acc);
      }
    }
  }

  /** A new first key of the scan: its expansion, then the rest of the scan. */
  lemma {:induction false} PushCloses(adj: Adj, depth: int, cur: int, keys: seq<Vertex>, acc: Found)
    requires depth < 0 <= cur
    requires forall k :: k in keys ==> k in Targets(adj)
    requires keys != [] && keys[0] !in acc.inQueue
    ensures ClosedOver(adj, acc.inQueue,
      ScanEdges(adj, depth, cur, keys[1..], Expand(adj, depth, cur + 1, keys[0], Push(acc, keys[0]))).inQueue)
    decreases |Targets(adj) - acc.inQueue|, |keys|, 0
  {
    ScanPush(adj, depth, cur, keys, acc);
    ExpandCloses(adj, depth, cur + 1, keys[0], Push(acc, keys[0]));
    ScanCloses(adj, depth, cur, keys[1..], Expand(adj, depth, cur + 1, keys[0], Push(acc, keys[0])));
    StepCloses(adj, depth, cur, keys[0], acc,
      ScanEdges(adj, depth, cur, keys[1..], Expand(adj, depth, cur + 1, keys[0], Push(acc, keys[0]))).inQueue);
  }

  /** The marks after one new key `k`: `k` with its row, what its expansion
      marked, then what the rest of the scan marked, each with its row
      marked. */
  lemma StepCloses(adj: Adj, depth: int, cur: int, k: Vertex, acc: Found, m3: set<Vertex>)
    requires depth < 0 <= cur
    requires Expand(adj, depth, cur + 1, k, Push(acc, k)).inQueue <= m3
    requires ClosedOver(adj, Push(acc, k).inQueue, Expand(adj, depth, cur + 1, k, Push(acc, k)).inQueue)
    requires ClosedOver(adj, Expand(adj, depth, cur + 1, k, Push(acc, k)).inQueue, m3)
    ensures ClosedOver(adj, acc.inQueue, m3)
  {
    ExpandCovers(adj, depth, cur + 1, k, Push(acc, k));
  }

  lemma {:induction false} ClosedReaches(adj: Adj, marks: set<Vertex>, v: Vertex, y: Vertex, n: nat)
    requires forall z :: z in RowOf(adj, v).at ==> z in marks
    requires ClosedOver(adj, {}, marks)
    requires Reaches(adj, v, y, n)
    ensures y in marks
    decreases n
  {
    if y !in RowOf(adj, v).at {
      var z :| z in RowOf(adj, v).at && Reaches(adj, z, y, n - 1);
      ClosedReaches(adj, marks, z, y, n - 1);
    }
  }

  /** With a negative depth the search is unrestricted: `edges` lists
      exactly the vertices reached from the start by one edge or more. */
  lemma EdgesUnbounded(g: State, v: Vertex, depth: int)
    requires depth < 0
    ensures forall y :: y in Edges(g, v, depth) <==> ReachesSome(AdjOf(g), v, y)
  {
    ExpandGood(AdjOf(g), depth, 0, v, Found([], {}));
    ExpandFinds(AdjOf(g), depth, 0, v, Found([], {}));
    ExpandCovers(AdjOf(g), depth, 0, v, Found([], {}));
    ExpandCloses(AdjOf(g), depth, 0, v, Found([], {}));
    forall y | ReachesSome(AdjOf(g), v, y) ensures y in Edges(g, v, depth) {
      var n: nat :| Reaches(AdjOf(g), v, y, n);
      ClosedReaches(AdjOf(g), Expand(AdjOf(g), depth, 0, v, Found([], {})).inQueue, v, y, n);
    }
  }

  // ----------------------------------------------------------------- weight

  /** The `[weight, num]` tuple that `weight` computes. */
  datatype Tally = Tally(weight: real, count: nat)

  /** One pass of the loop of `weight`: a source whose row has an edge into
      `x` adds the weight of that edge and one to the count. */
  function Count(t: Tally, row: Row, x: Vertex): Tally {
    if x in row.at then Tally(t.weight + row.at[x], t.count + 1) else t
  }

  /** The loop of `weight` after the sources `keys`, taken left to right. */
  function Incoming(adj: Adj, keys: seq<Vertex>, x: Vertex): Tally
    decreases |keys|
  {
    if keys == [] then Tally(0.0, 0)
    else Count(Incoming(adj, keys[..|keys| - 1], x), RowOf(adj, keys[|keys| - 1]), x)
  }

  /** The sources among `keys` that have an edge into `x`, in order. */
  function Sources(adj: Adj, keys: seq<Vertex>, x: Vertex): (r: seq<Vertex>)
    ensures forall k :: k in r <==> k in keys && x in RowOf(adj, k).at
    decreases |keys|
  {
    if keys == [] then []
    else
      assert forall k :: k in keys <==> k in keys[..|keys| - 1] || k == keys[|keys| - 1] by {
        assert keys == keys[..|keys| - 1] + [keys[|keys| - 1]];
      }
      Sources(adj, keys[..|keys| - 1], x) + (if x in RowOf(adj, keys[|keys| - 1]).at then [keys[|keys| - 1]] else [])
  }

  /** The count is the number of sources with an edge into `x`, and with
      none of them the weight is 0. */
  lemma {:induction false} IncomingCounts(adj: Adj, keys: seq<Vertex>, x: Vertex)
    ensures Incoming(adj, keys, x).count == |Sources(adj, keys, x)|
    ensures Sources(adj, keys, x) == [] ==> Incoming(adj, keys, x).weight == 0.0
    decreases |keys|
  {
    if keys != [] {
      IncomingCounts(adj, keys[..|keys| - 1], x);
    }
  }

  /** After `invert()` every source keeps its edges into `x` and each edge
      weighs its negation, so the weight is negated and the count stays. */
  lemma {:induction false} IncomingInverted(adj: Adj, keys: seq<Vertex>, x: Vertex)
    ensures Incoming(Inverted(adj), keys, x) == Tally(-Incoming(adj, keys, x).weight, Incoming(adj, keys, x).count)
    decreases |keys|
  {
    if keys != [] {
      IncomingInverted(adj, keys[..|keys| - 1], x);
      InvertEffect(adj, keys[|keys| - 1], x);
    }
  }

  /** The tuple of `weight(x, mode)`, over every source of the graph. */
  function Totals(g: State, x: Vertex): Tally {
    Incoming(AdjOf(g), AdjOf(g).keys, x)
  }

  /** The modes `weight` supports. */
  datatype Mode = TrafficMode | NumberMode | MeanMode

  /** The `switch (mode)` of `weight`: a supported mode, or none. */
  function ModeOf(mode: string): (m: Option<Mode>)
    ensures m == Some(TrafficMode) <==> mode == "traffic"
    ensures m == Some(NumberMode) <==> mode == "number"
    ensures m == Some(MeanMode) <==> mode == "mean"
  {
    if mode == "traffic" then Some(TrafficMode)
    else if mode == "number" then Some(NumberMode)
    else if mode == "mean" then Some(MeanMode)
    else None
  }

  /** The value `weight` returns for a supported mode: the total weight into
      `x`, the number of sources with an edge into `x`, or their ratio, `0`
      when the count is 0 (`0 / 0` is `NaN`). */
  function WeightIn(t: Tally, m: Mode): real {
    match m
    case TrafficMode => t.weight
    case NumberMode => t.count as real
    case MeanMode => if t.count == 0 then 0.0 else t.weight / (t.count as real)
  }

  /** The mean is the weight per source: with no source it is 0, otherwise
      the mean times the count is the total weight. */
  lemma MeanTimesCount(t: Tally)
    ensures t.count == 0 ==> WeightIn(t, MeanMode) == 0.0
    ensures t.count > 0 ==> WeightIn(t, MeanMode) * WeightIn(t, NumberMode) == WeightIn(t, TrafficMode)
  {
  }

  /** `weight(x, mode)`; a mode it does not support throws. */
  function Weight(g: State, x: Vertex, mode: string): (r: Result<real>)
    ensures r.Ok? <==> mode == "traffic" || mode == "number" || mode == "mean"
    ensures r.Err? ==> r.error == UnsupportedMode
    ensures r.Ok? ==> r.value == WeightIn(Totals(g, x), ModeOf(mode).value)
  {
    match ModeOf(mode)
    case Some(m) => Ok(WeightIn(Totals(g, x), m))
    case None => Err(UnsupportedMode)
  }

  /** The state after `invert()`: the same vertices, every weight negated. */
  function InvertedState(g: State): State {
    State(GraphData(Inverted(g.data.vertex), g.data.embedded), g.vertices)
  }

  lemma TotalsInverted(g: State, x: Vertex)
    ensures Totals(InvertedState(g), x) == Tally(-Totals(g, x).weight, Totals(g, x).count)
  {
    IncomingInverted(AdjOf(g), AdjOf(g).keys, x);
  }

  /** After `invert()` the weight into `x` and its mean change sign, and the
      number of sources stays. */
  lemma WeightInverted(g: State, x: Vertex, m: Mode)
    ensures m != NumberMode ==> WeightIn(Totals(InvertedState(g), x), m) == -WeightIn(Totals(g, x), m)
    ensures m == NumberMode ==> WeightIn(Totals(InvertedState(g), x), m) == WeightIn(Totals(g, x), m)
  {
    TotalsInverted(g, x);
    WeightNegated(Totals(g, x), m);
  }

  /** Negating the total weight negates the weight and the mean, and leaves
      the count. */
  lemma WeightNegated(t: Tally, m: Mode)
    ensures m != NumberMode ==> WeightIn(Tally(-t.weight, t.count), m) == -WeightIn(t, m)
    ensures m == NumberMode ==> WeightIn(Tally(-t.weight, t.count), m) == WeightIn(t, m)
  {
    if m == MeanMode && t.count > 0 {
      assert -t.weight / (t.count as real) == -(t.weight / (t.count as real));
    }
  }

  /** A vertex nothing points to weighs nothing, in every mode. */
  lemma WeightOfUnreached(g: State, x: Vertex, m: Mode)
    requires x !in Targets(AdjOf(g))
    ensures WeightIn(Totals(g, x), m) == 0.0
  {
    IncomingCounts(AdjOf(g), AdjOf(g).keys, x);
    if Sources(AdjOf(g), AdjOf(g).keys, x) != [] {
      var k := Sources(AdjOf(g), AdjOf(g).keys, x)[0];
      assert k in Sources(AdjOf(g), AdjOf(g).keys, x);
      RowInTargets(AdjOf(g), k);
    }
  }
}
