/**
 * The class of src/TrafficTraversal.ts: the queries over one frozen graph
 * state, each memoised in one of six caches. Every method runs the loops
 * of the source and is proved to return the value TraversalModel defines;
 * `Valid` says that every cached entry is the value its key stands for,
 * so a cached answer is always the answer.
 *
 * The source names its cache entries by text (`route ${from} to ${to}`,
 * `vertex '${vertex}' has '${edge}' edge`, ...). The model keys them by
 * values, which tell two queries apart whatever their vertex names.
 */
module TraversalEngine {
  import opened Base
  import opened ArrayUtil
  import opened OrderedMap
  import opened GraphModel
  import opened TraversalModel
  import opened Hashmap

  /** The entries of `_cStrings`: a route, or the vertices `edges` found. */
  datatype StringsKey = RouteKey(from: Vertex, to: Vertex) | EdgesKey(vertex: Vertex, depth: int)

  /** The entries of `_cNumber`: a traffic or a depth. */
  datatype NumberKey = TrafficKey(from: Vertex, to: Vertex) | DepthKey(from: Vertex, to: Vertex)

  /** The entries of `_cBoolean`: whether `vertex` has an edge to `edge`. */
  datatype EdgeQuery = EdgeQuery(vertex: Vertex, edge: Vertex)

  /** The value an entry of `_cStrings` stands for. */
  function StringsOf(g: State, k: StringsKey): seq<Vertex> {
    match k
    case RouteKey(from, to) => GetRoutes(g, from, to)
    case EdgesKey(v, depth) => Edges(g, v, depth)
  }

  /** The value an entry of `_cNumber` stands for. */
  function NumberOf(g: State, k: NumberKey): Dist {
    match k
    case TrafficKey(from, to) => Traffic(g, from, to)
    case DepthKey(from, to) => Depth(g, from, to)
  }

  /** The value an entry of `_cBoolean` stands for. */
  predicate HasEdge(g: State, q: EdgeQuery) {
    q.edge in RowOf(AdjOf(g), q.vertex).at
  }

  /** Each filed predecessor map is the relaxation's result for its start. */
  ghost predicate EdgesCached(g: State, m: map<Vertex, map<Vertex, Vertex>>) {
    forall v :: v in m ==> m[v] == TrafficPrev(g, v)
  }

  /** Each filed route or edge list is the value its key stands for. */
  ghost predicate StringsCached(g: State, m: map<StringsKey, seq<Vertex>>) {
    forall k :: k in m ==> m[k] == StringsOf(g, k)
  }

  /** Each filed traffic or depth is the value its key stands for. */
  ghost predicate NumbersCached(g: State, m: map<NumberKey, Dist>) {
    forall k :: k in m ==> m[k] == NumberOf(g, k)
  }

  /** Each filed weight tuple is the tally of its target. */
  ghost predicate TalliesCached(g: State, m: map<Vertex, Tally>) {
    forall v :: v in m ==> m[v] == Totals(g, v)
  }

  /** Each filed row is the row of its source. */
  ghost predicate RowsCached(g: State, m: map<Vertex, Row>) {
    forall v :: v in m ==> m[v] == RowOf(AdjOf(g), v)
  }

  /** Each filed edge test is the answer to its query. */
  ghost predicate EdgeTestsCached(g: State, m: map<EdgeQuery, bool>) {
    forall q :: q in m ==> m[q] == HasEdge(g, q)
  }

  class TrafficTraversal {
    /** `_trafficGraph`: the state the queries read. */
    const state: State
    /** `_cEdge`: predecessor maps, by start vertex. */
    const cEdge: Hashmap<Vertex, map<Vertex, Vertex>>
    /** `_cStrings`: routes and edge lists. */
    const cStrings: Hashmap<StringsKey, seq<Vertex>>
    /** `_cNumber`: traffics and depths. */
    const cNumber: Hashmap<NumberKey, Dist>
    /** `_cNumbers`: the weight tuples, by target vertex. */
    const cNumbers: Hashmap<Vertex, Tally>
    /** `_cVertex`: rows, by source vertex. */
    const cVertex: Hashmap<Vertex, Row>
    /** `_cBoolean`: edge tests. */
    const cBoolean: Hashmap<EdgeQuery, bool>

    /** Every cached entry is the value of the query it is filed under. */
    ghost predicate Valid()
      reads cEdge, cStrings, cNumber, cNumbers, cVertex, cBoolean
    {
      && EdgesCached(state, cEdge.store)
      && StringsCached(state, cStrings.store)
      && NumbersCached(state, cNumber.store)
      && TalliesCached(state, cNumbers.store)
      && RowsCached(state, cVertex.store)
      && EdgeTestsCached(state, cBoolean.store)
    }

    /** `new TrafficTraversal(state)`: the state and six empty caches. */
    constructor (st: State)
      ensures state == st && Valid()
      ensures fresh(cEdge) && fresh(cStrings) && fresh(cNumber) && fresh(cNumbers) && fresh(cVertex) && fresh(cBoolean)
    {
      state := st;
      cEdge := new Hashmap();
      cStrings := new Hashmap();
      cNumber := new Hashmap();
      cNumbers := new Hashmap();
      cVertex := new Hashmap();
      cBoolean := new Hashmap();
    }

    /** `_graphVertex(vertex)`: the row of `v`, empty for a vertex with no row. */
    method GraphVertex(v: Vertex) returns (row: Row)
      requires Valid()
      modifies cVertex
      ensures Valid()
      ensures row == RowOf(AdjOf(state), v)
    {
      row := cVertex.Ensure(v, () => RowOf(AdjOf(state), v));
    }

    /** `_isEdgeHaveGraphVertex(vertex, edge)`: whether the row of `v` has the key `e`. */
    method IsEdgeHaveGraphVertex(v: Vertex, e: Vertex) returns (b: bool)
      requires Valid()
      modifies cBoolean, cVertex
      ensures Valid()
      ensures b <==> e in RowOf(AdjOf(state), v).at
    {
      var present := cBoolean.Has(EdgeQuery(v, e));
      if present {
        var got := cBoolean.Get(EdgeQuery(v, e));
        b := got.value;
      } else {
        var row := GraphVertex(v);
        b := cBoolean.Set(EdgeQuery(v, e), e in row.at);
      }
    }

    /** `_getTrafficPrev(from)`: the predecessor map of the relaxation from `from`. */
    method GetTrafficPrev(from: Vertex) returns (edge: map<Vertex, Vertex>)
      requires Valid()
      modifies cEdge, cVertex
      ensures Valid()
      ensures edge == TrafficPrev(state, from)
    {
      var present := cEdge.Has(from);
      if present {
        var got := cEdge.Get(from);
        edge := got.value;
      } else {
        edge := RelaxFrom(from);
        edge := cEdge.Set(from, edge);
      }
    }

    /** The callback of `_getTrafficPrev`: every vertex at `Infinity` but
        `from`, then rows are scanned until the queue is empty. */
    method RelaxFrom(from: Vertex) returns (edge: map<Vertex, Vertex>)
      requires Valid()
      modifies cVertex
      ensures Valid()
      ensures edge == Relaxed(state, from).edge
    {
      var distance: map<Vertex, Dist> := Unvisit(state.vertices);
      distance := distance[from := Fin(0.0)];
      var inQueue: set<Vertex> := {from};
      var queue: seq<Vertex> := [from];
      edge := map[];
      while queue != []
        invariant Valid()
        invariant Run(AdjOf(state), Relax(queue, inQueue, distance, edge)) == Relaxed(state, from)
        decreases |Targets(AdjOf(state)) - inQueue|, |queue|
      {
        PassProgress(AdjOf(state), Relax(queue, inQueue, distance, edge));
        MarksShrink(Targets(AdjOf(state)), inQueue, TraversalModel.Pass(AdjOf(state), Relax(queue, inQueue, distance, edge)).inQueue);
        var u := queue[0];
        var row := GraphVertex(u);
        Keys(row);
        var after := ScanVertices(row, u, Relax(queue[1..], inQueue, distance, edge));
        queue, inQueue, distance, edge := after.queue, after.inQueue, after.distance, after.edge;
      }
    }

    /** `_getRoutes(from, to)`: the walk back from `to` along the
        predecessors, reversed. */
    method GetRoutes(from: Vertex, to: Vertex) returns (routes: seq<Vertex>)
      requires Valid()
      modifies cStrings, cEdge, cVertex
      ensures Valid()
      ensures routes == TraversalModel.GetRoutes(state, from, to)
    {
      var present := cStrings.Has(RouteKey(from, to));
      if present {
        var got := cStrings.Get(RouteKey(from, to));
        routes := got.value;
      } else {
        var prev := GetTrafficPrev(from);
        routes := WalkBack(prev, from, to);
        routes := cStrings.Set(RouteKey(from, to), Reversed(routes));
      }
    }

    /** `routes(from, to)`: a copy of the route, or the error thrown when it
        does not lead from `from` to `to`. */
    method Routes(from: Vertex, to: Vertex) returns (r: Result<seq<Vertex>>)
      requires Valid()
      modifies cStrings, cEdge, cVertex
      ensures Valid()
      ensures r == TraversalModel.Routes(state, from, to)
    {
      var routes := GetRoutes(from, to);
      if !Reach(routes, from, to) {
        r := Err(Unreachable);
      } else {
        r := Ok(Copy(routes));
      }
    }

    /** `_addEdges(vertex, depth, curDepth, queue, inQueue)`: the queue and
        the marks it shares with its caller, as they are when it returns. */
    method AddEdges(x: Vertex, depth: int, cur: int, queue: seq<Vertex>, inQueue: set<Vertex>)
      returns (q: seq<Vertex>, m: set<Vertex>)
      requires Valid()
      modifies cVertex
      ensures Valid()
      ensures Found(q, m) == Expand(AdjOf(state), depth, cur, x, Found(queue, inQueue))
      decreases |Targets(AdjOf(state)) - inQueue|, |RowOf(AdjOf(state), x).keys| + 1
    {
      var gv := GraphVertex(x);
      q, m := queue, inQueue;
      if cur == depth {
        return;
      }
      RowInTargets(AdjOf(state), x);
      Keys(gv);
      var keys := gv.keys;
      while keys != []
        invariant Valid()
        invariant forall k :: k in keys ==> k in Targets(AdjOf(state))
        invariant inQueue <= m
        invariant ScanEdges(AdjOf(state), depth, cur, keys, Found(q, m)) == Expand(AdjOf(state), depth, cur, x, Found(queue, inQueue))
        decreases |keys|
      {
        var v := keys[0];
        if v in m {
          ScanSkip(AdjOf(state), depth, cur, keys, Found(q, m));
        } else {
          ScanPush(AdjOf(state), depth, cur, keys, Found(q, m));
          MarksShrink(Targets(AdjOf(state)), inQueue, m);
          q, m := AddEdges(v, depth, cur + 1, q + [v], m + {v});
        }
        keys := keys[1..];
      }
    }

    /** `edges(vertex, depth)`: the vertices `_addEdges` queues from `v`. */
    method Edges(v: Vertex, depth: int) returns (r: seq<Vertex>)
      requires Valid()
      modifies cStrings, cVertex
      ensures Valid()
      ensures r == TraversalModel.Edges(state, v, depth)
    {
      var present := cStrings.Has(EdgesKey(v, depth));
      if present {
        var got := cStrings.Get(EdgesKey(v, depth));
        r := got.value;
      } else {
        var queue, inQueue := AddEdges(v, depth, 0, [], {});
        r := cStrings.Set(EdgesKey(v, depth), queue);
      }
    }

    /** `reachable(from, to)` */
    method Reachable(from: Vertex, to: Vertex) returns (b: bool)
      requires Valid()
      modifies cStrings, cEdge, cVertex
      ensures Valid()
      ensures b == TraversalModel.Reachable(state, from, to)
    {
      var routes := GetRoutes(from, to);
      b := Reach(routes, from, to);
    }

    /** `traffic(from, to)` */
    method Traffic(from: Vertex, to: Vertex) returns (d: Dist)
      requires Valid()
      modifies cNumber, cStrings, cEdge, cVertex, cBoolean
      ensures Valid()
      ensures d == TraversalModel.Traffic(state, from, to)
    {
      var present := cNumber.Has(TrafficKey(from, to));
      if present {
        var got := cNumber.Get(TrafficKey(from, to));
        d := got.value;
      } else {
        d := SumRoute(from, to);
        d := cNumber.Set(TrafficKey(from, to), d);
      }
    }

    /** The callback of `traffic`: `Infinity` off a route, otherwise the
        weights of its steps added up. The source reads one position past
        the end of the route (see TraversalModel.TrafficAsWritten); this loop
        stops at the last vertex. */
    method SumRoute(from: Vertex, to: Vertex) returns (d: Dist)
      requires Valid()
      modifies cStrings, cEdge, cVertex, cBoolean
      ensures Valid()
      ensures d == TraversalModel.Traffic(state, from, to)
    {
      var routes := GetRoutes(from, to);
      if !Reach(routes, from, to) {
        return Inf;
      }
      RouteIsPath(state, from, to);
      var vertex := routes[0];
      var traffic := 0.0;
      var i := 0;
      while i + 1 < |routes|
        invariant Valid()
        invariant 0 <= i < |routes| && vertex == routes[i]
        invariant traffic + PathWeight(AdjOf(state), routes[i..]) == PathWeight(AdjOf(state), routes)
      {
        var next := routes[i + 1];
        var gv := GraphVertex(vertex);
        var b := IsEdgeHaveGraphVertex(vertex, next);
        if !b {
          // every step of a route is an edge
          assert false;
          break;
        }
        assert routes[i..][1..] == routes[i + 1..];
        traffic := traffic + gv.at[next];
        vertex := next;
        i := i + 1;
      }
      d := Fin(traffic);
    }

    /** `weight(vertex, mode)`: the tuple of the weights into `x`, cached,
        then the value the mode asks for, or the error an unknown mode throws. */
    method Weight(x: Vertex, mode: string) returns (r: Result<real>)
      requires Valid()
      modifies cNumbers, cBoolean, cVertex
      ensures Valid()
      ensures r == TraversalModel.Weight(state, x, mode)
    {
      var tuple: Tally;
      var present := cNumbers.Has(x);
      if present {
        var got := cNumbers.Get(x);
        tuple := got.value;
      } else {
        tuple := TallyInto(x);
        tuple := cNumbers.Set(x, tuple);
      }
      match ModeOf(mode) {
        case Some(m) => r := Ok(WeightIn(tuple, m));
        case None => r := Err(UnsupportedMode);
      }
    }

    /** The callback of `weight`: over every source `k`, the weight of its
        edge into `x` and the number of such edges. */
    method TallyInto(x: Vertex) returns (t: Tally)
      requires Valid()
      modifies cBoolean, cVertex
      ensures Valid()
      ensures t == Totals(state, x)
    {
      var keys := AdjOf(state).keys;
      Keys(AdjOf(state));
      t := Tally(0.0, 0);
      var i := 0;
      while i < |keys|
        invariant Valid()
        invariant 0 <= i <= |keys|
        invariant t == Incoming(AdjOf(state), keys[..i], x)
      {
        var b := IsEdgeHaveGraphVertex(keys[i], x);
        assert keys[..i + 1][..i] == keys[..i];
        if b {
          t := Tally(t.weight + AdjOf(state).at[keys[i]].at[x], t.count + 1);
        }
        i := i + 1;
      }
      assert keys[..i] == keys;
    }

    /** `depth(from, to)` */
    method Depth(from: Vertex, to: Vertex) returns (d: Dist)
      requires Valid()
      modifies cNumber, cStrings, cEdge, cVertex
      ensures Valid()
      ensures d == TraversalModel.Depth(state, from, to)
    {
      var present := cNumber.Has(DepthKey(from, to));
      if present {
        var got := cNumber.Get(DepthKey(from, to));
        d := got.value;
      } else {
        d := CountSteps(from, to);
        d := cNumber.Set(DepthKey(from, to), d);
      }
    }

    /** The callback of `depth`: `Infinity` off a route, otherwise its number of steps. */
    method CountSteps(from: Vertex, to: Vertex) returns (d: Dist)
      requires Valid()
      modifies cStrings, cEdge, cVertex
      ensures Valid()
      ensures d == TraversalModel.Depth(state, from, to)
    {
      var routes := GetRoutes(from, to);
      if !Reach(routes, from, to) {
        d := Inf;
      } else {
        d := Fin((|routes| - 1) as real);
      }
    }

    /** `distance(a, b)` */
    method Distance(a: Vertex, b: Vertex) returns (d: Dist)
      requires Valid()
      modifies cNumber, cStrings, cEdge, cVertex
      ensures Valid()
      ensures d == TraversalModel.Distance(state, a, b)
    {
      var ab := Depth(a, b);
      var ba := Depth(b, a);
      d := Min(ab, ba);
    }
  }

  /** The first loop of `_getTrafficPrev`: every vertex at `Infinity`. */
  method Unvisit(vs: seq<Vertex>) returns (m: map<Vertex, Dist>)
    ensures m == Unvisited(vs)
  {
    m := map[];
    var i := 0;
    while i < |vs|
      invariant 0 <= i <= |vs|
      invariant m == map v | v in vs[..i] :: Inf
    {
      assert vs[..i + 1] == vs[..i] + [vs[i]];
      m := m[vs[i] := Inf];
      i := i + 1;
    }
    assert vs[..i] == vs;
  }

  /** The `for (const v in vertices)` loop of `_getTrafficPrev` over the row
      of `u`: a shorter distance through `u` is recorded with `u` as the
      predecessor, and the vertex is queued unless it was queued before. */
  method ScanVertices(row: Row, u: Vertex, st: Relax) returns (r: Relax)
    requires forall k :: k in row.keys ==> k in row.at
    ensures r == ScanRow(row, u, row.keys, st)
  {
    r := st;
    var keys := row.keys;
    while keys != []
      invariant forall k :: k in keys ==> k in row.at
      invariant ScanRow(row, u, keys, r) == ScanRow(row, u, row.keys, st)
      decreases |keys|
    {
      var v := keys[0];
      if u in r.distance && v in r.distance && Below(Plus(r.distance[u], row.at[v]), r.distance[v]) {
        r := r.(distance := r.distance[v := Plus(r.distance[u], row.at[v])], edge := r.edge[v := u]);
        if v !in r.inQueue {
          r := r.(inQueue := r.inQueue + {v}, queue := r.queue + [v]);
        } else {
          assert r.inQueue + {v} == r.inQueue;
        }
      }
      keys := keys[1..];
    }
  }

  /** The `while (v)` loop of `_getRoutes`: from the predecessor of `to`
      back along `prev`, until `from`, a vertex without a predecessor, or a
      vertex already passed. The result is newest last, before `reverse()`. */
  method WalkBack(prev: map<Vertex, Vertex>, from: Vertex, to: Vertex) returns (routes: seq<Vertex>)
    ensures routes == Walk(prev, from, Lookup(prev, to), {}, [to])
  {
    var seen: set<Vertex> := {};
    routes := [to];
    var v := Lookup(prev, to);
    assert v.Some? ==> v.value in prev.Values by {
      if v.Some? { assert prev[to] in prev.Values; }
    }
    while v.Some?
      invariant v.Some? ==> v.value in prev.Values && v.value !in seen
      invariant Walk(prev, from, v, seen, routes) == Walk(prev, from, Lookup(prev, to), {}, [to])
      decreases |prev.Values - seen|
    {
      var x := v.value;
      MarkShrinks(prev.Values, seen, x);
      seen := seen + {x};
      routes := routes + [x];
      v := Lookup(prev, x);
      if v == Some(from) {
        routes := routes + [from];
        break;
      } else if v.Some? && v.value in seen {
        break;
      }
      assert v.Some? ==> v.value in prev.Values by {
        if v.Some? { assert prev[x] in prev.Values; }
      }
    }
  }
}
