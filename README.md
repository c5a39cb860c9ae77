# traffic-traversal in Dafny

A model of the core of the `traffic-traversal` library. The library has
three parts:

- **A mutable weighted directed graph** (`TrafficGraph`). Each source
  vertex maps to its destinations and their weights, and the graph keeps a
  list `embedded` of every vertex it has ever seen. Weights can be given
  outright, or relative to the current weight (`'+=1'`, `'-=1'`, `'*=2'`,
  `'/=2'`).
- **Queries over one frozen state of that graph** (`TrafficTraversal`):
  - routes found by a worklist relaxation;
  - reachability, traffic (the weight summed along a route), depth and
    distance;
  - the vertices reachable within a depth;
  - the incoming weight of a vertex.

  Every answer is memoised.
- **Vertex encoders** (`VertexEncoder`): a zero vector, one-hot vectors
  and integer labels.

The array helpers and the memo map these parts share are modelled too.

The modules follow the source files:

| module | file | what it holds |
|---|---|---|
| `Base` | — | vertices (non-empty strings), `Option`, `Result`, the errors the library throws |
| `ArrayUtil` | `src/Utils/Array.ts` | `ensure`, `remove`, `add`, `has`, `first`, `last`, `copy` |
| `OrderedMap` | — | JavaScript objects as insertion-ordered maps (`OMap`): overwriting keeps a key's place, a new key goes last, `delete` removes it |
| `Hashmap` | `src/Utils/Hashmap.ts` | `useHashmap` as a class with one `map` field |
| `GraphModel` | `src/TrafficGraph.ts` | the graph data as values: weight arithmetic, for every mutator the data it leaves behind, and the graph invariant |
| `GraphStore` | `src/TrafficGraph.ts` | the class `TrafficGraph`, whose methods update its fields in loops and are proved to agree with `GraphModel` |
| `TraversalModel` | `src/TrafficTraversal.ts` | every query as a function of the state |
| `TraversalEngine` | `src/TrafficTraversal.ts` | the class `TrafficTraversal`: the loops and recursion of the source, its six caches, each query proved to return the `TraversalModel` value |
| `Encoder` | `src/Helpers/VertexEncoder.ts` | the encodings as functions, their loops as methods, and the class `VertexEncoder` with its three caches |

Modelling choices:

- **Infinity.** A weight that may be `Infinity` is `Dist = Fin(real) | Inf`.
- **Empty predecessor.** The source marks "no predecessor" with `''`; the
  model uses `Option`.
- **Relative weights.** A relative weight arrives already split into its
  operator and operand (`Expr = Abs(w) | Rel(op, operand)`).
- **Traversal reads the adjacency.** The traversal queries read
  `state.data[vertex]` and iterate `for k in state.data`
  (src/TrafficTraversal.ts lines 39-40 and 201-205). In `TrafficGraph.ts`
  the state's `data` is `{ vertex, embedded }`, so these reads find no
  adjacency at all. The model reads `state.data.vertex`, which is what the
  queries need in order to mean anything.
- **Mode names.** `weight` accepts the modes `'traffic'`, `'number'` and
  `'mean'` (src/TrafficTraversal.ts lines 210-219); any other mode throws.
- **Routes are not minimal.** In `_getTrafficPrev` the `inQueue` marks are
  never cleared, so every vertex is queued at most once. The relaxation is
  therefore not Bellman-Ford, and the model proves termination and "routes
  are real paths", not optimality.
- **The traffic loop.** Where the source's `traffic` loop reads past the
  end of the route (see Findings), the queries use the evidently intended
  sum. The loop as written is modelled beside it.

## Model

| member | source | states |
|---|---|---|
| `ArrayUtil.EnsuredExtends` | src/Utils/Array.ts:14-21 | `ensure` keeps the array as a prefix; afterwards an element is present iff it was in the array or among the items; a duplicate-free array stays duplicate-free |
| `ArrayUtil.Ensured` | src/Utils/Array.ts:14-21 | the contents `ensure(a, ...items)` leaves: each item not yet in the array, counting the ones appended before it, goes to the end in the order of the items; nothing is removed or reordered |
| `ArrayUtil.EnsuredAppend` | src/Utils/Array.ts:14-21 | ensuring `xs + ys` is ensuring `xs`, then `ys` |
| `ArrayUtil.EnsuredPresent` | src/Utils/Array.ts:15-18 | items that are all present leave the array unchanged |
| `ArrayUtil.EnsuredIdempotent` | src/Utils/Array.ts:14-21 | ensuring the same items twice is ensuring them once |
| `ArrayUtil.EnsuredFreshIsAdded` | src/Utils/Array.ts:14-21 | distinct items, none of them present, are all appended in order, as `add` would append them |
| `ArrayUtil.Ensure` | src/Utils/Array.ts:14-21 | the push loop computes the ensured array |
| `ArrayUtil.Without` | src/Utils/Array.ts:1-8 | the array after `remove`: no longer, and an element is kept iff it is not among the items |
| `ArrayUtil.WithoutDistinct` | src/Utils/Array.ts:1-8 | removing from a duplicate-free array leaves it duplicate-free |
| `ArrayUtil.WithoutAppend` | src/Utils/Array.ts:1-8 | removal distributes over concatenation, so the order of what is kept is unchanged |
| `ArrayUtil.WithoutNoop` | src/Utils/Array.ts:1-8 | removing items the array does not hold changes nothing |
| `ArrayUtil.Remove` | src/Utils/Array.ts:1-8 | the backward `splice` loop computes exactly the array without the items |
| `ArrayUtil.Add` | src/Utils/Array.ts:10-12 | `add` keeps the array as a prefix and appends every item in order, duplicates included |
| `ArrayUtil.Added` | src/Utils/Array.ts:10-12 | the contents `add(a, ...items)` leaves: the old array followed by every item, duplicates included |
| `ArrayUtil.Has` | src/Utils/Array.ts:23-30 | `has` is true iff every item occurs in the array, and so is true for no items |
| `ArrayUtil.First` | src/Utils/Array.ts:32-34 | `first` is element 0, or none on an empty array |
| `ArrayUtil.Last` | src/Utils/Array.ts:36-38 | `last` is the final element, or none on an empty array |
| `ArrayUtil.Copy` | src/Utils/Array.ts:40-42 | `copy` has the same length and the same elements |
| `ArrayUtil.Reversed` | src/TrafficTraversal.ts:108 | `reverse` puts element `i` at position `length - 1 - i` |
| `ArrayUtil.FirstLastReversed` | src/TrafficTraversal.ts:108-115 | the first element of a reversed array is the last of the original, and the other way round |
| `ArrayUtil.IndexOf` | src/Helpers/VertexEncoder.ts:50 | `indexOf` is -1 iff the element is absent; otherwise it is the position of the element's first occurrence |
| `OrderedMap.Put` | src/TrafficGraph.ts:150 | writing a key stores its value; an existing key keeps its place and a new key goes last |
| `OrderedMap.Delete` | src/TrafficGraph.ts:198 | `delete` drops the key from the map and from the key order, and keeps the order of the rest |
| `OrderedMap.Get` | src/TrafficGraph.ts:105 | a lookup is some value iff the key is present |
| `OrderedMap.PutPut` | src/TrafficGraph.ts:150 | the second of two writes to one key wins, without moving the key |
| `OrderedMap.PutSame` | src/TrafficGraph.ts:150 | writing back a key's own value changes nothing |
| `OrderedMap.DeleteAbsent` | src/TrafficGraph.ts:198 | deleting an absent key changes nothing |
| `OrderedMap.DeleteAfterPut` | src/TrafficGraph.ts:196-200 | deleting a key just added restores the map, key order included |
| `OrderedMap.DeleteTwice` | src/TrafficGraph.ts:198 | deleting twice is deleting once |
| `OrderedMap.MapValues` | src/TrafficGraph.ts:250-255 | rewriting every value in place keeps every key and the key order |
| `Hashmap.Hashmap.constructor` | src/Utils/Hashmap.ts:1-2 | a new memo has no entries |
| `Hashmap.Hashmap.Set` | src/Utils/Hashmap.ts:4-7 | `set` returns its data and stores it under the key; other keys are unchanged |
| `Hashmap.Hashmap.Has` | src/Utils/Hashmap.ts:8 | `has` is membership and only reads |
| `Hashmap.Hashmap.Get` | src/Utils/Hashmap.ts:9 | `get` is the stored value, or none for an absent key |
| `Hashmap.Hashmap.Ensure` | src/Utils/Hashmap.ts:10-15 | on a present key `ensure` returns the stored value and leaves the map unchanged; on an absent key it stores and returns the callback's value |
| `GraphModel.Apply` | src/TrafficGraph.ts:108-124 | the four operators give `before op operand`; any other prefix is an error, and that error is `InvalidExpression` |
| `GraphModel.Calculate` | src/TrafficGraph.ts:104-125 | evaluating a relative weight against a row fails exactly on an unknown prefix |
| `GraphModel.AddThenSubtract` | src/TrafficGraph.ts:109-114 | `+= x` followed by `-= x` restores the weight before (0 for an absent edge) |
| `GraphModel.MultiplyThenDivide` | src/TrafficGraph.ts:115-120 | `*= x` followed by `/= x`, for `x ≠ 0`, restores the weight before |
| `GraphModel.CalculateOnAbsentEdge` | src/TrafficGraph.ts:105-120 | on an absent edge the current weight is 0: `+=x` gives `x`, `-=x` gives `-x`, `*=` and `/=` give 0 |
| `GraphModel.Eval` | src/TrafficGraph.ts:146-149 | a weight handed to `to` fails iff it is relative with an unknown prefix |
| `GraphModel.WriteKeysIsReference` | src/TrafficGraph.ts:142-152 | the key-by-key loop of `to` writes the non-source keys it reaches, in order, and passes iff it reaches the end. It stops at the first bad relative weight and keeps the earlier writes |
| `GraphModel.WithSource` | src/TrafficGraph.ts:137-140 | the header of `to`: a source without a row gets an empty row appended last and is embedded; an existing source leaves the data as it is |
| `GraphModel.WriteKeys` | src/TrafficGraph.ts:142-152 | the `for…in dest` loop key by key: the source's own key is skipped, every other key is written with its resolved weight and embedded, and the first expression that throws ends the loop with `InvalidExpression`, the earlier writes kept |
| `GraphModel.AfterTo` | src/TrafficGraph.ts:136-154 | `to(s, dest)`: the header, then the loop over the keys of `dest` in their order, applied to the data; the result carries the data left behind and whether it threw |
| `GraphModel.AfterToIsReference` | src/TrafficGraph.ts:136-154 | the fold that defines `to` equals its closed-form reference |
| `GraphModel.ToOutcome` | src/TrafficGraph.ts:136-154 | after `to(s, dest)`, `s` is a source (also when `dest` is empty) and was appended once if new. The call passes iff every relative weight for a key other than `s` is valid, and a throw is `InvalidExpression`. On success the keys written are `dest`'s keys without `s` |
| `GraphModel.ToWrites` | src/TrafficGraph.ts:141-151 | in `s`'s row each written key holds its resolved weight, every other key keeps its edge, and `s` is never written. New keys are appended in the order of `dest` |
| `GraphModel.ToFrame` | src/TrafficGraph.ts:137-151 | `to` leaves every other source unchanged. `embedded` gains `s` if `s` was new, then every written destination |
| `GraphModel.ToPreservesInv` | src/TrafficGraph.ts:136-154 | `to` keeps the graph invariant: no self-loops, `embedded` duplicate-free, every source and destination embedded |
| `GraphModel.ToSingle` | src/TrafficGraph.ts:136-154 | `to(v, { a: e })` writes the one edge `v -> a` (none when `v == a`) and changes nothing else |
| `GraphModel.BothKeysEffect` | src/TrafficGraph.ts:167-172 | the second loop of `both` writes, for each key `x ≠ a`, the edge `x -> a`, with its weight resolved against `x`'s own current weight |
| `GraphModel.AfterBoth` | src/TrafficGraph.ts:165-174 | `both(a, b)`: `to(a, b)`, then `to(v, { [a]: b[v] })` for each key `v` of `b` in order, stopping at the first call that throws |
| `GraphModel.BothOutcome` | src/TrafficGraph.ts:165-174 | `both(a, b)` passes iff `to(a, b)` would; a throw is `InvalidExpression` |
| `GraphModel.BothEffect` | src/TrafficGraph.ts:165-174 | after a passing `both(a, b)` the graph has `a -> y` and `y -> a` for every key `y ≠ a`, each resolved against its own direction's weight, and every other edge unchanged |
| `GraphModel.AllKeysOutcome` | src/TrafficGraph.ts:184-189 | `to(v, t)` for each key `v` in turn passes iff every one of those calls is valid |
| `GraphModel.AfterAll` | src/TrafficGraph.ts:184-189 | `all(t)`: `to(v, t)` for each key `v` of `t` in order, stopping at the first call that throws |
| `GraphModel.AllEffect` | src/TrafficGraph.ts:184-189 | `all(t)` passes iff `to(v, t)` is valid for every key `v`. On success it has `x -> y` for all distinct keys `x`, `y`, resolved against `x`'s weight, and every other edge unchanged |
| `GraphModel.BothPreservesInv` | src/TrafficGraph.ts:165-174 | `both` keeps the graph invariant, including when it throws |
| `GraphModel.AllPreservesInv` | src/TrafficGraph.ts:184-189 | `all` keeps the graph invariant, including when it throws |
| `GraphModel.UnlinkToEffect` | src/TrafficGraph.ts:196-200 | `unlinkTo(s, v)` removes only the edge `s -> v`. Sources and `embedded` are unchanged, and an absent source is not created |
| `GraphModel.AfterUnlinkTo` | src/TrafficGraph.ts:196-200 | `unlinkTo(s, v)`: the key `v` leaves the row of `s` when `s` is a source; otherwise nothing changes |
| `GraphModel.UnlinkBothEffect` | src/TrafficGraph.ts:207-211 | `unlinkBoth(a, b)` removes `a -> b` and `b -> a` and nothing else |
| `GraphModel.AfterUnlinkBoth` | src/TrafficGraph.ts:207-211 | `unlinkBoth(a, b)`: `unlinkTo(a, b)`, then `unlinkTo(b, a)` |
| `GraphModel.UnlinkUndoesTo` | src/TrafficGraph.ts:196-200 | adding a new edge with `to` and then unlinking it restores the adjacency |
| `GraphModel.UnlinkToPreservesInv` | src/TrafficGraph.ts:196-200 | `unlinkTo` keeps the graph invariant |
| `GraphModel.DropEffect` | src/TrafficGraph.ts:217-224 | after `drop(x)`, `x` is neither a source nor a destination, every other edge is unchanged, the other sources keep their order, and `embedded` is unchanged |
| `GraphModel.AfterDrop` | src/TrafficGraph.ts:217-224 | `drop(x)`: the key `x` leaves every row, then the row of `x` goes; `embedded` is left alone |
| `GraphModel.DropPreservesInv` | src/TrafficGraph.ts:217-224 | `drop` keeps the graph invariant |
| `GraphModel.InvertEffect` | src/TrafficGraph.ts:249-257 | `invert` negates every weight and keeps every source, every destination and their order |
| `GraphModel.Inverted` | src/TrafficGraph.ts:249-257 | `invert()`: every weight of every row times -1, with the sources and each row's keys in their order |
| `GraphModel.InvertedTwice` | src/TrafficGraph.ts:249-257 | inverting twice restores the adjacency |
| `GraphModel.NegatedTwice` | src/TrafficGraph.ts:252-254 | negating a row twice restores it |
| `GraphModel.InvertPreservesInv` | src/TrafficGraph.ts:249-257 | `invert` keeps the graph invariant |
| `GraphModel.VerticesOfMembers` | src/TrafficGraph.ts:70-87 | `vertices` is duplicate-free and lists exactly the sources and the destinations |
| `GraphModel.VerticesOf` | src/TrafficGraph.ts:70-87 | the `vertices` getter: each source, then each of its destinations, in key order, a vertex listed at its first sighting only |
| `GraphModel.Mentioned` | src/TrafficGraph.ts:230-232 | what `has(x)` asks of the vertex list: `x` is a source or a destination of some source |
| `GraphModel.Snapshot` | src/TrafficGraph.ts:55-65 | the `state` getter: the data together with the vertex list of that moment |
| `GraphModel.Inv` | src/TrafficGraph.ts:136-154 | what `to` establishes and every mutator keeps: no row has its own source as a key, `embedded` has no duplicates, and every source and every destination is embedded |
| `GraphModel.VerticesEmbedded` | src/TrafficGraph.ts:70-87 | under the graph invariant every listed vertex is in `embedded` |
| `GraphStore.TrafficGraph.constructor` | src/TrafficGraph.ts:29-34 | the graph holds the data it is given |
| `GraphStore.TrafficGraph.Blank` | src/TrafficGraph.ts:29-34 | with no data the graph is empty and satisfies the invariant |
| `GraphStore.TrafficGraph.GetData` | src/TrafficGraph.ts:43-50 | `data` is a copy equal to the graph's data |
| `GraphStore.TrafficGraph.Vertices` | src/TrafficGraph.ts:70-87 | the seen-set loop returns the first-seen list: duplicate-free, exactly the sources and destinations |
| `GraphStore.TrafficGraph.GetState` | src/TrafficGraph.ts:55-65 | `state` is the data together with the vertex list of that moment |
| `GraphStore.TrafficGraph.Has` | src/TrafficGraph.ts:230-232 | `has(x)` iff `x` is a source or a destination |
| `GraphStore.TrafficGraph.HasAll` | src/TrafficGraph.ts:238-240 | `hasAll` iff every argument is a source or a destination; true for no arguments |
| `GraphStore.TrafficGraph.To` | src/TrafficGraph.ts:136-154 | the in-place `to` leaves the data and the outcome that `GraphModel.AfterTo` defines, and keeps the invariant |
| `GraphStore.TrafficGraph.Both` | src/TrafficGraph.ts:165-174 | the in-place `both` leaves the data and outcome of `GraphModel.AfterBoth`, and keeps the invariant |
| `GraphStore.TrafficGraph.All` | src/TrafficGraph.ts:184-189 | the in-place `all` leaves the data and outcome of `GraphModel.AfterAll`, and keeps the invariant |
| `GraphStore.TrafficGraph.UnlinkTo` | src/TrafficGraph.ts:196-200 | the in-place `unlinkTo` leaves the data of `GraphModel.AfterUnlinkTo` and keeps the invariant |
| `GraphStore.TrafficGraph.UnlinkBoth` | src/TrafficGraph.ts:207-211 | the in-place `unlinkBoth` leaves the data of `GraphModel.AfterUnlinkBoth` and keeps the invariant |
| `GraphStore.TrafficGraph.Drop` | src/TrafficGraph.ts:217-224 | the in-place `drop` leaves the data of `GraphModel.AfterDrop` and keeps the invariant |
| `GraphStore.TrafficGraph.Invert` | src/TrafficGraph.ts:249-257 | the in-place `invert` negates every row, leaves `embedded` alone and keeps the invariant |
| `GraphStore.StripRows` | src/TrafficGraph.ts:218-221 | the loop of `drop` over the sources deletes `x` from every row |
| `GraphStore.NegateRows` | src/TrafficGraph.ts:250-255 | the outer loop of `invert` negates every row |
| `GraphStore.NegateRow` | src/TrafficGraph.ts:252-254 | the inner loop of `invert` negates every weight of one row |
| `GraphStore.Weigh` | src/TrafficGraph.ts:146-149 | the weight `to` writes for one key: a number as given, a relative expression evaluated against the current weight, and the `InvalidExpression` error exactly when the expression's prefix is unknown |
| `GraphStore.WriteDest` | src/TrafficGraph.ts:142-152 | the loop of `to` over `dest` leaves the data and outcome that the key-by-key definition gives |
| `GraphStore.ListVertices` | src/TrafficGraph.ts:70-87 | the nested loops of `vertices` compute the first-seen list |
| `GraphStore.PushUnseen` | src/TrafficGraph.ts:79-84 | pushing the unseen keys of a row keeps the seen-set equal to the list, and the list is ensured with the row's keys |
| `TraversalModel.Min` | src/TrafficTraversal.ts:245 | `Math.min` is one of its arguments and at most both, `Infinity` included |
| `TraversalModel.Unvisited` | src/TrafficTraversal.ts:59-62 | before the loop every vertex of the state is at `Infinity` |
| `TraversalModel.ScanRow` | src/TrafficTraversal.ts:70-83 | the inner loop marks only keys of the row, and queues a vertex exactly when it marks it for the first time |
| `TraversalModel.Pass` | src/TrafficTraversal.ts:67-84 | one pass marks only destinations of the graph, and the queue loses its head and gains one entry per new mark |
| `TraversalModel.Visit` | src/TrafficTraversal.ts:71-82 | one key `v` of the row of `u`: when `distance[u] + w` is below `distance[v]` the distance and the predecessor of `v` are updated and `v` is queued unless it was ever queued; a vertex with no distance compares false and is left alone |
| `TraversalModel.Run` | src/TrafficTraversal.ts:67-84 | the `while (queue.length)` loop: passes until the queue is empty, terminating because the marks only grow within the targets |
| `TraversalModel.PassProgress` | src/TrafficTraversal.ts:67-84 | every pass lowers (unmarked destinations + queue length), so the relaxation ends however the weights are signed, negative cycles included |
| `TraversalModel.PassesBounded` | src/TrafficTraversal.ts:67-84 | the number of passes is at most the queue length plus the number of destinations not yet marked |
| `TraversalModel.RelaxationBounded` | src/TrafficTraversal.ts:55-84 | from the start state the `while` loop runs at most (number of destinations + 1) times |
| `TraversalModel.RelaxationBoundedByVertices` | src/TrafficTraversal.ts:59-84 | on a state the graph hands out, the loop runs at most `vertices.length + 1` passes |
| `TraversalModel.RunKeeps` | src/TrafficTraversal.ts:67-84 | the loop keeps every predecessor a source of an edge into its vertex, and a distance finite iff the vertex is `from` or has a predecessor. Distances never increase |
| `TraversalModel.Relaxed` | src/TrafficTraversal.ts:55-84 | the locals of `_getTrafficPrev` when its loop ends: every vertex of `vertices` at Infinity, `from` at 0 and queued, then the loop |
| `TraversalModel.TrafficPrev` | src/TrafficTraversal.ts:52-87 | `_getTrafficPrev(from)`: the predecessor map the relaxation leaves |
| `TraversalModel.PrevIsEdge` | src/TrafficTraversal.ts:76-77 | whenever `prev[v] = u` is recorded, `v` is a destination of `u` |
| `TraversalModel.PrevInTargets` | src/TrafficTraversal.ts:76-77 | only destinations of the graph get a predecessor |
| `TraversalModel.RelaxedDistances` | src/TrafficTraversal.ts:59-84 | at the end every vertex known at the start still has a distance; it is finite iff the vertex is `from` or has a predecessor; `from` is at most 0 |
| `TraversalModel.Walk` | src/TrafficTraversal.ts:94-107 | the walk back marks a new vertex on every step or stops, so it ends; it only extends the route so far |
| `TraversalModel.WalkLinked` | src/TrafficTraversal.ts:94-107 | every vertex the walk appends is the predecessor of the one before it |
| `TraversalModel.RoutesOfLinked` | src/TrafficTraversal.ts:89-110 | the reversed walk is non-empty, ends at `to`, and each element after the first has the one before it as its predecessor |
| `TraversalModel.RoutesOf` | src/TrafficTraversal.ts:91-110 | the walk back from `to` along a predecessor map, reversed |
| `TraversalModel.GetRoutes` | src/TrafficTraversal.ts:89-112 | `_getRoutes(from, to)`: the walk back along the predecessors of the relaxation from `from` |
| `TraversalModel.Reach` | src/TrafficTraversal.ts:114-116 | `_reach(routes, from, to)`: the first vertex is `from` and the last is `to`; false for an empty route |
| `TraversalModel.Reachable` | src/TrafficTraversal.ts:165-167 | `reachable(from, to)`: `_reach` of the route |
| `TraversalModel.Routes` | src/TrafficTraversal.ts:123-129 | `routes` returns the route iff the target can be reached, and otherwise throws the unreachable error |
| `TraversalModel.RouteEnds` | src/TrafficTraversal.ts:89-116 | the route ends at `to`, and `reachable` holds iff the route starts at `from` |
| `TraversalModel.RouteIsPath` | src/TrafficTraversal.ts:89-112 | every consecutive pair of the route is an edge of the graph |
| `TraversalModel.RouteToItself` | src/TrafficTraversal.ts:93-95 | when `from` got no predecessor, the route from `from` to itself is `[from]` and is reachable |
| `TraversalModel.Traffic` | src/TrafficTraversal.ts:174-195 | `traffic` is finite iff the target can be reached; it is then the sum of the weights of the route's edges |
| `TraversalModel.PathWeight` | src/TrafficTraversal.ts:183-192 | the sum of the weights of the consecutive steps of a route, 0 for a route of fewer than two vertices |
| `TraversalModel.Depth` | src/TrafficTraversal.ts:229-237 | `depth` is finite iff the target can be reached; it is then the number of edges of the route |
| `TraversalModel.Distance` | src/TrafficTraversal.ts:244-246 | `distance` is the smaller of the two depths, and finite iff either direction can be reached |
| `TraversalModel.DistanceSymmetric` | src/TrafficTraversal.ts:244-246 | `distance(a, b) == distance(b, a)` |
| `TraversalModel.TrafficToItself` | src/TrafficTraversal.ts:180-193 | when `from` got no predecessor, `traffic`, `depth` and `distance` from `from` to itself are 0 |
| `TraversalModel.TrafficAsWritten` | src/TrafficTraversal.ts:180-193 | the loop of `traffic` as written is finite iff the target can be reached |
| `TraversalModel.LoopSum` | src/TrafficTraversal.ts:183-192 | the `while (vertex)` loop as written from position `i`: it adds each step's weight, and at the last vertex reads `routes[i]` as `undefined`, i.e. the key `"undefined"` |
| `TraversalModel.TrafficAsWrittenAddsUndefined` | src/TrafficTraversal.ts:183-192 | the loop as written is the route's traffic plus the weight of an edge from `to` to a vertex named `"undefined"` |
| `TraversalModel.TrafficOfUndefinedEdge` | src/TrafficTraversal.ts:183-192 | with the single edge `a -> "undefined"` of weight 5, the loop as written gives `traffic(a, a) = 5`, whereas the traffic is 0 |
| `TraversalModel.Expand` | src/TrafficTraversal.ts:131-145 | `_addEdges` only adds to the shared queue and marks; the recursion ends although no depth bound stops it when the depth is negative |
| `TraversalModel.ScanEdges` | src/TrafficTraversal.ts:137-144 | the `for` loop of `_addEdges` only adds to the shared queue and marks |
| `TraversalModel.EdgesDistinct` | src/TrafficTraversal.ts:152-158 | `edges` never lists a vertex twice |
| `TraversalModel.Edges` | src/TrafficTraversal.ts:152-158 | `edges(vertex, depth)`: the queue `_addEdges` fills from `vertex` at depth 0 with nothing marked |
| `TraversalModel.EdgesAtDepthZero` | src/TrafficTraversal.ts:132-136 | `edges(v, 0)` is empty |
| `TraversalModel.EdgesAtDepthOne` | src/TrafficTraversal.ts:131-145 | `edges(v, 1)` is the destinations of `v`, in order |
| `TraversalModel.EdgesWithin` | src/TrafficTraversal.ts:131-158 | for a depth `n ≥ 0` every vertex `edges` lists is reached from `v` by a walk of 1 to `n` edges |
| `TraversalModel.EdgesUnbounded` | src/TrafficTraversal.ts:131-158 | for a negative depth `edges` lists exactly the vertices reached from `v` by one or more edges |
| `TraversalModel.Sources` | src/TrafficTraversal.ts:201-207 | the sources the loop of `weight` counts are exactly those with an edge into the vertex |
| `TraversalModel.Incoming` | src/TrafficTraversal.ts:201-207 | the loop of `weight` over some sources: for each whose row has the key `x`, the weight is added and the count incremented |
| `TraversalModel.Totals` | src/TrafficTraversal.ts:198-209 | the tuple `[weight, num]` of `weight(x, mode)`, over every source of the graph in key order |
| `TraversalModel.IncomingCounts` | src/TrafficTraversal.ts:199-208 | the tuple's count is the number of sources with an edge into the vertex, and with none of them the weight is 0 |
| `TraversalModel.IncomingInverted` | src/TrafficTraversal.ts:199-208 | after `invert` the tuple's weight is negated and its count unchanged |
| `TraversalModel.ModeOf` | src/TrafficTraversal.ts:210-219 | the three mode names, and only they, select a mode |
| `TraversalModel.WeightIn` | src/TrafficTraversal.ts:210-216 | the value of a supported mode: the total weight, the count, or their ratio with 0 in place of `NaN` |
| `TraversalModel.MeanTimesCount` | src/TrafficTraversal.ts:213-216 | the mean is 0 with no sources, and otherwise the mean times the count is the total weight |
| `TraversalModel.Weight` | src/TrafficTraversal.ts:197-221 | `weight` succeeds iff the mode is `traffic`, `number` or `mean`; otherwise it throws the unsupported-mode error. On success it returns the sum, the count or the mean |
| `TraversalModel.TotalsInverted` | src/TrafficTraversal.ts:198-209 | on an inverted graph the weight tuple has its weight negated and its count unchanged |
| `TraversalModel.WeightInverted` | src/TrafficTraversal.ts:197-221 | on an inverted graph `traffic` and `mean` are negated and `number` is unchanged |
| `TraversalModel.WeightNegated` | src/TrafficTraversal.ts:210-216 | negating the tuple's weight negates `traffic` and `mean`, and leaves `number` unchanged |
| `TraversalModel.WeightOfUnreached` | src/TrafficTraversal.ts:199-208 | a vertex that no edge enters has weight 0 in every mode |
| `TraversalEngine.TrafficTraversal.constructor` | src/TrafficTraversal.ts:27-35 | a new traversal reads the given state, and its six caches are fresh and empty |
| `TraversalEngine.EdgesCached` | src/TrafficTraversal.ts:12 | every entry of `_cEdge` is the predecessor map of the relaxation from its start vertex |
| `TraversalEngine.StringsCached` | src/TrafficTraversal.ts:13 | every entry of `_cStrings` is the route or the edge list its key names |
| `TraversalEngine.NumbersCached` | src/TrafficTraversal.ts:14 | every entry of `_cNumber` is the traffic or the depth its key names |
| `TraversalEngine.TalliesCached` | src/TrafficTraversal.ts:15 | every entry of `_cNumbers` is the weight tuple of its target vertex |
| `TraversalEngine.RowsCached` | src/TrafficTraversal.ts:16 | every entry of `_cVertex` is the row of its source, empty for a vertex with no row |
| `TraversalEngine.EdgeTestsCached` | src/TrafficTraversal.ts:17 | every entry of `_cBoolean` is whether its vertex has an edge to its target |
| `TraversalEngine.TrafficTraversal.GraphVertex` | src/TrafficTraversal.ts:37-44 | `_graphVertex` returns the row of the vertex, or `{}` if the vertex is not a source, cached or not |
| `TraversalEngine.TrafficTraversal.IsEdgeHaveGraphVertex` | src/TrafficTraversal.ts:46-50 | `_isEdgeHaveGraphVertex(v, e)` iff `e` is a destination of `v`, cached or not |
| `TraversalEngine.TrafficTraversal.GetTrafficPrev` | src/TrafficTraversal.ts:52-87 | `_getTrafficPrev` returns the predecessor map of the relaxation, cached or not |
| `TraversalEngine.TrafficTraversal.RelaxFrom` | src/TrafficTraversal.ts:54-85 | the `while` loop over the queue computes the relaxation's predecessor map |
| `TraversalEngine.TrafficTraversal.GetRoutes` | src/TrafficTraversal.ts:89-112 | `_getRoutes` returns the reversed walk back from `to`, cached or not |
| `TraversalEngine.TrafficTraversal.Routes` | src/TrafficTraversal.ts:123-129 | `routes` returns a copy of the route, or the unreachable error, as `TraversalModel.Routes` |
| `TraversalEngine.TrafficTraversal.AddEdges` | src/TrafficTraversal.ts:131-145 | the recursion over a shared queue and marks leaves the queue and marks that `TraversalModel.Expand` defines |
| `TraversalEngine.TrafficTraversal.Edges` | src/TrafficTraversal.ts:152-158 | `edges` returns the depth-limited search result, cached or not |
| `TraversalEngine.TrafficTraversal.Reachable` | src/TrafficTraversal.ts:165-167 | `reachable` is `TraversalModel.Reachable` |
| `TraversalEngine.TrafficTraversal.Traffic` | src/TrafficTraversal.ts:174-195 | `traffic` returns the route's weight, or `Infinity`, cached or not |
| `TraversalEngine.TrafficTraversal.SumRoute` | src/TrafficTraversal.ts:180-193 | the accumulator loop along the route computes the route's weight |
| `TraversalEngine.TrafficTraversal.Weight` | src/TrafficTraversal.ts:197-221 | `weight` returns `TraversalModel.Weight`: the cached tuple read in the requested mode, or the unsupported-mode error |
| `TraversalEngine.TrafficTraversal.TallyInto` | src/TrafficTraversal.ts:198-209 | the loop over the sources computes the `[weight, num]` tuple into the vertex |
| `TraversalEngine.TrafficTraversal.Depth` | src/TrafficTraversal.ts:229-237 | `depth` returns the number of edges of the route, or `Infinity`, cached or not |
| `TraversalEngine.TrafficTraversal.CountSteps` | src/TrafficTraversal.ts:231-235 | the callback of `depth` computes the route's number of edges, or `Infinity` |
| `TraversalEngine.TrafficTraversal.Distance` | src/TrafficTraversal.ts:244-246 | `distance` is `TraversalModel.Distance` |
| `TraversalEngine.Unvisit` | src/TrafficTraversal.ts:59-62 | the initialisation loop puts every vertex at `Infinity` |
| `TraversalEngine.ScanVertices` | src/TrafficTraversal.ts:70-83 | the inner loop over a row computes `TraversalModel.ScanRow` |
| `TraversalEngine.WalkBack` | src/TrafficTraversal.ts:93-107 | the `while (v)` loop computes the walk back from `to` |
| `Encoder.ZeroHotOf` | src/Helpers/VertexEncoder.ts:33-38 | the zero vector has one entry per vertex in use, every entry 0 |
| `Encoder.Position` | src/Helpers/VertexEncoder.ts:50 | a vertex's code is -1 iff it was never embedded, and otherwise its place in `embedded` |
| `Encoder.Assign` | src/Helpers/VertexEncoder.ts:55 | writing index `i` of an array sets that cell, keeps the others, and past the end grows the array with holes |
| `Encoder.HotRowShape` | src/Helpers/VertexEncoder.ts:54-55 | a one-hot row has length `len` (or `i + 1` when `i ≥ len`), a 1 at `i`, 0 below `len` elsewhere, and holes between |
| `Encoder.HotRow` | src/Helpers/VertexEncoder.ts:54-55 | `new Array(len).fill(0)` with 1 written at `i`, which grows the array with holes when `i` is not below `len` |
| `Encoder.HotRowsDiffer` | src/Helpers/VertexEncoder.ts:54-55 | rows for different codes differ |
| `Encoder.OneHotFromOk` | src/Helpers/VertexEncoder.ts:49-56 | the loop of `oneHot` passes iff every vertex it meets is embedded; otherwise it throws `InconsistentState` |
| `Encoder.OneHotFrom` | src/Helpers/VertexEncoder.ts:49-56 | the loop of `oneHot` over the remaining vertices: throw at the first vertex not in `embedded`, otherwise write its row and go on |
| `Encoder.OneHotOf` | src/Helpers/VertexEncoder.ts:43-63 | `oneHot()`: the loop over `vertices` from an empty record |
| `Encoder.OneHotFromKeys` | src/Helpers/VertexEncoder.ts:49-56 | the keys of the encoding are the earlier keys ensured with the vertices met |
| `Encoder.OneHotFromAt` | src/Helpers/VertexEncoder.ts:49-56 | each vertex met maps to its one-hot row; earlier keys not met keep their rows |
| `Encoder.OneHotShape` | src/Helpers/VertexEncoder.ts:43-58 | `oneHot` passes iff every vertex in use is embedded, and throws `InconsistentState` otherwise. Otherwise it has exactly one key per vertex (in `vertices` order when that list is duplicate-free), and each row is the one-hot row of the vertex's code |
| `Encoder.PositionsDiffer` | src/Helpers/VertexEncoder.ts:50 | distinct embedded vertices have distinct codes |
| `Encoder.OneHotRowsDiffer` | src/Helpers/VertexEncoder.ts:49-56 | distinct vertices get distinct rows |
| `Encoder.OneHotRow` | src/Helpers/VertexEncoder.ts:54-55 | when the code is below `vertices.length` the row has that length, a 1 at the code and 0 elsewhere |
| `Encoder.LabelFromOk` | src/Helpers/VertexEncoder.ts:74-80 | the loop of `label` passes iff every vertex it meets is embedded; otherwise it throws `InconsistentState` |
| `Encoder.LabelFrom` | src/Helpers/VertexEncoder.ts:74-80 | the loop of `label` over the remaining vertices: throw at the first vertex not in `embedded`, otherwise write `startFrom + i` and go on |
| `Encoder.LabelOf` | src/Helpers/VertexEncoder.ts:69-87 | `label(startFrom)`: the loop over `vertices` from an empty record |
| `Encoder.LabelFromKeys` | src/Helpers/VertexEncoder.ts:74-80 | the keys of the labels are the earlier keys ensured with the vertices met |
| `Encoder.LabelFromAt` | src/Helpers/VertexEncoder.ts:74-80 | each vertex met is labelled `start + code`; earlier keys not met keep their labels |
| `Encoder.LabelShape` | src/Helpers/VertexEncoder.ts:69-83 | `label(s)` passes iff every vertex in use is embedded, and throws `InconsistentState` otherwise. Otherwise its keys are exactly the vertices and each label is `s + code` |
| `Encoder.LabelOffset` | src/Helpers/VertexEncoder.ts:79 | `label(s)` and `label(0)` pass together and have the same keys, and `label(s)[v] == label(0)[v] + s` |
| `Encoder.LabelsDiffer` | src/Helpers/VertexEncoder.ts:75-79 | distinct vertices get distinct labels, none below `s` |
| `Encoder.EncodersTotal` | src/Helpers/VertexEncoder.ts:49-80 | on the state of a graph that keeps its invariant, `oneHot` and `label` never throw and their keys are the vertices in order |
| `Encoder.EncodeOneHot` | src/Helpers/VertexEncoder.ts:45-58 | the loop of `oneHot`, with its early throw, computes the one-hot encoding |
| `Encoder.EncodeLabel` | src/Helpers/VertexEncoder.ts:71-82 | the loop of `label`, with its early throw, computes the labels |
| `Encoder.VertexEncoder.constructor` | src/Helpers/VertexEncoder.ts:22-27 | a new encoder reads the given state, and its three caches are fresh and empty |
| `Encoder.VertexEncoder.ZeroHot` | src/Helpers/VertexEncoder.ts:33-38 | `zeroHot` returns the zero vector, cached or not |
| `Encoder.VertexEncoder.OneHot` | src/Helpers/VertexEncoder.ts:43-63 | `oneHot` returns the one-hot encoding or its error, cached or not; a throw caches nothing |
| `Encoder.VertexEncoder.Label` | src/Helpers/VertexEncoder.ts:69-87 | `label(s)` returns the labels or their error, cached or not; a throw caches nothing |

## Left out

- `build/index.js` is packaging configuration and is not modelled.
- `src/Utils/Object.ts` is not part of this model:
  - `deepCopy` is taken as a value copy, except that a hole in a one-hot row becomes `null`, as a JSON copy makes it.
  - `hasOwnProperty` is taken as map membership.
  - `setObjectMap` is taken as the identity.
- Prototype keys. Some bookkeeping objects of the traversal (`inQueue`, `distance`, `edge`) are plain `{}`, so a vertex named like an `Object.prototype` member (`"toString"`) reads as present there. Vertices are modelled as plain strings with no such members.
- The `clone` getter hands the same data object to the new graph. Aliasing between graphs is not modelled.
- The `Create` static factories are only the constructors under another name.
- Parameter defaults are not modelled: `edges` takes `depth` and `label` takes `startFrom` explicitly. The defaults are -1 and 0.
- `state`: the `Date.now()` timestamp and `Object.freeze` are not modelled. The state is an immutable value.
- Text parsing of relative weights (`'+=1'`) is not modelled. A weight arrives as `Abs(w)` or as `Rel(op, operand)` already parsed.
- Numbers are reals, so floating-point rounding is not modelled. Neither are `NaN` (a malformed operand) nor `Infinity` arithmetic beyond `Dist`.
- `GraphModel.Calculate`, `GraphModel.Apply`: these require a non-zero divisor for `/=`. JavaScript's result for division by zero (`Infinity` or `NaN`) is not modelled. The graph methods require the same of their tables (`NoZeroDivisor`).
- `GraphStore.TrafficGraph.To`, `GraphStore.TrafficGraph.Both`, `GraphStore.TrafficGraph.All`: `NoZeroDivisor` covers every entry of the table. For `to` that includes the entry under the source's own key, which `to` skips without evaluating, so a call such as `to('a', { a: '/=0', b: 1 })` is outside the model.
- JavaScript enumerates integer-like object keys first, in numeric order. The model assumes insertion order for every key.
- Routes are not proved shortest; the relaxation does not compute shortest routes.
- The source's loops cannot run forever, even on negative cycles. Only their termination is proved.
- The caches are keyed by values (`RouteKey(from, to)`, `EdgeQuery(v, e)`, ...) instead of text. Text keys such as `route ${from} to ${to}` can coincide for vertex names containing `" to "`. That collision is not modelled.
- A cached array handed out by `edges` or `_getRoutes` is the cache's own array; these are values here, so aliasing is not modelled.
- `ArrayUtil.Ensure`, `ArrayUtil.Remove`, `ArrayUtil.Add`: these return the new array instead of updating the caller's array in place. A second reference to the same array is therefore not modelled.
- `Hashmap.Hashmap`: keys are values of any equality type instead of strings (see the cache keys above).
- `TraversalEngine.TrafficTraversal.Traffic`, `TraversalEngine.TrafficTraversal.SumRoute`: these implement the evidently intended sum over the route's edges. The loop as written is `TraversalModel.TrafficAsWritten` (see Findings).
- `test/TrafficTraversal.test.ts` reads an older data shape. The tests of `test/unit.test.ts` are the reference for behaviour.

## Findings

| source | as written | input that shows it | evidently intended | confidence | as-written member | corrected member |
|---|---|---|---|---|---|---|
| src/TrafficTraversal.ts:183-192 | After the last vertex of the route, `routes[i]` is `undefined`, and `_isEdgeHaveGraphVertex(vertex, undefined)` looks up the key `"undefined"`. If the last vertex has an edge to a vertex named `"undefined"`, that weight is added once more | a graph with the one edge `a -> "undefined"` of weight 5, and `traffic("a", "a")`: the loop as written returns 5 | the sum of the weights of the route's edges, 0 for the route `[a]` | not executed | `TraversalModel.TrafficOfUndefinedEdge` | `TraversalModel.Traffic` |
