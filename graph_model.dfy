/**
 * The graph store of src/TrafficGraph.ts as values: its data, the arithmetic
 * of relative weights, and for every mutator the data it leaves behind.
 * The class GraphStore.TrafficGraph runs the same operations as loops that
 * update its fields and is proved to agree with the functions here.
 */
module GraphModel {
  import opened Base
  import opened ArrayUtil
  import opened OrderedMap

  /** `GraphVertex`: the outgoing edges of one source, destination to weight. */
  type Row = OMap<real>

  /** `TrafficGraphData.vertex`: every source with its outgoing edges. */
  type Adj = OMap<Row>

  /** `TrafficGraphData`: the adjacency and the list of every vertex ever introduced. */
  datatype GraphData = GraphData(vertex: Adj, embedded: seq<Vertex>)

  /** `ITrafficGraphState`: a frozen copy of the data and its vertex list.
      The capture timestamp is not part of the model. */
  datatype State = State(data: GraphData, vertices: seq<Vertex>)

  /** The two-character prefix of a relative weight such as `'+=1'`. */
  datatype Op = AddTo | SubtractFrom | MultiplyBy | DivideBy | Unknown(symbol: string)

  /** A weight handed to `to`, `both` or `all`: a number, or a string that
      reads `<op><operand>`, already split into its two parts. */
  datatype Expr = Abs(weight: real) | Rel(op: Op, operand: real)

  /** The `dest` argument of `to`, `both` and `all`. */
  type Table = OMap<Expr>

  /** The result of a mutator: the data afterwards, and whether it threw. A
      mutator that throws keeps the writes it made before throwing. */
  datatype Applied = Applied(data: GraphData, outcome: Outcome)

  // ----------------------------------------------------------- lookups

  /** `_graphVertex(s)`: the row of a source, or `{}` for a vertex that is no source. */
  function RowOf(adj: Adj, s: Vertex): Row {
    if s in adj.at then adj.at[s] else Empty()
  }

  /** The weight a relative expression starts from: the current one, or 0. */
  function Before(row: Row, v: Vertex): real {
    if v in row.at then row.at[v] else 0.0
  }

  /** The edge `s -> v` and its weight, if present. */
  function Edge(adj: Adj, s: Vertex, v: Vertex): Option<real> {
    Get(RowOf(adj, s), v)
  }

  // -------------------------------------------------------- _calculate

  /** Division by zero yields a non-finite number in the source; the model
      keeps such expressions out. */
  predicate Sound(e: Expr) {
    e.Rel? && e.op == DivideBy ==> e.operand != 0.0
  }

  predicate NoZeroDivisor(t: Table) {
    forall k :: k in t.at ==> Sound(t.at[k])
  }

  /** An expression `_calculate` rejects. */
  predicate Bad(e: Expr) {
    e.Rel? && e.op.Unknown?
  }

  /** The arithmetic of `_calculate` on the weight it starts from. */
  function Apply(before: real, op: Op, operand: real): (r: Result<real>)
    requires op == DivideBy ==> operand != 0.0
    ensures r.Err? <==> op.Unknown?
    ensures r.Err? ==> r.error == InvalidExpression
  {
    match op
    case AddTo => Ok(before + operand)
    case SubtractFrom => Ok(before - operand)
    case MultiplyBy => Ok(before * operand)
    case DivideBy => Ok(before / operand)
    case Unknown(_) => Err(InvalidExpression)
  }

  /** `_calculate(row, v, calc)`: apply the operator to the current weight of
      `v`, or to 0 when the edge is absent; an unknown operator throws. */
  function Calculate(row: Row, v: Vertex, op: Op, operand: real): (r: Result<real>)
    requires op == DivideBy ==> operand != 0.0
    ensures r.Err? <==> op.Unknown?
  {
    Apply(Before(row, v), op, operand)
  }

  /** `+= x` followed by `-= x` restores the weight it started from. */
  lemma AddThenSubtract(row: Row, v: Vertex, x: real)
    ensures var w := Calculate(row, v, AddTo, x).value;
            Calculate(Put(row, v, w), v, SubtractFrom, x) == Ok(Before(row, v))
  {
  }

  /** `*= x` followed by `/= x` restores the weight it started from. */
  lemma MultiplyThenDivide(row: Row, v: Vertex, x: real)
    requires x != 0.0
    ensures var w := Calculate(row, v, MultiplyBy, x).value;
            Calculate(Put(row, v, w), v, DivideBy, x) == Ok(Before(row, v))
  {
    var b := Before(row, v);
    var w := b * x;
    assert Apply(b, MultiplyBy, x) == Ok(w);
    assert Calculate(row, v, MultiplyBy, x) == Ok(w);
    assert Before(Put(row, v, w), v) == w;
    assert Calculate(Put(row, v, w), v, DivideBy, x) == Ok(w / x);
    assert w / x == b;
  }

  /** On an absent edge the expression starts from 0. */
  lemma CalculateOnAbsentEdge(row: Row, v: Vertex, x: real)
    requires v !in row.at
    ensures Calculate(row, v, AddTo, x) == Ok(x)
    ensures Calculate(row, v, SubtractFrom, x) == Ok(-x)
    ensures Calculate(row, v, MultiplyBy, x) == Ok(0.0)
    ensures x != 0.0 ==> Calculate(row, v, DivideBy, x) == Ok(0.0)
  {
  }

  /** The weight an entry of `dest` stands for, given the weight it starts from. */
  function Eval(before: real, e: Expr): (r: Result<real>)
    requires Sound(e)
    ensures r.Err? <==> Bad(e)
  {
    match e
    case Abs(w) => Ok(w)
    case Rel(op, x) => Apply(before, op, x)
  }

  /** The weight `to` writes for `v`: a number as it is, a string through `_calculate`. */
  function Resolved(row: Row, v: Vertex, e: Expr): real
    requires Sound(e) && !Bad(e)
  {
    Eval(Before(row, v), e).value
  }

  // ---------------------------------------------------------------- to

  /** Lines 137-140 of `to`: a new source gets an empty row and is embedded. */
  function WithSource(d: GraphData, s: Vertex): GraphData {
    if s in d.vertex.at then d
    else GraphData(Put(d.vertex, s, Empty()), Ensured(d.embedded, [s]))
  }

  /** One pass of the loop of `to`: resolve the weight, write `s -> v`, embed `v`. */
  function WriteEdge(d: GraphData, s: Vertex, v: Vertex, e: Expr): Applied
    requires Sound(e)
  {
    var row := RowOf(d.vertex, s);
    match Eval(Before(row, v), e)
    case Err(err) => Applied(d, Fail(err))
    case Ok(w) => Applied(GraphData(Put(d.vertex, s, Put(row, v, w)), Ensured(d.embedded, [v])), Pass)
  }

  /** The loop of `to` over the remaining keys: `s` itself is skipped and the
      first expression that throws ends the loop, keeping earlier writes. */
  function WriteKeys(d: GraphData, s: Vertex, dest: Table, keys: seq<Vertex>): Applied
    requires NoZeroDivisor(dest)
    requires forall k :: k in keys ==> k in dest.at
    decreases |keys|
  {
    if keys == [] then Applied(d, Pass)
    else if keys[0] == s then WriteKeys(d, s, dest, keys[1..])
    else
      var step := WriteEdge(d, s, keys[0], dest.at[keys[0]]);
      if step.outcome.Fail? then step else WriteKeys(step.data, s, dest, keys[1..])
  }

  /** `to(s, dest)`. */
  function AfterTo(d: GraphData, s: Vertex, dest: Table): Applied
    requires NoZeroDivisor(dest)
  {
    Keys(dest);
    WriteKeys(WithSource(d, s), s, dest, dest.keys)
  }

  /** The loop of `to` over every key of `dest`, from the data `d`. */
  function WriteAll(d: GraphData, s: Vertex, dest: Table): Applied
    requires NoZeroDivisor(dest)
  {
    Keys(dest);
    WriteKeys(d, s, dest, dest.keys)
  }

  // ------------------------------------- to, stated without its loop

  /** The keys the loop of `to` gets through: up to, not including, the
      first key other than `s` whose expression throws. */
  function Reached(s: Vertex, dest: Table, keys: seq<Vertex>): (r: seq<Vertex>)
    requires forall k :: k in keys ==> k in dest.at
    ensures |r| <= |keys| && r == keys[..|r|]
    ensures forall k :: k in r ==> k in keys && k in dest.at && (k != s ==> !Bad(dest.at[k]))
    ensures r == keys || (keys[|r|] != s && Bad(dest.at[keys[|r|]]))
  {
    if keys == [] then []
    else if keys[0] != s && Bad(dest.at[keys[0]]) then []
    else [keys[0]] + Reached(s, dest, keys[1..])
  }

  /** The destinations `to(s, dest)` writes, in order. */
  function Written(s: Vertex, dest: Table): (w: seq<Vertex>)
    ensures forall v :: v in w ==> v in dest.at && v != s && !Bad(dest.at[v])
  {
    Keys(dest);
    Without(Reached(s, dest, dest.keys), [s])
  }

  /** A row after the keys `w` have been written with the weights their
      expressions give against this row: new keys are appended in order. */
  function WriteRow(row: Row, w: seq<Vertex>, dest: Table): (r: Row)
    requires NoZeroDivisor(dest)
    requires forall v :: v in w ==> v in dest.at && !Bad(dest.at[v])
  {
    EnsuredExtends(row.keys, w);
    assert KeySet(Ensured(row.keys, w)) == (row.at + Writes(row, w, dest)).Keys by {
      Keys(row);
      KeySetMembers(Ensured(row.keys, w));
    }
    Ordered(Ensured(row.keys, w), row.at + Writes(row, w, dest))
  }

  /** The weights of the keys `w`, each evaluated against `row`. */
  function Writes(row: Row, w: seq<Vertex>, dest: Table): (m: map<Vertex, real>)
    requires NoZeroDivisor(dest)
    requires forall v :: v in w ==> v in dest.at && !Bad(dest.at[v])
    ensures forall v :: v in m <==> v in w
    ensures forall v :: v in w ==> m[v] == Resolved(row, v, dest.at[v])
  {
    map v | v in w :: Resolved(row, v, dest.at[v])
  }

  /** The data after the keys `w` of `dest` have been written from `s`. */
  function Finish(d: GraphData, s: Vertex, dest: Table, w: seq<Vertex>, pass: bool): Applied
    requires NoZeroDivisor(dest)
    requires forall v :: v in w ==> v in dest.at && !Bad(dest.at[v])
  {
    Applied(GraphData(Put(d.vertex, s, WriteRow(RowOf(d.vertex, s), w, dest)), Ensured(d.embedded, w)),
            if pass then Pass else Fail(InvalidExpression))
  }

  /** What `to(s, dest)` leaves behind, written without a loop: the source
      exists, the written keys carry the weights their expressions give
      against the row as it was, and `embedded` has every written key. */
  function ToReference(d: GraphData, s: Vertex, dest: Table): Applied
    requires NoZeroDivisor(dest)
  {
    Keys(dest);
    Finish(WithSource(d, s), s, dest, Written(s, dest), Reached(s, dest, dest.keys) == dest.keys)
  }

  /** Writing nothing leaves the data as it was. */
  lemma FinishNothing(d: GraphData, s: Vertex, dest: Table)
    requires NoZeroDivisor(dest)
    requires s in d.vertex.at
    ensures Finish(d, s, dest, [], true) == Applied(d, Pass)
    ensures Finish(d, s, dest, [], false) == Applied(d, Fail(InvalidExpression))
  {
    var row := RowOf(d.vertex, s);
    assert WriteRow(row, [], dest) == row;
    PutSame(d.vertex, s);
  }

  /** Writing `k` first and then the keys `w` is writing `[k] + w`: the
      weights of `w` do not depend on the weight of `k`. */
  lemma WriteRowStep(row: Row, dest: Table, k: Vertex, w: seq<Vertex>)
    requires NoZeroDivisor(dest)
    requires k in dest.at && !Bad(dest.at[k]) && k !in w
    requires forall v :: v in w ==> v in dest.at && !Bad(dest.at[v])
    ensures WriteRow(Put(row, k, Resolved(row, k, dest.at[k])), w, dest) == WriteRow(row, [k] + w, dest)
  {
    EnsuredAppend(row.keys, [k], w);
    forall v | v in WriteRow(Put(row, k, Resolved(row, k, dest.at[k])), w, dest).at
      ensures WriteRow(Put(row, k, Resolved(row, k, dest.at[k])), w, dest).at[v] == WriteRow(row, [k] + w, dest).at[v]
    {
      if v in w {
        assert Before(Put(row, k, Resolved(row, k, dest.at[k])), v) == Before(row, v);
      }
    }
    Extensional(WriteRow(Put(row, k, Resolved(row, k, dest.at[k])), w, dest), WriteRow(row, [k] + w, dest));
  }

  /** One write `s -> k`, then the keys `w`, is the keys `[k] + w`. */
  lemma FinishStep(d: GraphData, s: Vertex, dest: Table, k: Vertex, w: seq<Vertex>, pass: bool)
    requires NoZeroDivisor(dest)
    requires k != s
    requires k in dest.at && !Bad(dest.at[k]) && k !in w
    requires forall v :: v in w ==> v in dest.at && !Bad(dest.at[v])
    requires forall v :: v in [k] + w ==> v in dest.at && !Bad(dest.at[v])
    ensures Finish(WriteEdge(d, s, k, dest.at[k]).data, s, dest, w, pass) == Finish(d, s, dest, [k] + w, pass)
    ensures WriteEdge(d, s, k, dest.at[k]).outcome == Pass
  {
    var row := RowOf(d.vertex, s);
    var row1 := Put(row, k, Resolved(row, k, dest.at[k]));
    var d' := WriteEdge(d, s, k, dest.at[k]).data;
    assert d' == GraphData(Put(d.vertex, s, row1), Ensured(d.embedded, [k]));
    WriteRowStep(row, dest, k, w);
    PutPut(d.vertex, s, row1, WriteRow(row1, w, dest));
    EnsuredAppend(d.embedded, [k], w);
  }

  lemma {:induction false} WriteKeysIsReference(d: GraphData, s: Vertex, dest: Table, keys: seq<Vertex>)
    requires NoZeroDivisor(dest)
    requires s in d.vertex.at
    requires Distinct(keys) && forall k :: k in keys ==> k in dest.at
    ensures WriteKeys(d, s, dest, keys)
            == Finish(d, s, dest, Without(Reached(s, dest, keys), [s]), Reached(s, dest, keys) == keys)
    decreases |keys|
  {
    if keys == [] {
      FinishNothing(d, s, dest);
    } else if keys[0] != s && Bad(dest.at[keys[0]]) {
      assert Reached(s, dest, keys) == [] != keys;
      assert WriteKeys(d, s, dest, keys) == Applied(d, Fail(InvalidExpression));
      FinishNothing(d, s, dest);
    } else {
      DistinctTail(keys);
      ReachedCons(s, dest, keys);
      if keys[0] == s {
        assert WriteKeys(d, s, dest, keys) == WriteKeys(d, s, dest, keys[1..]);
        WriteKeysIsReference(d, s, dest, keys[1..]);
      } else {
        FinishStep(d, s, dest, keys[0], Without(Reached(s, dest, keys[1..]), [s]), Reached(s, dest, keys[1..]) == keys[1..]);
        assert WriteKeys(d, s, dest, keys) == WriteKeys(WriteEdge(d, s, keys[0], dest.at[keys[0]]).data, s, dest, keys[1..]);
        WriteKeysIsReference(WriteEdge(d, s, keys[0], dest.at[keys[0]]).data, s, dest, keys[1..]);
      }
    }
  }

  /** When the loop of `to` gets past the first key, the keys it reaches are
      that key and the ones it reaches after it. */
  lemma ReachedCons(s: Vertex, dest: Table, keys: seq<Vertex>)
    requires keys != [] && forall k :: k in keys ==> k in dest.at
    requires keys[0] == s || !Bad(dest.at[keys[0]])
    ensures (Reached(s, dest, keys) == keys) == (Reached(s, dest, keys[1..]) == keys[1..])
    ensures keys[0] == s ==> Without(Reached(s, dest, keys), [s]) == Without(Reached(s, dest, keys[1..]), [s])
    ensures keys[0] != s ==> Without(Reached(s, dest, keys), [s]) == [keys[0]] + Without(Reached(s, dest, keys[1..]), [s])
  {
    assert Reached(s, dest, keys) == [keys[0]] + Reached(s, dest, keys[1..]);
    var r' := Reached(s, dest, keys[1..]);
    assert ([keys[0]] + r')[0] == keys[0] && ([keys[0]] + r')[1..] == r';
    if [keys[0]] + r' == keys { assert r' == ([keys[0]] + r')[1..]; }
    if r' == keys[1..] { assert keys == [keys[0]] + keys[1..]; }
  }

  /** A pass of the loop of `to` that meets `s` itself skips it. */
  lemma WriteKeysSkip(d: GraphData, s: Vertex, dest: Table, keys: seq<Vertex>)
    requires NoZeroDivisor(dest)
    requires keys != [] && keys[0] == s && forall k :: k in keys ==> k in dest.at
    ensures forall k :: k in keys[1..] ==> k in dest.at
    ensures WriteKeys(d, s, dest, keys) == WriteKeys(d, s, dest, keys[1..])
  {
    forall k | k in keys[1..] ensures k in dest.at { assert k in keys; }
  }

  /** A pass of the loop of `to` whose expression throws ends it with the
      data as it stands. */
  lemma WriteKeysThrow(d: GraphData, s: Vertex, dest: Table, keys: seq<Vertex>)
    requires NoZeroDivisor(dest)
    requires keys != [] && forall k :: k in keys ==> k in dest.at
    requires keys[0] != s && Bad(dest.at[keys[0]])
    ensures WriteKeys(d, s, dest, keys) == Applied(d, Fail(InvalidExpression))
  {
  }

  /** Any other pass writes the resolved weight `w` and embeds the key. */
  lemma WriteKeysWrite(adj: Adj, emb: seq<Vertex>, s: Vertex, dest: Table, keys: seq<Vertex>, gv: Row, w: real)
    requires NoZeroDivisor(dest)
    requires keys != [] && forall k :: k in keys ==> k in dest.at
    requires keys[0] != s && !Bad(dest.at[keys[0]])
    requires s in adj.at && gv == adj.at[s] && w == Resolved(gv, keys[0], dest.at[keys[0]])
    ensures forall k :: k in keys[1..] ==> k in dest.at
    ensures WriteKeys(GraphData(adj, emb), s, dest, keys)
              == WriteKeys(GraphData(Put(adj, s, Put(gv, keys[0], w)), Ensured(emb, [keys[0]])), s, dest, keys[1..])
  {
    forall k | k in keys[1..] ensures k in dest.at { assert k in keys; }
  }

  /** `to` is its closed form. */
  lemma AfterToIsReference(d: GraphData, s: Vertex, dest: Table)
    requires NoZeroDivisor(dest)
    ensures AfterTo(d, s, dest) == ToReference(d, s, dest)
  {
    Keys(dest);
    WriteKeysIsReference(WithSource(d, s), s, dest, dest.keys);
  }

  /** `to(v, t)` accepts every expression of `t` it evaluates: all keys but `v` itself. */
  predicate GoodFor(t: Table, v: Vertex) {
    forall u :: u in t.at && u != v ==> !Bad(t.at[u])
  }

  /** `to(s, dest)` creates the source even when `dest` is empty or throws,
      and throws exactly when some key other than `s` has an unknown operator. */
  lemma ToOutcome(d: GraphData, s: Vertex, dest: Table)
    requires NoZeroDivisor(dest)
    ensures var r := AfterTo(d, s, dest);
            && s in r.data.vertex.at
            && r.data.vertex.keys == Ensured(d.vertex.keys, [s])
            && (r.outcome == Pass <==> GoodFor(dest, s))
            && (r.outcome != Pass ==> r.outcome == Fail(InvalidExpression))
            && (r.outcome == Pass ==> Written(s, dest) == Without(dest.keys, [s]))
  {
    AfterToIsReference(d, s, dest);
    Keys(dest);
    var reached := Reached(s, dest, dest.keys);
    if GoodFor(dest, s) {
      assert reached == dest.keys;
    }
    var d1 := WithSource(d, s);
    assert Ensured(d1.vertex.keys, [s]) == d1.vertex.keys;
  }

  /** Edge by edge: each written key carries its expression evaluated
      against the weight it had before, every other edge of `s` keeps its
      weight, and the key order of the row follows `ensure`. */
  lemma ToWrites(d: GraphData, s: Vertex, dest: Table)
    requires NoZeroDivisor(dest)
    ensures var r := AfterTo(d, s, dest);
            var w := Written(s, dest);
            var before := RowOf(d.vertex, s);
            var after := RowOf(r.data.vertex, s);
            && s !in w
            && (forall v :: v in w ==> Get(after, v) == Some(Resolved(before, v, dest.at[v])))
            && (forall v :: v !in w ==> Get(after, v) == Get(before, v))
            && after.keys == Ensured(before.keys, w)
  {
    AfterToIsReference(d, s, dest);
    var d1 := WithSource(d, s);
    var w := Written(s, dest);
    var before := RowOf(d.vertex, s);
    assert RowOf(d1.vertex, s) == before;
    var after := WriteRow(before, w, dest);
    assert RowOf(AfterTo(d, s, dest).data.vertex, s) == after;
    var m := Writes(before, w, dest);
    assert after.at == before.at + m;
    forall v | v in w ensures Get(after, v) == Some(Resolved(before, v, dest.at[v])) {
      assert after.at[v] == m[v];
    }
  }

  /** `to(s, dest)` touches no other source, and `embedded` gains exactly
      the source and the written keys. */
  lemma ToFrame(d: GraphData, s: Vertex, dest: Table)
    requires NoZeroDivisor(dest)
    ensures var r := AfterTo(d, s, dest);
            && (forall x :: x != s ==> RowOf(r.data.vertex, x) == RowOf(d.vertex, x))
            // only a new source is embedded by the header of `to`
            && (s !in d.vertex.at || s in d.embedded ==> r.data.embedded == Ensured(d.embedded, [s] + Written(s, dest)))
            && (s in d.vertex.at ==> r.data.embedded == Ensured(d.embedded, Written(s, dest)))
  {
    AfterToIsReference(d, s, dest);
    EnsuredAppend(d.embedded, [s], Written(s, dest));
    if s in d.embedded {
      EnsuredPresent(d.embedded, [s]);
    }
  }

  /** An edge after `to` is no self-loop and ends at an embedded vertex. */
  lemma ToEdgeInv(d: GraphData, s: Vertex, dest: Table, x: Vertex, y: Vertex)
    requires NoZeroDivisor(dest)
    requires Inv(d)
    ensures Get(RowOf(AfterTo(d, s, dest).data.vertex, x), y).Some? ==>
              x != y && y in AfterTo(d, s, dest).data.embedded
  {
    ToFrame(d, s, dest);
    EnsuredExtends(d.embedded, [s] + Written(s, dest));
    if x == s {
      ToWrites(d, s, dest);
      assert y in Written(s, dest) ==> y in [s] + Written(s, dest);
    }
  }

  /** A source after `to` is embedded. */
  lemma ToSourceInv(d: GraphData, s: Vertex, dest: Table, x: Vertex)
    requires NoZeroDivisor(dest)
    requires Inv(d)
    ensures x in AfterTo(d, s, dest).data.vertex.at ==> x in AfterTo(d, s, dest).data.embedded
  {
    ToOutcome(d, s, dest);
    ToFrame(d, s, dest);
    EnsuredExtends(d.embedded, [s] + Written(s, dest));
    EnsuredExtends(d.vertex.keys, [s]);
    Keys(d.vertex);
    Keys(AfterTo(d, s, dest).data.vertex);
    assert s in [s] + Written(s, dest);
  }

  /** `to` keeps the invariant of the data. */
  lemma ToPreservesInv(d: GraphData, s: Vertex, dest: Table)
    requires NoZeroDivisor(dest)
    requires Inv(d)
    ensures Inv(AfterTo(d, s, dest).data)
  {
    ToFrame(d, s, dest);
    EnsuredExtends(d.embedded, [s] + Written(s, dest));
    forall x, y | x in AfterTo(d, s, dest).data.vertex.at && y in AfterTo(d, s, dest).data.vertex.at[x].at
      ensures x != y && y in AfterTo(d, s, dest).data.embedded
    {
      ToEdgeInv(d, s, dest, x, y);
    }
    forall x | x in AfterTo(d, s, dest).data.vertex.at ensures x in AfterTo(d, s, dest).data.embedded {
      ToSourceInv(d, s, dest, x);
    }
  }

  // -------------------------------------------------------- both, all

  /** The single-entry table `{ [a]: e }`. */
  function Single(a: Vertex, e: Expr): (t: Table)
    ensures t.keys == [a] && t.at == map[a := e]
  {
    assert KeySet([a]) == {a} + KeySet([]);
    Ordered([a], map[a := e])
  }

  /** The loop of `both` over the remaining keys: `to(v, { [a]: b[v] })`. */
  function BothKeys(d: GraphData, a: Vertex, b: Table, keys: seq<Vertex>): Applied
    requires NoZeroDivisor(b)
    requires forall k :: k in keys ==> k in b.at
    decreases |keys|
  {
    if keys == [] then Applied(d, Pass)
    else
      var r := AfterTo(d, keys[0], Single(a, b.at[keys[0]]));
      if r.outcome.Fail? then r else BothKeys(r.data, a, b, keys[1..])
  }

  /** One pass of the loop of `both`: the table it passes to `to` divides by
      no zero, and when that `to` succeeds the loop goes on with the rest of
      the keys. */
  lemma BothKeysStep(d: GraphData, a: Vertex, b: Table, keys: seq<Vertex>)
    requires NoZeroDivisor(b)
    requires keys != [] && forall k :: k in keys ==> k in b.at
    ensures NoZeroDivisor(Single(a, b.at[keys[0]]))
    ensures forall k :: k in keys[1..] ==> k in b.at
    ensures AfterTo(d, keys[0], Single(a, b.at[keys[0]])).outcome.Pass? ==>
              BothKeys(d, a, b, keys) == BothKeys(AfterTo(d, keys[0], Single(a, b.at[keys[0]])).data, a, b, keys[1..])
  {
    assert keys[0] in keys;
    forall k | k in keys[1..] ensures k in b.at { assert k in keys; }
  }

  /** `both(a, b)`: `to(a, b)`, then the reverse edge from every key of `b`. */
  function AfterBoth(d: GraphData, a: Vertex, b: Table): Applied
    requires NoZeroDivisor(b)
  {
    var r := AfterTo(d, a, b);
    Keys(b);
    if r.outcome.Fail? then r else BothKeys(r.data, a, b, b.keys)
  }

  /** The loop of `all` over the remaining keys: `to(v, t)`. */
  function AllKeys(d: GraphData, t: Table, keys: seq<Vertex>): Applied
    requires NoZeroDivisor(t)
    decreases |keys|
  {
    if keys == [] then Applied(d, Pass)
    else
      var r := AfterTo(d, keys[0], t);
      if r.outcome.Fail? then r else AllKeys(r.data, t, keys[1..])
  }

  /** `all(t)`. */
  function AfterAll(d: GraphData, t: Table): Applied
    requires NoZeroDivisor(t)
  {
    AllKeys(d, t, t.keys)
  }

  // ------------------------------------------------ unlinkTo, unlinkBoth

  /** `unlinkTo(s, v)`: delete `s -> v` from the row of `s`, if `s` is a source. */
  function AfterUnlinkTo(d: GraphData, s: Vertex, v: Vertex): GraphData {
    if s in d.vertex.at then GraphData(Put(d.vertex, s, Delete(d.vertex.at[s], v)), d.embedded)
    else d
  }

  /** `unlinkBoth(a, b)`. */
  function AfterUnlinkBoth(d: GraphData, a: Vertex, b: Vertex): GraphData {
    AfterUnlinkTo(AfterUnlinkTo(d, a, b), b, a)
  }

  // -------------------------------------------------------------- drop

  /** Every row with `x` deleted from it. */
  function Stripped(adj: Adj, x: Vertex): Adj {
    MapValues(adj, Strip(x))
  }

  /** `delete gv[x]`, as a function of the row. */
  function Strip(x: Vertex): Row -> Row {
    (row: Row) => Delete(row, x)
  }

  /** `drop(x)`: `x` leaves every row, then its own row goes. */
  function AfterDrop(d: GraphData, x: Vertex): GraphData {
    GraphData(Delete(Stripped(d.vertex, x), x), d.embedded)
  }

  // ------------------------------------------------------------ invert

  /** A row with every weight times -1. */
  function Negated(row: Row): Row {
    MapValues(row, Negate)
  }

  /** `w *= -1` */
  function Negate(w: real): real {
    w * -1.0
  }

  /** `invert()`: every weight times -1; keys and their order stay. */
  function Inverted(adj: Adj): Adj {
    MapValues(adj, Negated)
  }

  // ---------------------------------------------------------- vertices

  /** Every vertex in the order the `vertices` getter meets it: each source,
      then its destinations. */
  function Mentions(adj: Adj, keys: seq<Vertex>): seq<Vertex>
    decreases |keys|
  {
    if keys == [] then [] else [keys[0]] + RowOf(adj, keys[0]).keys + Mentions(adj, keys[1..])
  }

  /** The walk over the sources splits where the list of sources does. */
  lemma {:induction false} MentionsAppend(adj: Adj, a: seq<Vertex>, b: seq<Vertex>)
    ensures Mentions(adj, a + b) == Mentions(adj, a) + Mentions(adj, b)
    decreases |a|
  {
    if a == [] {
      assert a + b == b;
    } else {
      assert (a + b)[0] == a[0] && (a + b)[1..] == a[1..] + b;
      MentionsAppend(adj, a[1..], b);
    }
  }

  /** The `vertices` getter: first sighting wins. */
  function VerticesOf(adj: Adj): seq<Vertex> {
    Ensured([], Mentions(adj, adj.keys))
  }

  /** A source, or a destination of some source. */
  ghost predicate Mentioned(adj: Adj, x: Vertex) {
    x in adj.at || exists s :: s in adj.at && x in adj.at[s].at
  }

  /** `state`: a frozen copy of the data with the vertex list of that moment. */
  function Snapshot(d: GraphData): State {
    State(d, VerticesOf(d.vertex))
  }

  // -------------------------------------------------------- invariants

  /** What every mutator keeps: no self-loops, `embedded` duplicate-free,
      every source and every destination embedded. */
  ghost predicate Inv(d: GraphData) {
    && (forall s :: s in d.vertex.at ==> s !in d.vertex.at[s].at)
    && Distinct(d.embedded)
    && (forall s :: s in d.vertex.at ==> s in d.embedded)
    && (forall s, v :: s in d.vertex.at && v in d.vertex.at[s].at ==> v in d.embedded)
  }

  // ------------------------------------------------ both, all: lemmas

  /** `to(v, { [a]: e })`: the one edge `v -> a` (unless `v` is `a`). */
  lemma ToSingle(d: GraphData, v: Vertex, a: Vertex, e: Expr)
    requires Sound(e) && (v != a ==> !Bad(e))
    ensures var r := AfterTo(d, v, Single(a, e));
            && r.outcome == Pass
            && r.data.vertex.keys == Ensured(d.vertex.keys, [v])
            && (forall x :: x != v ==> RowOf(r.data.vertex, x) == RowOf(d.vertex, x))
            && (forall y :: Get(RowOf(r.data.vertex, v), y)
                 == if y == a && v != a then Some(Resolved(RowOf(d.vertex, v), a, e)) else Get(RowOf(d.vertex, v), y))
  {
    var t := Single(a, e);
    ToOutcome(d, v, t);
    ToWrites(d, v, t);
    ToFrame(d, v, t);
    assert t.keys == [a] && t.keys[1..] == [];
    assert Reached(v, t, t.keys) == [a];
    assert Without([a], [v]) == if v == a then [] else [a];
  }

  lemma {:induction false} BothKeysKeys(d: GraphData, a: Vertex, b: Table, keys: seq<Vertex>)
    requires NoZeroDivisor(b)
    requires forall k :: k in keys ==> k in b.at && (k != a ==> !Bad(b.at[k]))
    ensures BothKeys(d, a, b, keys).outcome == Pass
    ensures BothKeys(d, a, b, keys).data.vertex.keys == Ensured(d.vertex.keys, keys)
    decreases |keys|
  {
    if keys != [] {
      ToSingle(d, keys[0], a, b.at[keys[0]]);
      BothKeysKeys(AfterTo(d, keys[0], Single(a, b.at[keys[0]])).data, a, b, keys[1..]);
      EnsuredAppend(d.vertex.keys, [keys[0]], keys[1..]);
      assert [keys[0]] + keys[1..] == keys;
    }
  }

  lemma {:induction false} BothKeysEffect(d: GraphData, a: Vertex, b: Table, keys: seq<Vertex>, x: Vertex, y: Vertex)
    requires NoZeroDivisor(b)
    requires Distinct(keys)
    requires forall k :: k in keys ==> k in b.at && (k != a ==> !Bad(b.at[k]))
    ensures Get(RowOf(BothKeys(d, a, b, keys).data.vertex, x), y)
              == if x in keys && x != a && y == a then Some(Resolved(RowOf(d.vertex, x), a, b.at[x]))
                 else Get(RowOf(d.vertex, x), y)
    decreases |keys|
  {
    if keys != [] {
      DistinctTail(keys);
      ToSingle(d, keys[0], a, b.at[keys[0]]);
      BothKeysEffect(AfterTo(d, keys[0], Single(a, b.at[keys[0]])).data, a, b, keys[1..], x, y);
      assert x in keys <==> x == keys[0] || x in keys[1..];
    }
  }

  /** `both(a, b)` throws exactly when `to(a, b)` does. */
  lemma BothOutcome(d: GraphData, a: Vertex, b: Table)
    requires NoZeroDivisor(b)
    ensures var r := AfterBoth(d, a, b);
            && (r.outcome == Pass <==> GoodFor(b, a))
            && (r.outcome != Pass ==> r.outcome == Fail(InvalidExpression))
  {
    ToOutcome(d, a, b);
    if AfterTo(d, a, b).outcome == Pass {
      Keys(b);
      BothKeysKeys(AfterTo(d, a, b).data, a, b, b.keys);
    }
  }

  /** When `both(a, b)` does not throw, `a` has an edge to every key of `b`
      and every key of `b` has an edge back to `a`, each weight evaluated
      against the edge as it was; no other edge changes. */
  lemma BothEffect(d: GraphData, a: Vertex, b: Table, x: Vertex, y: Vertex)
    requires NoZeroDivisor(b)
    requires GoodFor(b, a)
    ensures var r := AfterBoth(d, a, b);
            Get(RowOf(r.data.vertex, x), y)
              == if x == a && y in b.at && y != a then Some(Resolved(RowOf(d.vertex, a), y, b.at[y]))
                 else if x in b.at && x != a && y == a then Some(Resolved(RowOf(d.vertex, x), a, b.at[x]))
                 else Get(RowOf(d.vertex, x), y)
  {
    ToOutcome(d, a, b);
    Keys(b);
    assert AfterBoth(d, a, b) == BothKeys(AfterTo(d, a, b).data, a, b, b.keys);
    BothKeysEffect(AfterTo(d, a, b).data, a, b, b.keys, x, y);
    if x == a {
      ToWrites(d, a, b);
      assert y in Written(a, b) <==> y in b.at && y != a;
    } else {
      ToFrame(d, a, b);
    }
  }

  lemma {:induction false} AllKeysOutcome(d: GraphData, t: Table, keys: seq<Vertex>)
    requires NoZeroDivisor(t)
    ensures var r := AllKeys(d, t, keys);
            && (r.outcome == Pass <==> forall v :: v in keys ==> GoodFor(t, v))
            && (r.outcome != Pass ==> r.outcome == Fail(InvalidExpression))
    decreases |keys|
  {
    if keys != [] {
      var step := AfterTo(d, keys[0], t);
      ToOutcome(d, keys[0], t);
      AllKeysOutcome(step.data, t, keys[1..]);
      if step.outcome == Pass {
        assert GoodFor(t, keys[0]);
        forall v | v in keys ensures v == keys[0] || v in keys[1..] { }
      } else {
        assert keys[0] in keys && !GoodFor(t, keys[0]);
      }
    }
  }

  lemma {:induction false} AllKeysEffect(d: GraphData, t: Table, keys: seq<Vertex>, x: Vertex, y: Vertex)
    requires NoZeroDivisor(t)
    requires Distinct(keys)
    requires forall v :: v in keys ==> GoodFor(t, v)
    ensures x in keys ==> GoodFor(t, x)
    ensures var r := AllKeys(d, t, keys);
            && r.data.vertex.keys == Ensured(d.vertex.keys, keys)
            && Get(RowOf(r.data.vertex, x), y)
                 == if x in keys && y in t.at && y != x then Some(Resolved(RowOf(d.vertex, x), y, t.at[y]))
                    else Get(RowOf(d.vertex, x), y)
    decreases |keys|
  {
    if keys != [] {
      DistinctTail(keys);
      assert GoodFor(t, keys[0]);
      ToOutcome(d, keys[0], t);
      ToWrites(d, keys[0], t);
      ToFrame(d, keys[0], t);
      forall v | v in keys[1..] ensures GoodFor(t, v) { assert v in keys; }
      AllKeysEffect(AfterTo(d, keys[0], t).data, t, keys[1..], x, y);
      EnsuredAppend(d.vertex.keys, [keys[0]], keys[1..]);
      assert [keys[0]] + keys[1..] == keys;
      Keys(t);
      assert y in Written(keys[0], t) <==> y in t.at && y != keys[0];
      assert x in keys <==> x == keys[0] || x in keys[1..];
    }
  }

  /** `all(t)` throws exactly when some key has an unknown operator and
      `t` has another key. When it does not, every key of `t` has an edge to
      every other key, each weight evaluated against the edge as it was;
      no other edge changes. */
  lemma AllEffect(d: GraphData, t: Table, x: Vertex, y: Vertex)
    requires NoZeroDivisor(t)
    ensures var r := AfterAll(d, t);
            && (r.outcome == Pass <==> forall v :: v in t.at ==> GoodFor(t, v))
            && (r.outcome != Pass ==> r.outcome == Fail(InvalidExpression))
            && (r.outcome == Pass ==>
                  Get(RowOf(r.data.vertex, x), y)
                    == if x in t.at && y in t.at && y != x then Some(Resolved(RowOf(d.vertex, x), y, t.at[y]))
                       else Get(RowOf(d.vertex, x), y))
  {
    Keys(t);
    AllKeysOutcome(d, t, t.keys);
    if AfterAll(d, t).outcome == Pass {
      AllKeysEffect(d, t, t.keys, x, y);
    }
  }

  lemma {:induction false} BothKeysPreservesInv(d: GraphData, a: Vertex, b: Table, keys: seq<Vertex>)
    requires NoZeroDivisor(b)
    requires forall k :: k in keys ==> k in b.at
    requires Inv(d)
    ensures Inv(BothKeys(d, a, b, keys).data)
    decreases |keys|
  {
    if keys != [] {
      ToPreservesInv(d, keys[0], Single(a, b.at[keys[0]]));
      BothKeysPreservesInv(AfterTo(d, keys[0], Single(a, b.at[keys[0]])).data, a, b, keys[1..]);
    }
  }

  /** `both` keeps the invariant of the data, whether or not it throws. */
  lemma BothPreservesInv(d: GraphData, a: Vertex, b: Table)
    requires NoZeroDivisor(b)
    requires Inv(d)
    ensures Inv(AfterBoth(d, a, b).data)
  {
    ToPreservesInv(d, a, b);
    Keys(b);
    BothKeysPreservesInv(AfterTo(d, a, b).data, a, b, b.keys);
  }

  lemma {:induction false} AllKeysPreservesInv(d: GraphData, t: Table, keys: seq<Vertex>)
    requires NoZeroDivisor(t)
    requires Inv(d)
    ensures Inv(AllKeys(d, t, keys).data)
    decreases |keys|
  {
    if keys != [] {
      ToPreservesInv(d, keys[0], t);
      AllKeysPreservesInv(AfterTo(d, keys[0], t).data, t, keys[1..]);
    }
  }

  /** `all` keeps the invariant of the data, whether or not it throws. */
  lemma AllPreservesInv(d: GraphData, t: Table)
    requires NoZeroDivisor(t)
    requires Inv(d)
    ensures Inv(AfterAll(d, t).data)
  {
    AllKeysPreservesInv(d, t, t.keys);
  }

  // ------------------------------------------- unlink, drop, invert: lemmas

  /** `unlinkTo(s, v)` removes the edge `s -> v` and nothing else. */
  lemma UnlinkToEffect(d: GraphData, s: Vertex, v: Vertex)
    ensures var r := AfterUnlinkTo(d, s, v);
            && r.vertex.keys == d.vertex.keys
            && r.embedded == d.embedded
            && forall x, y :: Get(RowOf(r.vertex, x), y)
                 == if x == s && y == v then None else Get(RowOf(d.vertex, x), y)
  {
    if s in d.vertex.at {
      Keys(d.vertex);
      EnsuredPresent(d.vertex.keys, [s]);
    }
  }

  /** `unlinkBoth(a, b)` removes the edges `a -> b` and `b -> a` and nothing else. */
  lemma UnlinkBothEffect(d: GraphData, a: Vertex, b: Vertex)
    ensures var r := AfterUnlinkBoth(d, a, b);
            && r.vertex.keys == d.vertex.keys
            && r.embedded == d.embedded
            && forall x, y :: Get(RowOf(r.vertex, x), y)
                 == if (x == a && y == b) || (x == b && y == a) then None else Get(RowOf(d.vertex, x), y)
  {
    UnlinkToEffect(d, a, b);
    UnlinkToEffect(AfterUnlinkTo(d, a, b), b, a);
  }

  /** Unlinking an edge that `to` has just created gives back the adjacency
      it was created in. */
  lemma UnlinkUndoesTo(d: GraphData, s: Vertex, v: Vertex, w: real)
    requires s in d.vertex.at && v != s && v !in d.vertex.at[s].at
    ensures AfterUnlinkTo(AfterTo(d, s, Single(v, Abs(w))).data, s, v).vertex == d.vertex
  {
    assert Single(v, Abs(w)).keys == [v] && Single(v, Abs(w)).keys[1..] == [];
    assert WriteKeys(d, s, Single(v, Abs(w)), Single(v, Abs(w)).keys)
        == WriteKeys(WriteEdge(d, s, v, Abs(w)).data, s, Single(v, Abs(w)), []);
    assert AfterTo(d, s, Single(v, Abs(w))).data.vertex == Put(d.vertex, s, Put(d.vertex.at[s], v, w));
    DeleteAfterPut(d.vertex.at[s], v, w);
    PutPut(d.vertex, s, Put(d.vertex.at[s], v, w), d.vertex.at[s]);
    PutSame(d.vertex, s);
  }

  lemma UnlinkToPreservesInv(d: GraphData, s: Vertex, v: Vertex)
    requires Inv(d)
    ensures Inv(AfterUnlinkTo(d, s, v))
  {
    var r := AfterUnlinkTo(d, s, v);
    UnlinkToEffect(d, s, v);
    forall x, y | x in r.vertex.at && y in r.vertex.at[x].at
      ensures x != y && y in r.embedded
    {
      assert Get(RowOf(r.vertex, x), y).Some?;
    }
  }

  /** `drop(x)`: `x` is neither a source nor a destination any more, every
      other edge stays, and `embedded` still lists `x`. */
  lemma DropEffect(d: GraphData, x: Vertex)
    ensures var r := AfterDrop(d, x);
            && x !in r.vertex.at
            && (forall s :: s in r.vertex.at ==> x !in r.vertex.at[s].at)
            && r.vertex.keys == Without(d.vertex.keys, [x])
            && r.embedded == d.embedded
            && forall s, y :: s != x && y != x ==> Get(RowOf(r.vertex, s), y) == Get(RowOf(d.vertex, s), y)
  {
    forall s | s in AfterDrop(d, x).vertex.at
      ensures x !in AfterDrop(d, x).vertex.at[s].at
    {
      DropRow(d, x, s);
    }
    forall s, y | s != x && y != x
      ensures Get(RowOf(AfterDrop(d, x).vertex, s), y) == Get(RowOf(d.vertex, s), y)
    {
      DropRow(d, x, s);
    }
  }

  /** After `drop(x)`, the row of another source is its old row without `x`. */
  lemma DropRow(d: GraphData, x: Vertex, s: Vertex)
    requires s != x
    ensures s in AfterDrop(d, x).vertex.at <==> s in d.vertex.at
    ensures s in d.vertex.at ==> AfterDrop(d, x).vertex.at[s] == Delete(d.vertex.at[s], x)
  {
  }

  lemma DropPreservesInv(d: GraphData, x: Vertex)
    requires Inv(d)
    ensures Inv(AfterDrop(d, x))
  {
  }

  /** `invert()` negates every weight and keeps every key where it was. */
  lemma InvertEffect(adj: Adj, x: Vertex, y: Vertex)
    ensures Inverted(adj).keys == adj.keys
    ensures RowOf(Inverted(adj), x).keys == RowOf(adj, x).keys
    ensures Get(RowOf(Inverted(adj), x), y)
              == if Get(RowOf(adj, x), y).Some? then Some(-Get(RowOf(adj, x), y).value) else None
  {
    if x in adj.at {
      assert RowOf(Inverted(adj), x) == Negated(adj.at[x]);
    }
  }

  /** Inverting twice gives back the adjacency. */
  lemma InvertedTwice(adj: Adj)
    ensures Inverted(Inverted(adj)) == adj
  {
    forall k | k in adj.at ensures Negated(Negated(adj.at[k])) == adj.at[k] {
      NegatedTwice(adj.at[k]);
    }
    Extensional(Inverted(Inverted(adj)), adj);
  }

  lemma NegatedTwice(row: Row)
    ensures Negated(Negated(row)) == row
  {
    forall v | v in Negated(Negated(row)).at ensures Negated(Negated(row)).at[v] == row.at[v] {
      assert Negated(Negated(row)).at[v] == row.at[v] * -1.0 * -1.0;
    }
    Extensional(Negated(Negated(row)), row);
  }

  lemma InvertPreservesInv(d: GraphData)
    requires Inv(d)
    ensures Inv(GraphData(Inverted(d.vertex), d.embedded))
  {
  }

  // -------------------------------------------------- vertices: lemmas

  lemma {:induction false} MentionsMembers(adj: Adj, keys: seq<Vertex>, x: Vertex)
    ensures x in Mentions(adj, keys) <==> x in keys || exists k :: k in keys && x in RowOf(adj, k).at
    decreases |keys|
  {
    if keys != [] {
      MentionsMembers(adj, keys[1..], x);
      Keys(RowOf(adj, keys[0]));
      assert x in keys <==> x == keys[0] || x in keys[1..];
      if exists k :: k in keys && x in RowOf(adj, k).at {
        var k :| k in keys && x in RowOf(adj, k).at;
        if k != keys[0] { assert k in keys[1..]; }
      }
      if exists k :: k in keys[1..] && x in RowOf(adj, k).at {
        var k :| k in keys[1..] && x in RowOf(adj, k).at;
        assert k in keys;
      }
    }
  }

  /** The `vertices` getter lists every source and every destination, each
      once, and nothing else. */
  lemma VerticesOfMembers(adj: Adj)
    ensures Distinct(VerticesOf(adj))
    ensures forall x :: x in VerticesOf(adj) <==> Mentioned(adj, x)
  {
    EnsuredExtends([], Mentions(adj, adj.keys));
    Keys(adj);
    forall x ensures x in VerticesOf(adj) <==> Mentioned(adj, x) {
      MentionsMembers(adj, adj.keys, x);
      if exists k :: k in adj.keys && x in RowOf(adj, k).at {
        var k :| k in adj.keys && x in RowOf(adj, k).at;
        assert k in adj.at && x in adj.at[k].at;
      }
      if exists s :: s in adj.at && x in adj.at[s].at {
        var s :| s in adj.at && x in adj.at[s].at;
        assert s in adj.keys && x in RowOf(adj, s).at;
      }
    }
  }

  /** Under the invariant every listed vertex is embedded. */
  lemma VerticesEmbedded(d: GraphData)
    requires Inv(d)
    ensures forall x :: x in VerticesOf(d.vertex) ==> x in d.embedded
  {
    VerticesOfMembers(d.vertex);
  }
}
