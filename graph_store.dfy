/**
 * `TrafficGraph`: the mutable graph. Its one field `_data` is split into
 * the two parts the methods update, the adjacency `vertex` and the list
 * `embedded`. Every mutator is proved to leave behind the data that the
 * matching function of GraphModel computes from the data before the call,
 * and to keep GraphModel.Inv.
 */
module GraphStore {
  import opened Base
  import opened ArrayUtil
  import opened OrderedMap
  import opened GraphModel

  class TrafficGraph {
    /** `_data.vertex` */
    var vertex: Adj
    /** `_data.embedded` */
    var embedded: seq<Vertex>

    ghost function Data(): GraphData
      reads this
    {
      GraphData(vertex, embedded)
    }

    ghost predicate Valid()
      reads this
    {
      Inv(Data())
    }

    /** `new TrafficGraph(data)`, and `TrafficGraph.Create(data)`: the graph
        adopts the data it is given. */
    constructor (d: GraphData)
      ensures Data() == d
    {
      vertex := d.vertex;
      embedded := d.embedded;
    }

    /** `new TrafficGraph()`: no vertex at all. */
    constructor Blank()
      ensures Data() == GraphData(Empty(), [])
      ensures Valid()
    {
      vertex := Empty();
      embedded := [];
    }

    // ------------------------------------------------------------ getters

    /** `data`: a copy of the data. */
    method GetData() returns (d: GraphData)
      ensures d == Data()
    {
      d := GraphData(vertex, embedded);
    }

    /** `vertices`: each source, then its destinations, first sighting wins. */
    method Vertices() returns (vs: seq<Vertex>)
      ensures vs == VerticesOf(vertex)
      ensures Distinct(vs)
      ensures forall x :: x in vs <==> Mentioned(vertex, x)
    {
      vs := ListVertices(vertex);
      VerticesOfMembers(vertex);
    }

    /** `state`: the data and the vertex list of this moment. */
    method GetState() returns (st: State)
      ensures st == Snapshot(Data())
    {
      var d := GetData();
      var vs := Vertices();
      st := State(d, vs);
    }

    /** `has(x)`: `x` is a source or a destination. */
    method Has(x: Vertex) returns (b: bool)
      ensures b <==> Mentioned(vertex, x)
    {
      var vs := Vertices();
      b := x in vs;
    }

    /** `hasAll(...xs)`: every one of `xs` is a source or a destination. */
    method HasAll(xs: seq<Vertex>) returns (b: bool)
      ensures b <==> forall x :: x in xs ==> Mentioned(vertex, x)
    {
      var vs := Vertices();
      b := ArrayUtil.Has(vs, xs);
    }

    // ----------------------------------------------------------- mutators

    /** `to(s, dest)`. The loop works on local copies of the two fields and
        stores them back when it ends, also when an expression throws, so
        the writes made before the throw stay. `_embed(v)` is `Ensure` on
        `embedded`. */
    method To(s: Vertex, dest: Table) returns (out: Outcome)
      requires NoZeroDivisor(dest)
      modifies this
      ensures Applied(Data(), out) == AfterTo(old(Data()), s, dest)
      ensures old(Valid()) ==> Valid()
    {
      if old(Valid()) {
        ToPreservesInv(Data(), s, dest);
      }
      var adj, emb := vertex, embedded;
      if s !in adj.at {
        adj := Put(adj, s, Empty());
        emb := Ensure(emb, [s]);
      }
      assert GraphData(adj, emb) == WithSource(old(Data()), s);
      adj, emb, out := WriteDest(adj, emb, s, dest);
      vertex, embedded := adj, emb;
    }

    /** `both(a, b)`: `to(a, b)`, then `to(v, { [a]: b[v] })` for every key `v`. */
    method Both(a: Vertex, b: Table) returns (out: Outcome)
      requires NoZeroDivisor(b)
      modifies this
      ensures Applied(Data(), out) == AfterBoth(old(Data()), a, b)
      ensures old(Valid()) ==> Valid()
    {
      ghost var d0 := Data();
      out := To(a, b);
      if out.Fail? {
        return;
      }
      Keys(b);
      var keys := b.keys;
      while keys != []
        invariant out == Pass
        invariant forall k :: k in keys ==> k in b.at
        invariant BothKeys(Data(), a, b, keys) == AfterBoth(d0, a, b)
        invariant old(Valid()) ==> Valid()
      {
        BothKeysStep(Data(), a, b, keys);
        var v := keys[0];
        var gv := Single(a, b.at[v]);
        out := To(v, gv);
        if out.Fail? {
          return;
        }
        keys := keys[1..];
      }
    }

    /** `all(t)`: `to(v, t)` for every key `v` of `t`. */
    method All(t: Table) returns (out: Outcome)
      requires NoZeroDivisor(t)
      modifies this
      ensures Applied(Data(), out) == AfterAll(old(Data()), t)
      ensures old(Valid()) ==> Valid()
    {
      ghost var d0 := Data();
      var keys := t.keys;
      out := Pass;
      for i := 0 to |keys|
        invariant out == Pass
        invariant AllKeys(Data(), t, keys[i..]) == AfterAll(d0, t)
        invariant old(Valid()) ==> Valid()
      {
        assert keys[i..][0] == keys[i] && keys[i..][1..] == keys[i + 1..];
        out := To(keys[i], t);
        if out.Fail? {
          return;
        }
      }
      assert keys[|keys|..] == [];
    }

    /** `unlinkTo(s, v)`. */
    method UnlinkTo(s: Vertex, v: Vertex)
      modifies this
      ensures Data() == AfterUnlinkTo(old(Data()), s, v)
      ensures old(Valid()) ==> Valid()
    {
      if old(Valid()) {
        UnlinkToPreservesInv(Data(), s, v);
      }
      if s in vertex.at {
        var gv := vertex.at[s];
        vertex := Put(vertex, s, Delete(gv, v));
      }
    }

    /** `unlinkBoth(a, b)`. */
    method UnlinkBoth(a: Vertex, b: Vertex)
      modifies this
      ensures Data() == AfterUnlinkBoth(old(Data()), a, b)
      ensures old(Valid()) ==> Valid()
    {
      UnlinkTo(a, b);
      UnlinkTo(b, a);
    }

    /** `drop(x)`: delete `x` from every row, then delete the row of `x`.
        The rows are rewritten into a local copy that is stored at the end. */
    method Drop(x: Vertex)
      modifies this
      ensures Data() == AfterDrop(old(Data()), x)
      ensures old(Valid()) ==> Valid()
    {
      if old(Valid()) {
        DropPreservesInv(Data(), x);
      }
      var adj := StripRows(vertex, x);
      vertex := Delete(adj, x);
    }

    /** `invert()`: multiply every weight by -1, row by row. The source
        negates each row in place; here each row is negated into a new
        value, and the field is stored once the loop is done. */
    method Invert()
      modifies this
      ensures Data() == GraphData(Inverted(old(vertex)), old(embedded))
      ensures old(Valid()) ==> Valid()
    {
      if old(Valid()) {
        InvertPreservesInv(Data());
      }
      vertex := NegateRows(vertex);
    }
  }

  /** The loop of `drop`: `delete gv[x]` in the row of every source. */
  method StripRows(adj0: Adj, x: Vertex) returns (adj: Adj)
    ensures adj == Stripped(adj0, x)
  {
    adj := adj0;
    MapStart(adj0, Strip(x));
    var keys := adj0.keys;
    for i := 0 to |keys|
      invariant keys == adj0.keys
      invariant MappedUpTo(adj0, adj, Strip(x), i)
    {
      MapStep(adj0, adj, Strip(x), i);
      var k := keys[i];
      var gv := adj.at[k];
      adj := Put(adj, k, Delete(gv, x));
    }
    MapDone(adj0, adj, Strip(x));
  }

  /** The outer loop of `invert`: every row negated. */
  method NegateRows(adj0: Adj) returns (adj: Adj)
    ensures adj == Inverted(adj0)
  {
    adj := adj0;
    MapStart(adj0, Negated);
    var keys := adj0.keys;
    for i := 0 to |keys|
      invariant keys == adj0.keys
      invariant MappedUpTo(adj0, adj, Negated, i)
    {
      MapStep(adj0, adj, Negated, i);
      var k := keys[i];
      var gv := adj.at[k];
      var row := NegateRow(gv);
      adj := Put(adj, k, row);
    }
    MapDone(adj0, adj, Negated);
  }

  /** The loop of `to` over the keys of `dest`, from the data after its
      header. The row of `s` is read again on every pass; the source holds
      on to it instead, and sees the same weights because each pass writes
      a different key. */
  method WriteDest(adj0: Adj, emb0: seq<Vertex>, s: Vertex, dest: Table) returns (adj: Adj, emb: seq<Vertex>, out: Outcome)
    requires NoZeroDivisor(dest) && s in adj0.at
    ensures Applied(GraphData(adj, emb), out) == WriteAll(GraphData(adj0, emb0), s, dest)
  {
    adj, emb := adj0, emb0;
    Keys(dest);
    var keys := dest.keys;
    while keys != []
      invariant s in adj.at
      invariant forall k :: k in keys ==> k in dest.at
      invariant WriteKeys(GraphData(adj, emb), s, dest, keys) == WriteAll(GraphData(adj0, emb0), s, dest)
    {
      var v := keys[0];
      if s == v {
        WriteKeysSkip(GraphData(adj, emb), s, dest, keys);
      } else {
        var gv := adj.at[s];
        var c := Weigh(gv, v, dest.at[v]);
        if c.Err? {
          WriteKeysThrow(GraphData(adj, emb), s, dest, keys);
          out := Fail(c.error);
          return;
        }
        var w := c.value;
        WriteKeysWrite(adj, emb, s, dest, keys, gv, w);
        adj := Put(adj, s, Put(gv, v, w));
        emb := Ensure(emb, [v]);
      }
      keys := keys[1..];
    }
    out := Pass;
  }

  /** The weight `to` writes for `v`: a number as it is, a string
      through `_calculate`, which throws on an unknown prefix. */
  method Weigh(gv: Row, v: Vertex, e: Expr) returns (c: Result<real>)
    requires Sound(e)
    ensures c.Err? <==> Bad(e)
    ensures c.Err? ==> c.error == InvalidExpression
    ensures c.Ok? ==> c.value == Resolved(gv, v, e)
  {
    match e {
      case Abs(x) =>
        c := Ok(x);
      case Rel(op, x) =>
        c := Calculate(gv, v, op, x);
    }
  }

  /** The inner loop of `invert`: `gv[v] *= -1` for every key of the row. */
  method NegateRow(gv: Row) returns (row: Row)
    ensures row == Negated(gv)
  {
    MapStart(gv, Negate);
    row := gv;
    var vs := gv.keys;
    for j := 0 to |vs|
      invariant vs == gv.keys
      invariant MappedUpTo(gv, row, Negate, j)
    {
      MapStep(gv, row, Negate, j);
      var v := vs[j];
      row := Put(row, v, Negate(row.at[v]));
    }
    MapDone(gv, row, Negate);
  }

  /** The loops of the `vertices` getter over an adjacency. */
  method ListVertices(adj: Adj) returns (vs: seq<Vertex>)
    ensures vs == VerticesOf(adj)
  {
    Keys(adj);
    var inQueue: set<Vertex> := {};
    vs := [];
    var keys := adj.keys;
    for i := 0 to |keys|
      invariant vs == Ensured([], Mentions(adj, keys[..i]))
      invariant forall x :: x in inQueue <==> x in vs
    {
      var k := keys[i];
      VerticesStep(adj, keys, i);
      vs, inQueue := PushUnseen(vs, inQueue, [k]);
      var gv := adj.at[k];
      assert gv == RowOf(adj, k);
      vs, inQueue := PushUnseen(vs, inQueue, gv.keys);
    }
    assert keys[..|keys|] == keys;
  }

  /** One pass of the outer loop of `vertices`: ensuring the source, then
      its destinations, extends the list by the next source's mentions. */
  lemma VerticesStep(adj: Adj, keys: seq<Vertex>, i: nat)
    requires i < |keys|
    ensures Ensured(Ensured(Ensured([], Mentions(adj, keys[..i])), [keys[i]]), RowOf(adj, keys[i]).keys)
         == Ensured([], Mentions(adj, keys[..i + 1]))
  {
    var k := keys[i];
    EnsuredAppend(Ensured([], Mentions(adj, keys[..i])), [k], RowOf(adj, k).keys);
    assert keys[..i + 1] == keys[..i] + [k];
    MentionsAppend(adj, keys[..i], [k]);
    assert Mentions(adj, [k]) == [k] + RowOf(adj, k).keys;
    EnsuredAppend([], Mentions(adj, keys[..i]), [k] + RowOf(adj, k).keys);
  }

  /** Push every item not yet `inQueue`, marking it: `ensure`, with the
      membership test done on the marks. */
  method PushUnseen(vs: seq<Vertex>, inQueue: set<Vertex>, items: seq<Vertex>) returns (vs': seq<Vertex>, inQueue': set<Vertex>)
    requires forall x :: x in inQueue <==> x in vs
    ensures vs' == Ensured(vs, items)
    ensures forall x :: x in inQueue' <==> x in vs'
  {
    vs', inQueue' := vs, inQueue;
    for j := 0 to |items|
      invariant Ensured(vs', items[j..]) == Ensured(vs, items)
      invariant forall x :: x in inQueue' <==> x in vs'
    {
      assert items[j..][0] == items[j] && items[j..][1..] == items[j + 1..];
      if items[j] !in inQueue' {
        inQueue' := inQueue' + {items[j]};
        vs' := vs' + [items[j]];
      }
    }
    assert items[|items|..] == [];
  }
}
