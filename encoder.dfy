/**
 * src/Helpers/VertexEncoder.ts: the vertices of one frozen graph state as
 * numbers. A vertex's code is its position in `data.embedded` (the list of
 * every vertex ever introduced, which `drop` does not shrink), while the
 * vector length is the number of vertices in use, `vertices.length`.
 * `oneHot` and `label` throw when a vertex in use was never embedded.
 */
module Encoder {
  import opened Base
  import opened ArrayUtil
  import opened OrderedMap
  import opened GraphModel
  import opened Hashmap

  /** An entry of an exported vector: a number, or the `null` that the JSON
      copy of `deepCopy` puts where the array has a hole. */
  datatype Cell = Num(n: int) | Null

  /** `zeroHot()`: one 0 per vertex in use. */
  function ZeroHotOf(g: State): (r: seq<int>)
    ensures |r| == |g.vertices|
    ensures forall i :: 0 <= i < |r| ==> r[i] == 0
  {
    seq(|g.vertices|, _ => 0)
  }

  /** `embedded.indexOf(v)`: the code of `v`, or -1. */
  function Position(g: State, v: Vertex): (i: int)
    ensures -1 <= i
    ensures i == -1 <==> v !in g.data.embedded
    ensures 0 <= i ==> i < |g.data.embedded| && g.data.embedded[i] == v
  {
    IndexOf(g.data.embedded, v)
  }

  /** `a[i] = x` on a JavaScript array: past the end the array grows to
      `i + 1`, leaving holes between the old end and `i`. */
  function Assign(a: seq<Cell>, i: nat, x: Cell): (r: seq<Cell>)
    ensures |r| == if i < |a| then |a| else i + 1
    ensures r[i] == x
    ensures forall j :: 0 <= j < |r| && j != i ==> r[j] == if j < |a| then a[j] else Null
  {
    if i < |a| then a[i := x] else a + seq(i - |a|, _ => Null) + [x]
  }

  /** `new Array(len).fill(0)` with a 1 written at `i`. */
  function HotRow(len: nat, i: nat): seq<Cell> {
    Assign(seq(len, _ => Num(0)), i, Num(1))
  }

  /** The row of a position inside the vector is `len` long, 1 at `i` and
      0 everywhere else; one past it ends in holes and its 1. */
  lemma HotRowShape(len: nat, i: nat)
    ensures i < len ==> |HotRow(len, i)| == len
    ensures i >= len ==> |HotRow(len, i)| == i + 1
    ensures forall j :: 0 <= j < |HotRow(len, i)| ==>
              HotRow(len, i)[j] == if j == i then Num(1) else if j < len then Num(0) else Null
  {
  }

  /** Rows of different positions differ. */
  lemma HotRowsDiffer(len: nat, i: nat, j: nat)
    requires i != j
    ensures HotRow(len, i) != HotRow(len, j)
  {
    HotRowShape(len, i);
    HotRowShape(len, j);
    if |HotRow(len, j)| > i {
      assert HotRow(len, j)[i] != Num(1);
    }
  }

  // ---------------------------------------------------------------- oneHot

  /** The loop of `oneHot` over the remaining vertices `vs`, after it built `acc`. */
  function OneHotFrom(g: State, vs: seq<Vertex>, acc: OMap<seq<Cell>>): Result<OMap<seq<Cell>>>
    decreases |vs|
  {
    if vs == [] then Ok(acc)
    else if Position(g, vs[0]) == -1 then Err(InconsistentState)
    else OneHotFrom(g, vs[1..], Put(acc, vs[0], HotRow(|g.vertices|, Position(g, vs[0]))))
  }

  /** `oneHot()` */
  function OneHotOf(g: State): Result<OMap<seq<Cell>>> {
    OneHotFrom(g, g.vertices, Empty())
  }

  lemma {:induction false} OneHotFromOk(g: State, vs: seq<Vertex>, acc: OMap<seq<Cell>>)
    ensures OneHotFrom(g, vs, acc).Ok? <==> forall v :: v in vs ==> v in g.data.embedded
    ensures OneHotFrom(g, vs, acc).Err? ==> OneHotFrom(g, vs, acc).error == InconsistentState
    decreases |vs|
  {
    if vs != [] {
      assert forall v :: v in vs <==> v == vs[0] || v in vs[1..];
      if Position(g, vs[0]) != -1 {
        OneHotFromOk(g, vs[1..], Put(acc, vs[0], HotRow(|g.vertices|, Position(g, vs[0]))));
      }
    }
  }

  lemma {:induction false} OneHotFromKeys(g: State, vs: seq<Vertex>, acc: OMap<seq<Cell>>)
    ensures OneHotFrom(g, vs, acc).Ok? ==> OneHotFrom(g, vs, acc).value.keys == Ensured(acc.keys, vs)
    decreases |vs|
  {
    if vs != [] && Position(g, vs[0]) != -1 {
      Keys(acc);
      OneHotFromKeys(g, vs[1..], Put(acc, vs[0], HotRow(|g.vertices|, Position(g, vs[0]))));
    }
  }

  lemma {:induction false} OneHotFromAt(g: State, vs: seq<Vertex>, acc: OMap<seq<Cell>>)
    requires OneHotFrom(g, vs, acc).Ok?
    requires forall v :: v in vs ==> v in g.data.embedded
    ensures forall v :: v in vs ==>
              v in OneHotFrom(g, vs, acc).value.at && OneHotFrom(g, vs, acc).value.at[v] == HotRow(|g.vertices|, Position(g, v))
    ensures forall v :: v in acc.at && v !in vs ==>
              v in OneHotFrom(g, vs, acc).value.at && OneHotFrom(g, vs, acc).value.at[v] == acc.at[v]
    decreases |vs|
  {
    if vs != [] {
      assert forall v :: v in vs <==> v == vs[0] || v in vs[1..];
      OneHotFromAt(g, vs[1..], Put(acc, vs[0], HotRow(|g.vertices|, Position(g, vs[0]))));
    }
  }

  /** `oneHot()` throws exactly when some vertex in use is missing from
      `embedded`; otherwise it has one key per vertex, in the order of
      `vertices` when they are duplicate-free, and the entry of `v` is the
      row of `embedded.indexOf(v)`. */
  lemma OneHotShape(g: State)
    ensures OneHotOf(g).Ok? <==> forall v :: v in g.vertices ==> v in g.data.embedded
    ensures OneHotOf(g).Err? ==> OneHotOf(g).error == InconsistentState
    ensures OneHotOf(g).Ok? ==> forall v :: v in OneHotOf(g).value.at <==> v in g.vertices
    ensures OneHotOf(g).Ok? && Distinct(g.vertices) ==> OneHotOf(g).value.keys == g.vertices
    ensures OneHotOf(g).Ok? ==> forall v :: v in g.vertices ==>
              OneHotOf(g).value.at[v] == HotRow(|g.vertices|, Position(g, v))
  {
    OneHotFromOk(g, g.vertices, Empty());
    OneHotFromKeys(g, g.vertices, Empty());
    if OneHotOf(g).Ok? {
      OneHotFromAt(g, g.vertices, Empty());
    }
    EncodedKeys(OneHotOf(g), g.vertices);
  }

  /** The keys of an encoding built from `vs` are `Ensured([], vs)`: the
      vertices of `vs`, in order when `vs` is duplicate-free. */
  lemma EncodedKeys<V>(r: Result<OMap<V>>, vs: seq<Vertex>)
    requires r.Ok? ==> r.value.keys == Ensured([], vs)
    ensures r.Ok? ==> forall v :: v in r.value.at <==> v in vs
    ensures r.Ok? && Distinct(vs) ==> r.value.keys == vs
  {
    if r.Ok? {
      Keys(r.value);
      EnsuredExtends([], vs);
      if Distinct(vs) {
        EnsuredFreshIsAdded([], vs);
        assert [] + vs == vs;
      }
    }
  }

  /** A vertex sits at one position of `embedded` only. */
  lemma PositionsDiffer(g: State, v: Vertex, w: Vertex)
    requires v in g.data.embedded && w in g.data.embedded && v != w
    ensures Position(g, v) != Position(g, w)
  {
  }

  /** Different vertices get different one-hot rows. */
  lemma OneHotRowsDiffer(g: State, v: Vertex, w: Vertex)
    requires OneHotOf(g).Ok?
    requires v in OneHotOf(g).value.at && w in OneHotOf(g).value.at && v != w
    ensures OneHotOf(g).value.at[v] != OneHotOf(g).value.at[w]
  {
    OneHotShape(g);
    PositionsDiffer(g, v, w);
    HotRowsDiffer(|g.vertices|, Position(g, v), Position(g, w));
  }

  /** A row whose position is inside the vector is a one-hot vector of
      length `|vertices|`: a single 1, 0 elsewhere. */
  lemma OneHotRow(g: State, v: Vertex)
    requires OneHotOf(g).Ok? && v in OneHotOf(g).value.at
    requires Position(g, v) < |g.vertices|
    ensures |OneHotOf(g).value.at[v]| == |g.vertices|
    ensures forall j :: 0 <= j < |g.vertices| ==>
              OneHotOf(g).value.at[v][j] == if j == Position(g, v) then Num(1) else Num(0)
  {
    OneHotShape(g);
    HotRowShape(|g.vertices|, Position(g, v));
  }

  // ----------------------------------------------------------------- label

  /** `startFrom + i`, the label of `v`, `i` its position. */
  function LabelAt(g: State, start: int, v: Vertex): int {
    start + Position(g, v)
  }

  /** The loop of `label(startFrom)` over the remaining vertices `vs`. */
  function LabelFrom(g: State, vs: seq<Vertex>, start: int, acc: OMap<int>): Result<OMap<int>>
    decreases |vs|
  {
    if vs == [] then Ok(acc)
    else if Position(g, vs[0]) == -1 then Err(InconsistentState)
    else LabelFrom(g, vs[1..], start, Put(acc, vs[0], LabelAt(g, start, vs[0])))
  }

  /** `label(startFrom)` */
  function LabelOf(g: State, start: int): Result<OMap<int>> {
    LabelFrom(g, g.vertices, start, Empty())
  }

  lemma {:induction false} LabelFromOk(g: State, vs: seq<Vertex>, start: int, acc: OMap<int>)
    ensures LabelFrom(g, vs, start, acc).Ok? <==> forall v :: v in vs ==> v in g.data.embedded
    ensures LabelFrom(g, vs, start, acc).Err? ==> LabelFrom(g, vs, start, acc).error == InconsistentState
    decreases |vs|
  {
    if vs != [] {
      assert forall v :: v in vs <==> v == vs[0] || v in vs[1..];
      if Position(g, vs[0]) != -1 {
        LabelFromOk(g, vs[1..], start, Put(acc, vs[0], LabelAt(g, start, vs[0])));
      }
    }
  }

  lemma {:induction false} LabelFromKeys(g: State, vs: seq<Vertex>, start: int, acc: OMap<int>)
    ensures LabelFrom(g, vs, start, acc).Ok? ==> LabelFrom(g, vs, start, acc).value.keys == Ensured(acc.keys, vs)
    decreases |vs|
  {
    if vs != [] && Position(g, vs[0]) != -1 {
      Keys(acc);
      LabelFromKeys(g, vs[1..], start, Put(acc, vs[0], LabelAt(g, start, vs[0])));
    }
  }

  lemma {:induction false} LabelFromAt(g: State, vs: seq<Vertex>, start: int, acc: OMap<int>)
    requires LabelFrom(g, vs, start, acc).Ok?
    requires forall v :: v in vs ==> v in g.data.embedded
    ensures forall v :: v in vs ==>
              v in LabelFrom(g, vs, start, acc).value.at && LabelFrom(g, vs, start, acc).value.at[v] == LabelAt(g, start, v)
    ensures forall v :: v in acc.at && v !in vs ==>
              v in LabelFrom(g, vs, start, acc).value.at && LabelFrom(g, vs, start, acc).value.at[v] == acc.at[v]
    decreases |vs|
  {
    if vs != [] {
      assert forall v :: v in vs <==> v == vs[0] || v in vs[1..];
      LabelFromAt(g, vs[1..], start, Put(acc, vs[0], LabelAt(g, start, vs[0])));
    }
  }

  /** `label(s)` throws exactly when some vertex in use is missing from
      `embedded`; otherwise its keys are the vertices and the label of `v`
      is `s + embedded.indexOf(v)`. */
  lemma LabelShape(g: State, start: int)
    ensures LabelOf(g, start).Ok? <==> forall v :: v in g.vertices ==> v in g.data.embedded
    ensures LabelOf(g, start).Err? ==> LabelOf(g, start).error == InconsistentState
    ensures LabelOf(g, start).Ok? ==> forall v :: v in LabelOf(g, start).value.at <==> v in g.vertices
    ensures LabelOf(g, start).Ok? ==> LabelOf(g, start).value.keys == Ensured([], g.vertices)
    ensures LabelOf(g, start).Ok? && Distinct(g.vertices) ==> LabelOf(g, start).value.keys == g.vertices
    ensures LabelOf(g, start).Ok? ==> forall v :: v in g.vertices ==>
              LabelOf(g, start).value.at[v] == start + Position(g, v)
  {
    LabelFromOk(g, g.vertices, start, Empty());
    LabelFromKeys(g, g.vertices, start, Empty());
    if LabelOf(g, start).Ok? {
      LabelFromAt(g, g.vertices, start, Empty());
    }
    EncodedKeys(LabelOf(g, start), g.vertices);
  }

  /** Starting from `s` shifts every label of `label()` by `s` and keeps the keys. */
  lemma LabelOffset(g: State, s: int)
    ensures LabelOf(g, s).Ok? <==> LabelOf(g, 0).Ok?
    ensures LabelOf(g, s).Ok? ==> LabelOf(g, s).value.keys == LabelOf(g, 0).value.keys
    ensures LabelOf(g, s).Ok? ==> forall v :: v in LabelOf(g, s).value.at ==>
              v in LabelOf(g, 0).value.at && LabelOf(g, s).value.at[v] == LabelOf(g, 0).value.at[v] + s
  {
    LabelShape(g, s);
    LabelShape(g, 0);
    if LabelOf(g, s).Ok? {
      forall v | v in LabelOf(g, s).value.at
        ensures v in LabelOf(g, 0).value.at && LabelOf(g, s).value.at[v] == LabelOf(g, 0).value.at[v] + s
      {
      }
    }
  }

  /** Different vertices get different labels, each at least `s`. */
  lemma LabelsDiffer(g: State, s: int, v: Vertex, w: Vertex)
    requires LabelOf(g, s).Ok?
    requires v in LabelOf(g, s).value.at && w in LabelOf(g, s).value.at && v != w
    ensures LabelOf(g, s).value.at[v] != LabelOf(g, s).value.at[w]
    ensures LabelOf(g, s).value.at[v] >= s
  {
    LabelShape(g, s);
    PositionsDiffer(g, v, w);
  }

  /** Neither encoding throws on the state of a graph that keeps its
      invariant: every vertex in use is embedded; and the keys are the
      vertices in order. */
  lemma EncodersTotal(d: GraphData, s: int)
    requires Inv(d)
    ensures OneHotOf(Snapshot(d)).Ok? && LabelOf(Snapshot(d), s).Ok?
    ensures OneHotOf(Snapshot(d)).value.keys == Snapshot(d).vertices
    ensures LabelOf(Snapshot(d), s).value.keys == Snapshot(d).vertices
  {
    VerticesEmbedded(d);
    VerticesOfMembers(d.vertex);
    OneHotShape(Snapshot(d));
    LabelShape(Snapshot(d), s);
  }

  // ---------------------------------------------------------- the loops

  /** One pass of the loop of `oneHot`, at position `j` of `vertices`. */
  lemma OneHotStep(g: State, j: nat, acc: OMap<seq<Cell>>)
    requires j < |g.vertices|
    ensures Position(g, g.vertices[j]) == -1 ==> OneHotFrom(g, g.vertices[j..], acc) == Err(InconsistentState)
    ensures Position(g, g.vertices[j]) != -1 ==>
              OneHotFrom(g, g.vertices[j..], acc)
              == OneHotFrom(g, g.vertices[j + 1..], Put(acc, g.vertices[j], HotRow(|g.vertices|, Position(g, g.vertices[j]))))
  {
    assert g.vertices[j..][1..] == g.vertices[j + 1..];
  }

  /** One pass of the loop of `label`, at position `j` of `vertices`. */
  lemma LabelStep(g: State, j: nat, start: int, acc: OMap<int>)
    requires j < |g.vertices|
    ensures Position(g, g.vertices[j]) == -1 ==> LabelFrom(g, g.vertices[j..], start, acc) == Err(InconsistentState)
    ensures Position(g, g.vertices[j]) != -1 ==>
              LabelFrom(g, g.vertices[j..], start, acc)
              == LabelFrom(g, g.vertices[j + 1..], start, Put(acc, g.vertices[j], LabelAt(g, start, g.vertices[j])))
  {
    assert g.vertices[j..][1..] == g.vertices[j + 1..];
  }

  /** The callback of `oneHot`. */
  method EncodeOneHot(g: State) returns (r: Result<OMap<seq<Cell>>>)
    ensures r == OneHotOf(g)
  {
    var encoding: OMap<seq<Cell>> := Empty();
    var len := |g.vertices|;
    var j := 0;
    while j < |g.vertices|
      invariant 0 <= j <= |g.vertices|
      invariant OneHotFrom(g, g.vertices[j..], encoding) == OneHotOf(g)
    {
      OneHotStep(g, j, encoding);
      var v := g.vertices[j];
      var i := IndexOf(g.data.embedded, v);
      if i == -1 {
        return Err(InconsistentState);
      }
      var cells := seq(len, _ => Num(0));
      cells := Assign(cells, i, Num(1));
      assert cells == HotRow(|g.vertices|, Position(g, v));
      encoding := Put(encoding, v, cells);
      j := j + 1;
    }
    r := Ok(encoding);
  }

  /** The callback of `label(startFrom)`. */
  method EncodeLabel(g: State, start: int) returns (r: Result<OMap<int>>)
    ensures r == LabelOf(g, start)
  {
    var encoding: OMap<int> := Empty();
    var j := 0;
    ghost var goal := LabelOf(g, start);
    while j < |g.vertices|
      invariant 0 <= j <= |g.vertices|
      invariant LabelFrom(g, g.vertices[j..], start, encoding) == goal
    {
      var v := g.vertices[j];
      var i := IndexOf(g.data.embedded, v);
      assert i == Position(g, v);
      LabelStep(g, j, start, encoding);
      if i == -1 {
        return Err(InconsistentState);
      }
      var code := start + i;
      assert code == LabelAt(g, start, v);
      encoding := Put(encoding, v, code);
      j := j + 1;
    }
    r := Ok(encoding);
  }

  class VertexEncoder {
    /** `_trafficGraph`: the state encoded. */
    const state: State
    /** `_cNumbers`: the zero vector, under `'zeroHot'`. */
    const cNumbers: Hashmap<string, seq<int>>
    /** `_cRecordNumber`: the labels, by starting value. */
    const cRecordNumber: Hashmap<int, OMap<int>>
    /** `_cRecordNumbers`: the one-hot rows, under `'oneHot'`. */
    const cRecordNumbers: Hashmap<string, OMap<seq<Cell>>>

    /** Every cached entry is the encoding it is filed under. An encoding
        that throws is never stored. */
    ghost predicate Valid()
      reads cNumbers, cRecordNumber, cRecordNumbers
    {
      && (forall k :: k in cNumbers.store ==> k == "zeroHot" && cNumbers.store[k] == ZeroHotOf(state))
      && (forall s :: s in cRecordNumber.store ==> LabelOf(state, s) == Ok(cRecordNumber.store[s]))
      && (forall k :: k in cRecordNumbers.store ==> k == "oneHot" && OneHotOf(state) == Ok(cRecordNumbers.store[k]))
    }

    /** `new VertexEncoder(state)` */
    constructor (st: State)
      ensures state == st && Valid()
      ensures fresh(cNumbers) && fresh(cRecordNumber) && fresh(cRecordNumbers)
    {
      state := st;
      cNumbers := new Hashmap();
      cRecordNumber := new Hashmap();
      cRecordNumbers := new Hashmap();
    }

    /** `zeroHot()`: a copy of the cached zero vector. */
    method ZeroHot() returns (r: seq<int>)
      requires Valid()
      modifies cNumbers
      ensures Valid()
      ensures r == ZeroHotOf(state)
    {
      var raw := cNumbers.Ensure("zeroHot", () => seq(|state.vertices|, _ => 0));
      r := Copy(raw);
    }

    /** `oneHot()`: a copy of the cached rows, or the error the callback throws. */
    method OneHot() returns (r: Result<OMap<seq<Cell>>>)
      requires Valid()
      modifies cRecordNumbers
      ensures Valid()
      ensures r == OneHotOf(state)
    {
      var present := cRecordNumbers.Has("oneHot");
      if present {
        var got := cRecordNumbers.Get("oneHot");
        r := Ok(got.value);
      } else {
        r := EncodeOneHot(state);
        if r.Ok? {
          var raw := cRecordNumbers.Set("oneHot", r.value);
        }
      }
    }

    /** `label(startFrom)`: a copy of the cached labels, or the error the
        callback throws. */
    method Label(start: int) returns (r: Result<OMap<int>>)
      requires Valid()
      modifies cRecordNumber
      ensures Valid()
      ensures r == LabelOf(state, start)
    {
      var present := cRecordNumber.Has(start);
      if present {
        var got := cRecordNumber.Get(start);
        r := Ok(got.value);
      } else {
        r := EncodeLabel(state, start);
        if r.Ok? {
          var raw := cRecordNumber.Set(start, r.value);
        }
      }
    }
  }
}
