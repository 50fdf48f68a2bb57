/** The connection matrix (`model/connections.rs`): one optional connection per
    ordered vertex pair, stored in a flat sequence addressed by `Layout.Global`. */
module Matrix {
  import opened Wrappers
  import opened Layout
  import opened Orientations

  datatype Connections = Connections(items: seq<Option<Connection>>, size: nat) {

    /** The length invariant: `size * size` slots, one per ordered pair. */
    predicate Valid() {
      |items| == Sq(size)
    }

    /** The slot of an in-range pair. */
    function Slot(s: nat, e: nat): Option<Connection>
      requires Valid() && s < size && e < size
    {
      GlobalInRange(s, e, size);
      items[Global(s, e)]
    }
  }

  /** One stored connection together with its pair, as `foreach` hands it out
      (also the shape of `ConnectionRepresentation` and of the serialised triples). */
  datatype Triple = Triple(start: nat, end: nat, conn: Connection)

  /** `Connections::new`: an empty matrix for `n` vertices. */
  function New(n: nat): (c: Connections)
    ensures c.Valid() && c.size == n
    ensures forall a: nat, b: nat | a < n && b < n :: c.Slot(a, b) == None
  {
    GlobalInRangeAll(n);
    Connections(seq(Sq(n), _ => None), n)
  }

  /** `Connections::entry` (and the lookup half of `entry_mut`): fails exactly
      when an id is out of range. */
  function Entry(c: Connections, s: nat, e: nat): (r: Result<Option<Connection>>)
    ensures c.Valid() ==> (r.Ok? <==> s < c.size && e < c.size)
    ensures c.Valid() && r.Ok? ==> r.value == c.Slot(s, e)
  {
    GlobalInRange(s, e, c.size);
    var g := Global(s, e);
    if g < |c.items| then Ok(c.items[g]) else Err
  }

  /** `Connections::get`: the connection of a pair, absent when out of range. */
  function Get(c: Connections, s: nat, e: nat): (r: Option<Connection>)
    ensures c.Valid() ==> r == if s < c.size && e < c.size then c.Slot(s, e) else None
  {
    match Entry(c, s, e)
    case Ok(x) => x
    case Err => None
  }

  lemma GlobalInjectiveAll()
    ensures forall a: nat, b: nat, x: nat, y: nat | Global(a, b) == Global(x, y) :: a == x && b == y
  {
    forall a: nat, b: nat, x: nat, y: nat | Global(a, b) == Global(x, y)
      ensures a == x && b == y
    {
      GlobalInjective(a, b, x, y);
    }
  }

  /** A write through `entry_mut(s, e)`: fails when out of range, otherwise
      replaces that one slot and leaves every other pair alone. */
  function SetEntry(c: Connections, s: nat, e: nat, x: Option<Connection>): (r: Result<Connections>)
    ensures c.Valid() ==> (r.Ok? <==> s < c.size && e < c.size)
    ensures r.Ok? ==> r.value.size == c.size && |r.value.items| == |c.items|
    ensures c.Valid() && r.Ok? ==> r.value.Valid()
    ensures c.Valid() && r.Ok? ==>
      forall a: nat, b: nat | a < c.size && b < c.size ::
        r.value.Slot(a, b) == if a == s && b == e then x else c.Slot(a, b)
  {
    GlobalInRangeAll(c.size);
    GlobalInjectiveAll();
    var g := Global(s, e);
    if g < |c.items| then Ok(Connections(c.items[g := x], c.size)) else Err
  }

  /** `Connections::resize`: grow with empty slots or truncate to `n * n` slots.
      Because layers are appended, every pair inside both sizes keeps its slot. */
  function Resize(c: Connections, n: nat): (r: Connections)
    ensures r.Valid() && r.size == n
    ensures forall k | 0 <= k < |r.items| :: r.items[k] == if k < |c.items| then c.items[k] else None
    ensures c.Valid() ==>
      forall a: nat, b: nat | a < n && b < n ::
        r.Slot(a, b) == if a < c.size && b < c.size then c.Slot(a, b) else None
  {
    var items := if Sq(n) <= |c.items| then c.items[..Sq(n)] else c.items + seq(Sq(n) - |c.items|, _ => None);
    GlobalInRangeAll(n);
    GlobalInRangeAll(c.size);
    Connections(items, n)
  }

  /** The sequence without position `i` (`Vec::remove`). */
  function RemoveAt<T>(s: seq<T>, i: nat): (r: seq<T>)
    requires i < |s|
    ensures |r| == |s| - 1
  {
    seq(|s| - 1, k requires 0 <= k < |s| - 1 => if k < i then s[k] else s[k + 1])
  }

  /** Positions before `i` stay, positions after it move down one. */
  lemma RemoveAtIndex<T>(s: seq<T>, i: nat, k: nat)
    requires i < |s| && k < |s| - 1
    ensures RemoveAt(s, i)[k] == if k < i then s[k] else s[k + 1]
  {
  }

  /** `remove_layer`: drain the `2 * layer + 1` slots of layer `layer`. */
  function RemoveLayer(items: seq<Option<Connection>>, layer: nat): (r: seq<Option<Connection>>)
    requires Sq(layer + 1) <= |items|
    ensures |r| + 2 * layer + 1 == |items|
    ensures r == items[..Sq(layer)] + items[Sq(layer + 1)..]
  {
    SqSucc(layer);
    var offset := Sq(layer);
    seq(|items| - (2 * layer + 1), k requires 0 <= k < |items| - (2 * layer + 1) =>
      if k < offset then items[k] else items[k + 2 * layer + 1])
  }

  /** The slots below the removed layer stay, the slots above it move down by its size. */
  lemma RemoveLayerIndex(items: seq<Option<Connection>>, layer: nat, k: nat)
    requires Sq(layer + 1) <= |items| && k + 2 * layer + 1 < |items|
    ensures RemoveLayer(items, layer)[k] == if k < Sq(layer) then items[k] else items[k + 2 * layer + 1]
  {
    SqSucc(layer);
  }

  /** `remove_col_from_layer`: remove in-layer index `col`, which is the slot of
      the pair `(layer, col)`. */
  function RemoveColFromLayer(items: seq<Option<Connection>>, col: nat, layer: nat): (r: seq<Option<Connection>>)
    requires Sq(layer) + col < |items|
    ensures col <= layer ==> r == RemoveAt(items, Global(layer, col))
  {
    RemoveAt(items, Sq(layer) + col)
  }

  /** `remove_row_from_layer`: remove in-layer index `2 * layer - row`, which is
      the slot of the pair `(row, layer)`. */
  function RemoveRowFromLayer(items: seq<Option<Connection>>, row: nat, layer: nat): (r: seq<Option<Connection>>)
    requires row <= 2 * layer && Sq(layer) + (2 * layer - row) < |items|
    ensures row < layer ==> r == RemoveAt(items, Global(row, layer))
  {
    RemoveAt(items, Sq(layer) + (2 * layer - row))
  }

  /** One pass of the loop of `shrink_by_vertex`: in layer `layer`, remove the
      row of `v` and then its column. */
  function StripOne(items: seq<Option<Connection>>, v: nat, layer: nat): (r: seq<Option<Connection>>)
    requires v < layer && Sq(layer) + 2 * layer < |items|
    ensures |r| + 2 == |items|
  {
    var afterRow := RemoveRowFromLayer(items, v, layer);
    RemoveColFromLayer(afterRow, v, layer)
  }

  /** The position before one pass that ends up at position `j` after it. */
  function StepSrc(j: nat, v: nat, layer: nat): nat {
    if j < Sq(layer) + v then j
    else if j + 1 < Sq(layer) + 2 * layer - v then j + 1
    else j + 2
  }

  lemma StripOneIndex(items: seq<Option<Connection>>, v: nat, layer: nat, j: nat)
    requires v < layer && Sq(layer) + 2 * layer < |items| && j + 2 < |items|
    ensures StepSrc(j, v, layer) < |items|
    ensures StripOne(items, v, layer)[j] == items[StepSrc(j, v, layer)]
  {
    var row := Sq(layer) + (2 * layer - v);
    var afterRow := RemoveAt(items, row);
    RemoveAtIndex(afterRow, Sq(layer) + v, j);
    if j < Sq(layer) + v {
      RemoveAtIndex(items, row, j);
    } else {
      RemoveAtIndex(items, row, j + 1);
    }
  }

  /** The loop of `shrink_by_vertex`: for layers `top - 1` down to `v + 1`, remove
      the row and then the column of `v`.  Working from the top keeps the offsets
      of the lower layers valid. */
  function StripLayers(items: seq<Option<Connection>>, v: nat, top: nat): (r: seq<Option<Connection>>)
    requires v < top && Sq(top) <= |items|
    ensures |r| + 2 * (top - v - 1) == |items|
    decreases top
  {
    if top == v + 1 then items
    else
      SqSucc(top - 1);
      StripLayers(StripOne(items, v, top - 1), v, top - 1)
  }

  /** The position before the loop that ends up at position `k` after it. */
  function Src(k: nat, v: nat, top: nat): nat
    requires v < top
    decreases top
  {
    if top == v + 1 then k else StepSrc(Src(k, v, top - 1), v, top - 1)
  }

  /** Each slot after the loop holds the slot it came from. */
  lemma {:induction false} StripIndex(items: seq<Option<Connection>>, v: nat, top: nat, k: nat)
    requires v < top && Sq(top) <= |items| && k < |StripLayers(items, v, top)|
    ensures Src(k, v, top) < |items|
    ensures StripLayers(items, v, top)[k] == items[Src(k, v, top)]
    decreases top
  {
    if top > v + 1 {
      SqSucc(top - 1);
      var after := StripOne(items, v, top - 1);
      StripIndex(after, v, top - 1, k);
      var j := Src(k, v, top - 1);
      StripOneIndex(items, v, top - 1, j);
    }
  }

  /** The loop leaves the layers up to `v` where they were. */
  lemma {:induction false} SrcBelow(k: nat, v: nat, top: nat)
    requires v < top && k < Sq(v + 1)
    ensures Src(k, v, top) == k
    decreases top
  {
    if top > v + 1 {
      SrcBelow(k, v, top - 1);
      SqMonotone(v + 1, top - 1);
    }
  }

  /** The loop moves everything above its top layer down by two per stripped layer. */
  lemma {:induction false} SrcHigh(k: nat, v: nat, top: nat)
    requires v < top && Sq(top) <= k + 2 * (top - v - 1)
    ensures Src(k, v, top) == k + 2 * (top - v - 1)
    decreases top
  {
    if top > v + 1 {
      SqSucc(top - 1);
      SrcHigh(k, v, top - 1);
    }
  }

  /** A pass leaves every position below the column it removes in place. */
  lemma StepSrcKeeps(j: nat, v: nat, layer: nat)
    requires j < Sq(layer) + v
    ensures StepSrc(j, v, layer) == j
  {
  }

  /** Inside its own layer, a pass maps position `i` to in-layer index `Lift(i)`. */
  lemma StepSrcLift(i: nat, v: nat, layer: nat)
    requires v < layer && i < 2 * layer - 1
    ensures StepSrc(Sq(layer) + i, v, layer) == Sq(layer) + Lift(i, v, layer)
  {
  }

  /** Where the loop's last pass is the one over layer `m + 1` itself. */
  lemma SrcInTopLayer(v: nat, m: nat, i: nat, k: nat)
    requires v <= m && i < 2 * m + 1 && k == Sq(m) + 2 * v + 1 + i
    ensures Src(k, v, m + 2) == Sq(m + 1) + Lift(i, v, m + 1)
  {
    SqSucc(m);
    SrcHigh(k, v, m + 1);
    StepSrcLift(i, v, m + 1);
  }

  /** Position `i` of stripped layer `m + 1`, which sits right after the `2 * v + 1`
      slots that the loop does not strip and the removed layer will take out, comes
      from in-layer index `Lift(i)` of that layer. */
  lemma {:induction false} SrcInLayer(v: nat, top: nat, m: nat, i: nat, k: nat)
    requires v <= m && m + 1 < top && i < 2 * m + 1 && k == Sq(m) + 2 * v + 1 + i
    ensures Src(k, v, top) == Sq(m + 1) + Lift(i, v, m + 1)
    decreases top
  {
    if top == m + 2 {
      SrcInTopLayer(v, m, i, k);
    } else {
      SrcInLayer(v, top - 1, m, i, k);
      SqSucc(m + 1);
      SqMonotone(m + 2, top - 1);
      StepSrcKeeps(Sq(m + 1) + Lift(i, v, m + 1), v, top - 1);
    }
  }

  /** Vertex id `x` after vertex `v` has been removed (ids above `v` move down). */
  function Down(x: nat, v: nat): nat
    requires x != v
  {
    if x < v then x else x - 1
  }

  /** The id a surviving vertex had before vertex `v` was removed: inverse of `Down`. */
  function Up(x: nat, v: nat): (y: nat)
    ensures y != v && Down(y, v) == x
  {
    if x < v then x else x + 1
  }

  /** `Connections::shrink_by_vertex`: remove the row and column of `v` and renumber. */
  function ShrinkByVertex(c: Connections, v: nat): (r: Result<Connections>)
    requires c.Valid()
    ensures r.Err? <==> v >= c.size
    ensures r.Ok? ==> r.value.Valid() && r.value.size + 1 == c.size
    ensures r.Ok? ==> |c.items| - |r.value.items| == 2 * c.size - 1
    ensures r.Ok? ==>
      forall a: nat, b: nat | a < r.value.size && b < r.value.size ::
        r.value.Slot(a, b) == c.Slot(Up(a, v), Up(b, v))
  {
    if v >= c.size then Err
    else
      ShrinkLength(c.items, v, c.size);
      var r := Connections(RemoveLayer(StripLayers(c.items, v, c.size), v), c.size - 1);
      assert forall a: nat, b: nat | a < r.size && b < r.size :: r.Slot(a, b) == c.Slot(Up(a, v), Up(b, v)) by {
        forall a: nat, b: nat | a < r.size && b < r.size
          ensures r.Slot(a, b) == c.Slot(Up(a, v), Up(b, v))
        {
          ShrinkSlot(c.items, v, c.size, a, b);
        }
      }
      Ok(r)
  }

  /** Position `i` of a stripped layer is position `Lift(i)` of the original layer. */
  function Lift(i: nat, v: nat, layer: nat): nat {
    if i < v then i else if i + 1 < 2 * layer - v then i + 1 else i + 2
  }

  lemma ShrinkLength(items: seq<Option<Connection>>, v: nat, n: nat)
    requires v < n && |items| == Sq(n)
    ensures Sq(v + 1) <= |StripLayers(items, v, n)|
    ensures |RemoveLayer(StripLayers(items, v, n), v)| == Sq(n - 1)
    ensures |items| - |RemoveLayer(StripLayers(items, v, n), v)| == 2 * n - 1
  {
    SqSucc(n - 1);
    SqGap(v + 1, n);
  }

  /** The in-layer arithmetic of the renumbering: new pair `(a, b)` in layer
      `Max(a, b) >= v` comes from old layer `Max(a, b) + 1`. */
  lemma LiftIsUp(a: nat, b: nat, v: nat)
    requires Max(a, b) >= v
    ensures Global(a, b) - Sq(Max(a, b)) < 2 * (Max(a, b) + 1) - 1
    ensures Sq(Max(a, b) + 1) + Lift(Global(a, b) - Sq(Max(a, b)), v, Max(a, b) + 1) == Global(Up(a, v), Up(b, v))
  {
    SqSucc(Max(a, b));
  }

  /** The slot of a renumbered pair after the shrink holds the original pair's connection. */
  lemma ShrinkSlot(items: seq<Option<Connection>>, v: nat, n: nat, a: nat, b: nat)
    requires v < n && |items| == Sq(n) && a < n - 1 && b < n - 1
    ensures Sq(v + 1) <= |StripLayers(items, v, n)|
    ensures Global(a, b) < |RemoveLayer(StripLayers(items, v, n), v)|
    ensures Global(Up(a, v), Up(b, v)) < |items|
    ensures RemoveLayer(StripLayers(items, v, n), v)[Global(a, b)] == items[Global(Up(a, v), Up(b, v))]
  {
    if Max(a, b) < v {
      ShrinkSlotBelow(items, v, n, a, b);
    } else {
      ShrinkSlotAbove(items, v, n, a, b);
    }
  }

  /** Pairs in layers below `v` keep their slot and their ids. */
  lemma ShrinkSlotBelow(items: seq<Option<Connection>>, v: nat, n: nat, a: nat, b: nat)
    requires v < n && |items| == Sq(n) && Max(a, b) < v
    ensures Sq(v + 1) <= |StripLayers(items, v, n)|
    ensures Global(a, b) < |RemoveLayer(StripLayers(items, v, n), v)|
    ensures Up(a, v) == a && Up(b, v) == b && Global(a, b) < |items|
    ensures RemoveLayer(StripLayers(items, v, n), v)[Global(a, b)] == items[Global(a, b)]
  {
    ShrinkLength(items, v, n);
    var p := Global(a, b);
    SqMonotone(Max(a, b) + 1, v);
    SqMonotone(v, n - 1);
    SqMonotone(v, v + 1);
    RemoveLayerIndex(StripLayers(items, v, n), v, p);
    StripIndex(items, v, n, p);
    SrcBelow(p, v, n);
  }

  /** Pairs in layers from `v` up come from the stripped layers, one layer higher. */
  lemma ShrinkSlotAbove(items: seq<Option<Connection>>, v: nat, n: nat, a: nat, b: nat)
    requires v < n && |items| == Sq(n) && a < n - 1 && b < n - 1 && Max(a, b) >= v
    ensures Sq(v + 1) <= |StripLayers(items, v, n)|
    ensures Global(a, b) < |RemoveLayer(StripLayers(items, v, n), v)|
    ensures Global(Up(a, v), Up(b, v)) < |items|
    ensures RemoveLayer(StripLayers(items, v, n), v)[Global(a, b)] == items[Global(Up(a, v), Up(b, v))]
  {
    ShrinkLength(items, v, n);
    var p := Global(a, b);
    var _ := StripSourceAbove(items, v, n, a, b);
    RemoveLayerIndex(StripLayers(items, v, n), v, p);
  }

  /** After the loop, the slot past the removed layer that the new pair `(a, b)`
      will occupy holds the old pair's connection. */
  lemma StripSourceAbove(items: seq<Option<Connection>>, v: nat, n: nat, a: nat, b: nat) returns (j: nat)
    requires v < n && |items| == Sq(n) && a < n - 1 && b < n - 1 && Max(a, b) >= v
    ensures j == Global(Up(a, v), Up(b, v)) && j < |items|
    ensures Sq(v) <= Global(a, b) && Global(a, b) + 2 * v + 1 < |StripLayers(items, v, n)|
    ensures StripLayers(items, v, n)[Global(a, b) + 2 * v + 1] == items[j]
  {
    ShrinkLength(items, v, n);
    var k := Global(a, b) + 2 * v + 1;
    SrcAbove(a, b, v, n);
    LiftIsUp(a, b, v);
    StripIndex(items, v, n, k);
    j := Src(k, v, n);
  }

  lemma GlobalAbove(a: nat, b: nat, v: nat, n: nat)
    requires v < n && a < n - 1 && b < n - 1 && Max(a, b) >= v
    ensures Sq(v) <= Sq(Max(a, b)) <= Global(a, b) < Sq(n - 1)
    ensures Global(a, b) - Sq(Max(a, b)) < 2 * Max(a, b) + 1
  {
    GlobalInRange(a, b, n - 1);
    SqMonotone(v, Max(a, b));
    SqSucc(Max(a, b));
  }

  /** The arithmetic of the renumbering above `v`: the new slot of `(a, b)`, past
      the removed layer, is traced back by the loop to the old slot of the pair. */
  lemma SrcAbove(a: nat, b: nat, v: nat, n: nat)
    requires v < n && a < n - 1 && b < n - 1 && Max(a, b) >= v
    ensures Sq(v) <= Global(a, b) < Sq(n - 1)
    ensures Global(a, b) - Sq(Max(a, b)) < 2 * (Max(a, b) + 1) - 1
    ensures Src(Global(a, b) + 2 * v + 1, v, n) == Sq(Max(a, b) + 1) + Lift(Global(a, b) - Sq(Max(a, b)), v, Max(a, b) + 1)
  {
    GlobalAbove(a, b, v, n);
    SrcInLayer(v, n, Max(a, b), Global(a, b) - Sq(Max(a, b)), Global(a, b) + 2 * v + 1);
  }

  /** Removing vertex `v` keeps every pair that avoids `v`, under the renumbering `Down`. */
  lemma ShrinkKeepsSurvivors(c: Connections, v: nat, a: nat, b: nat)
    requires c.Valid() && v < c.size && a < c.size && b < c.size && a != v && b != v
    ensures ShrinkByVertex(c, v).Ok?
    ensures Down(a, v) < ShrinkByVertex(c, v).value.size && Down(b, v) < ShrinkByVertex(c, v).value.size
    ensures ShrinkByVertex(c, v).value.Slot(Down(a, v), Down(b, v)) == c.Slot(a, b)
  {
    var r := ShrinkByVertex(c, v).value;
    assert Up(Down(a, v), v) == a && Up(Down(b, v), v) == b;
  }

  /** A valid matrix is determined by its size and the contents of its slots. */
  lemma SlotsDetermine(c: Connections, d: Connections)
    requires c.Valid() && d.Valid() && c.size == d.size
    requires forall a: nat, b: nat | a < c.size && b < c.size :: c.Slot(a, b) == d.Slot(a, b)
    ensures c == d
  {
    GlobalBijection(c.size);
    forall k | 0 <= k < |c.items|
      ensures c.items[k] == d.items[k]
    {
      var p := Decode(k);
      assert c.Slot(p.0, p.1) == d.Slot(p.0, p.1);
    }
  }

  /** Growing a matrix and cutting it back to its size gives it back unchanged. */
  lemma ResizeGrowShrink(c: Connections, n: nat)
    requires c.Valid() && c.size <= n
    ensures Resize(Resize(c, n), c.size) == c
  {
    var r := Resize(Resize(c, n), c.size);
    forall a: nat, b: nat | a < c.size && b < c.size
      ensures r.Slot(a, b) == c.Slot(a, b)
    {
      assert Resize(c, n).Slot(a, b) == c.Slot(a, b);
    }
    SlotsDetermine(r, c);
  }

  // ---------------------------------------------------------------------
  // Iteration

  /** The triple listed for slot `k`, if the slot holds a connection. */
  function TripleAt(items: seq<Option<Connection>>, k: nat): seq<Triple>
    requires k < |items|
  {
    match items[k]
    case Some(x) => [Triple(Decode(k).0, Decode(k).1, x)]
    case None => []
  }

  /** The stored connections from slot `k` on, in slot order, with their pairs. */
  function TriplesFrom(items: seq<Option<Connection>>, k: nat): seq<Triple>
    decreases |items| - k
  {
    if k >= |items| then [] else TripleAt(items, k) + TriplesFrom(items, k + 1)
  }

  /** Every listed triple sits in its own slot at or after `k`, and the slots strictly increase. */
  lemma {:induction false} TriplesFromSound(items: seq<Option<Connection>>, k: nat)
    ensures forall i | 0 <= i < |TriplesFrom(items, k)| ::
      var t := TriplesFrom(items, k)[i];
      k <= Global(t.start, t.end) < |items| && items[Global(t.start, t.end)] == Some(t.conn)
    ensures forall i, j | 0 <= i < j < |TriplesFrom(items, k)| ::
      Global(TriplesFrom(items, k)[i].start, TriplesFrom(items, k)[i].end)
        < Global(TriplesFrom(items, k)[j].start, TriplesFrom(items, k)[j].end)
    decreases |items| - k
  {
    if k < |items| {
      TriplesFromSound(items, k + 1);
    }
  }

  lemma Assoc<T>(a: seq<T>, b: seq<T>, c: seq<T>)
    ensures (a + b) + c == a + (b + c)
  {
  }

  /** The stored connections before slot `k`, built up the way `foreach` visits them. */
  function TriplesBefore(items: seq<Option<Connection>>, k: nat): seq<Triple>
    requires k <= |items|
  {
    if k == 0 then [] else TriplesBefore(items, k - 1) + TripleAt(items, k - 1)
  }

  /** The slots before `k` and the slots from `k` on together list every stored connection. */
  lemma {:induction false} TriplesBeforeAll(items: seq<Option<Connection>>, k: nat)
    requires k <= |items|
    ensures TriplesBefore(items, k) + TriplesFrom(items, k) == TriplesFrom(items, 0)
  {
    if k > 0 {
      TriplesBeforeAll(items, k - 1);
      Assoc(TriplesBefore(items, k - 1), TripleAt(items, k - 1), TriplesFrom(items, k));
    }
  }

  /** Advancing the iterator's counters by one slot keeps them consistent. */
  lemma CounterStep(k: nat, layer: nat, index: nat)
    requires Sq(layer) + index == k && index <= 2 * layer
    ensures index + 1 >= 2 * layer + 1 ==> Sq(layer + 1) == k + 1
    ensures index + 1 < 2 * layer + 1 ==> Sq(layer) + index + 1 == k + 1 && index + 1 <= 2 * layer
  {
    SqSucc(layer);
  }

  /** What `foreach` and the iterator (without its empty slots) list. */
  function Triples(c: Connections): (r: seq<Triple>)
    ensures c.Valid() ==> forall i | 0 <= i < |r| ::
      r[i].start < c.size && r[i].end < c.size && c.Slot(r[i].start, r[i].end) == Some(r[i].conn)
  {
    GlobalInRangeAll(c.size);
    TriplesFromSound(c.items, 0);
    TriplesFrom(c.items, 0)
  }

  /** The pair `foreach` computes from its counters is the pair of slot `k`, so
      visiting slot `k` extends the list by that slot's triple. */
  lemma VisitStep(items: seq<Option<Connection>>, k: nat, layer: nat, index: nat, start: nat, end: nat)
    requires k < |items| && Sq(layer) + index == k && index <= 2 * layer
    requires start == (if index <= layer then layer else 2 * layer + 1 - index - 1)
    requires end == (if index <= layer then index else layer)
    ensures TriplesBefore(items, k + 1)
      == TriplesBefore(items, k) + (if items[k].Some? then [Triple(start, end, items[k].value)] else [])
  {
    DecodeAt(k, layer, index);
  }

  /** `Connections::foreach`: walks the slots, tracking layer and in-layer index
      as the source does, and hands every stored connection to the action; the
      action is modelled by collecting what it receives. */
  method Foreach(c: Connections) returns (visited: seq<Triple>)
    ensures visited == Triples(c)
  {
    var layer: nat := 0;
    var index: nat := 0;
    var k := 0;
    visited := [];
    while k < |c.items|
      invariant k <= |c.items|
      invariant Sq(layer) + index == k && index <= 2 * layer
      invariant visited == TriplesBefore(c.items, k)
      decreases |c.items| - k
    {
      var layerSize := 2 * layer + 1;
      var start, end := if index <= layer then layer else layerSize - index - 1, if index <= layer then index else layer;
      VisitStep(c.items, k, layer, index, start, end);
      CounterStep(k, layer, index);
      index := index + 1;
      if index >= layerSize {
        layer := layer + 1;
        index := 0;
      }
      if c.items[k].Some? {
        visited := visited + [Triple(start, end, c.items[k].value)];
      }
      k := k + 1;
    }
    TriplesBeforeAll(c.items, |c.items|);
  }

  /** The private state of `FastConnectionsIterator`. */
  datatype Cursor = Cursor(current: nat, layer: nat, index: nat) {
    /** The counters agree: `current` is in-layer index `index` of layer `layer`. */
    predicate Consistent() {
      Sq(layer) + index == current && index <= 2 * layer
    }
  }

  /** `FastConnectionsIterator::new`. */
  function Start(): (cur: Cursor)
    ensures cur.Consistent() && cur.current == 0
  {
    Cursor(0, 0, 0)
  }

  /** One item of the iterator: the pair of a slot, the slot, and the advanced cursor. */
  datatype Step = Step(start: nat, end: nat, slot: Option<Connection>, next: Cursor)

  /** `FastConnectionsIterator::next`.  The in-layer index never passes the
      layer's last index, since only this function advances it. */
  function Next(c: Connections, cur: Cursor): (r: Option<Step>)
    requires cur.index <= 2 * cur.layer
    ensures r.None? <==> cur.current >= |c.items|
    ensures r.Some? ==>
      r.value.slot == c.items[cur.current] && r.value.next.current == cur.current + 1
      && r.value.next.index <= 2 * r.value.next.layer
    ensures r.Some? && cur.Consistent() ==>
      r.value.next.Consistent() && (r.value.start, r.value.end) == Decode(cur.current)
  {
    if cur.current >= |c.items| then None
    else
      var layerSize := 2 * cur.layer + 1;
      var pair := if cur.index <= cur.layer then (cur.layer, cur.index) else (layerSize - cur.index - 1, cur.layer);
      var next := if cur.index + 1 >= layerSize then Cursor(cur.current + 1, cur.layer + 1, 0)
                  else Cursor(cur.current + 1, cur.layer, cur.index + 1);
      SqSucc(cur.layer);
      if cur.Consistent() then DecodeAt(cur.current, cur.layer, cur.index); Some(Step(pair.0, pair.1, c.items[cur.current], next))
      else Some(Step(pair.0, pair.1, c.items[cur.current], next))
  }

  /** Every connection the iterator yields from `cur` on, with empty slots dropped,
      as `Connections::to_string` consumes it. */
  function Walk(c: Connections, cur: Cursor): seq<Triple>
    requires cur.index <= 2 * cur.layer
    decreases |c.items| - cur.current
  {
    match Next(c, cur)
    case None => []
    case Some(step) =>
      (if step.slot.Some? then [Triple(step.start, step.end, step.slot.value)] else []) + Walk(c, step.next)
  }

  /** From a consistent cursor the iterator lists exactly the stored connections from its position on. */
  lemma {:induction false} WalkFrom(c: Connections, cur: Cursor)
    requires cur.Consistent()
    ensures Walk(c, cur) == TriplesFrom(c.items, cur.current)
    decreases |c.items| - cur.current
  {
    match Next(c, cur)
    case None =>
    case Some(step) =>
      WalkFrom(c, step.next);
  }

  /** The iterator started fresh lists exactly what `foreach` lists. */
  lemma IteratorListsTriples(c: Connections)
    ensures Walk(c, Start()) == Triples(c)
  {
    WalkFrom(c, Start());
  }

  // ---------------------------------------------------------------------
  // Building a matrix from triples (the loop of `Connections::from_str`)

  /** The connection of the last triple for pair `(a, b)`, if there is one. */
  function Last(ts: seq<Triple>, a: nat, b: nat): (r: Option<Connection>)
    ensures r.Some? ==> Triple(a, b, r.value) in ts
    ensures r.None? ==> forall i | 0 <= i < |ts| :: ts[i].start != a || ts[i].end != b
  {
    if ts == [] then None
    else if ts[|ts| - 1].start == a && ts[|ts| - 1].end == b then Some(ts[|ts| - 1].conn)
    else Last(ts[..|ts| - 1], a, b)
  }

  /** Later triples win. */
  lemma {:induction false} LastAppend(p: seq<Triple>, q: seq<Triple>, a: nat, b: nat)
    ensures Last(p + q, a, b) == if Last(q, a, b).Some? then Last(q, a, b) else Last(p, a, b)
    decreases |q|
  {
    if q != [] {
      assert (p + q)[..|p + q| - 1] == p + q[..|q| - 1];
      LastAppend(p, q[..|q| - 1], a, b);
    } else {
      assert p + q == p;
    }
  }

  /** One iteration of the loop: store the triple when its pair is in range. */
  function Put(c: Connections, t: Triple): (r: Connections)
    requires c.Valid()
    ensures r.Valid() && r.size == c.size
    ensures forall a: nat, b: nat | a < c.size && b < c.size ::
      r.Slot(a, b) == if a == t.start && b == t.end then Some(t.conn) else c.Slot(a, b)
  {
    match SetEntry(c, t.start, t.end, Some(t.conn))
    case Ok(d) => d
    case Err => c
  }

  /** The whole loop: store the triples in order; out-of-range triples are skipped. */
  function Apply(c: Connections, ts: seq<Triple>): (r: Connections)
    requires c.Valid()
    ensures r.Valid() && r.size == c.size
    ensures forall a: nat, b: nat | a < c.size && b < c.size ::
      r.Slot(a, b) == if Last(ts, a, b).Some? then Last(ts, a, b) else c.Slot(a, b)
    decreases |ts|
  {
    if ts == [] then c else Put(Apply(c, ts[..|ts| - 1]), ts[|ts| - 1])
  }

  /** Growing a matrix and then storing triples that reach only pairs with both
      ends past the old size: old pairs keep their slots, the new pairs hold
      what the triples stored, and mixed pairs stay empty. */
  lemma ApplyAfterResize(c: Connections, n: nat, ts: seq<Triple>, a: nat, b: nat, want: Option<Connection>)
    requires c.Valid() && c.size <= n && a < n && b < n
    requires Last(ts, a, b) == if c.size <= a && c.size <= b then want else None
    ensures Apply(Resize(c, n), ts).Slot(a, b) ==
      if a < c.size && b < c.size then c.Slot(a, b) else if c.size <= a && c.size <= b then want else None
  {
  }

  /** An empty matrix for `n` vertices filled with the triples. */
  function Build(n: nat, ts: seq<Triple>): (r: Connections)
    ensures r.Valid() && r.size == n
    ensures forall a: nat, b: nat | a < n && b < n :: r.Slot(a, b) == Last(ts, a, b)
  {
    Apply(New(n), ts)
  }

  /** The listing from slot `k` on holds, for each pair, exactly the connection of its slot. */
  lemma {:induction false} LastTriplesFrom(items: seq<Option<Connection>>, k: nat, a: nat, b: nat)
    ensures Last(TriplesFrom(items, k), a, b) == if k <= Global(a, b) < |items| then items[Global(a, b)] else None
    decreases |items| - k
  {
    if k < |items| {
      LastTriplesFrom(items, k + 1, a, b);
      LastAppend(TripleAt(items, k), TriplesFrom(items, k + 1), a, b);
      DecodeGlobal(a, b);
    }
  }

  /** Every stored connection is listed, with its pair. */
  lemma TriplesComplete(c: Connections, a: nat, b: nat)
    requires c.Valid() && a < c.size && b < c.size && c.Slot(a, b).Some?
    ensures Triple(a, b, c.Slot(a, b).value) in Triples(c)
  {
    LastTriplesFrom(c.items, 0, a, b);
    GlobalInRange(a, b, c.size);
    assert Last(Triples(c), a, b) == c.Slot(a, b);
  }

  /** Storing the listed triples into an empty matrix of the same size rebuilds the matrix. */
  lemma BuildTriples(c: Connections)
    requires c.Valid()
    ensures Build(c.size, Triples(c)) == c
  {
    var r := Build(c.size, Triples(c));
    forall a: nat, b: nat | a < c.size && b < c.size
      ensures r.Slot(a, b) == c.Slot(a, b)
    {
      LastTriplesFrom(c.items, 0, a, b);
      GlobalInRange(a, b, c.size);
    }
    SlotsDetermine(r, c);
  }

  /** Building at a smaller size that already fits every triple, then growing, is building at the larger size. */
  lemma ResizeBuild(m: nat, n: nat, ts: seq<Triple>)
    requires m <= n
    requires forall i | 0 <= i < |ts| :: ts[i].start < m && ts[i].end < m
    ensures Resize(Build(m, ts), n) == Build(n, ts)
  {
    var r := Resize(Build(m, ts), n);
    forall a: nat, b: nat | a < n && b < n
      ensures r.Slot(a, b) == Build(n, ts).Slot(a, b)
    {
    }
    SlotsDetermine(r, Build(n, ts));
  }
}
