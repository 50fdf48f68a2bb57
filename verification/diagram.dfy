/** The diagram (`model/data.rs`): the vertex list, the connection matrix over
    those vertices, and the size-class table.  Every edit keeps the matrix sized
    to the vertex list. */
module Diagram {
  import opened Wrappers
  import opened Layout
  import opened Orientations
  import opened Matrix
  import opened SizeClasses
  import VertexList
  import MatrixText

  /** `common::Vector`. */
  datatype Vector = Vector(x: real, y: real)

  /** `model::Vertex`: a position and an optional label (`caption` here, since `label` is a Dafny keyword). */
  datatype Vertex = Vertex(position: Vector, caption: Option<string>)

  /** `Vertex::new`: an unlabelled vertex. */
  function NewVertex(p: Vector): Vertex {
    Vertex(p, None)
  }

  datatype Data = Data(vertices: seq<Vertex>, connections: Connections, classes: Classes) {
    /** The matrix has one slot per ordered pair of vertices, and no more. */
    predicate Inv() {
      connections.Valid() && connections.size == |vertices|
    }
  }

  /** Only the slot of `(s, e)` differs between the two matrices, and it holds `x`. */
  predicate OnlySlotChanged(c: Connections, r: Connections, s: nat, e: nat, x: Option<Connection>)
    requires c.Valid() && r.Valid() && c.size == r.size
  {
    forall a: nat, b: nat | a < c.size && b < c.size ::
      r.Slot(a, b) == if a == s && b == e then x else c.Slot(a, b)
  }

  /** `Data::add_vertex`: append the vertex and grow the matrix by one empty row
      and column; the new vertex's id is returned. */
  function AddVertex(d: Data, v: Vertex): (r: (Data, nat))
    ensures r.0.Inv() && r.0.classes == d.classes
    ensures r.0.vertices == d.vertices + [v] && r.1 == |d.vertices|
    ensures d.Inv() ==> forall a: nat, b: nat | a < |r.0.vertices| && b < |r.0.vertices| ::
      r.0.connections.Slot(a, b) == if a < |d.vertices| && b < |d.vertices| then d.connections.Slot(a, b) else None
  {
    var vs := VertexList.Add(d.vertices, v).0;
    (Data(vs, Resize(d.connections, VertexList.Len(vs)), d.classes), VertexList.Len(vs) - 1)
  }

  /** `Data::add_connection`: store a connection for `(s, e)`; fails, changing
      nothing, when either id is not a vertex. */
  function AddConnection(d: Data, s: nat, e: nat, o: ConnectionOrientation, z: nat): (r: Result<Data>)
    requires d.Inv()
    ensures r.Err? <==> s >= |d.vertices| || e >= |d.vertices|
    ensures r.Ok? ==> r.value.Inv() && r.value.vertices == d.vertices && r.value.classes == d.classes
    ensures r.Ok? ==> OnlySlotChanged(d.connections, r.value.connections, s, e, Some(Connection(o, z)))
  {
    match SetEntry(d.connections, s, e, Some(Connection(o, z)))
    case Ok(c) => Ok(d.(connections := c))
    case Err => Err
  }

  /** `Data::remove_connection`: empty the slot of `(s, e)`; fails, changing
      nothing, when either id is not a vertex. */
  function RemoveConnection(d: Data, s: nat, e: nat): (r: Result<Data>)
    requires d.Inv()
    ensures r.Err? <==> s >= |d.vertices| || e >= |d.vertices|
    ensures r.Ok? ==> r.value.Inv() && r.value.vertices == d.vertices && r.value.classes == d.classes
    ensures r.Ok? ==> OnlySlotChanged(d.connections, r.value.connections, s, e, None)
  {
    match SetEntry(d.connections, s, e, None)
    case Ok(c) => Ok(d.(connections := c))
    case Err => Err
  }

  /** `Data::remove_vertex`: drop the vertex's row and column from the matrix,
      then the vertex from the list; the ids above it move down by one. */
  function RemoveVertex(d: Data, id: nat): (r: Result<Data>)
    requires d.Inv()
    ensures r.Err? <==> id >= |d.vertices|
    ensures r.Ok? ==> r.value.Inv() && r.value.classes == d.classes
    ensures r.Ok? ==> r.value.vertices == VertexList.Remove(d.vertices, id).0
    ensures r.Ok? ==> forall a: nat, b: nat | a < |r.value.vertices| && b < |r.value.vertices| ::
      r.value.connections.Slot(a, b) == d.connections.Slot(Up(a, id), Up(b, id))
  {
    match ShrinkByVertex(d.connections, id)
    case Err => Err
    case Ok(c) => Ok(Data(VertexList.Remove(d.vertices, id).0, c, d.classes))
  }

  /** Removing the vertex just added gives the diagram back. */
  lemma RemoveAddedVertex(d: Data, v: Vertex)
    requires d.Inv()
    ensures RemoveVertex(AddVertex(d, v).0, |d.vertices|) == Ok(d)
  {
    var (grown, id) := AddVertex(d, v);
    var r := RemoveVertex(grown, id);
    VertexList.RemoveAdded(d.vertices, v);
    forall a: nat, b: nat | a < |d.vertices| && b < |d.vertices|
      ensures r.value.connections.Slot(a, b) == d.connections.Slot(a, b)
    {
      assert Up(a, id) == a && Up(b, id) == b;
    }
    SlotsDetermine(r.value.connections, d.connections);
  }

  /** Adding and then removing a connection is removing it; a slot that was
      empty comes back unchanged. */
  lemma RemoveAddedConnection(d: Data, s: nat, e: nat, o: ConnectionOrientation, z: nat)
    requires d.Inv() && s < |d.vertices| && e < |d.vertices|
    ensures RemoveConnection(AddConnection(d, s, e, o, z).value, s, e) == RemoveConnection(d, s, e)
    ensures d.connections.Slot(s, e).None? ==> RemoveConnection(d, s, e) == Ok(d)
  {
    var r1 := RemoveConnection(AddConnection(d, s, e, o, z).value, s, e).value;
    var r2 := RemoveConnection(d, s, e).value;
    SlotsDetermine(r1.connections, r2.connections);
    if d.connections.Slot(s, e).None? {
      SlotsDetermine(r2.connections, d.connections);
    }
  }

  // ---------------------------------------------------------------------
  // Duplicating a subgraph

  /** The ids of `vs` that name one of `n` vertices, in order; the others are skipped. */
  function ExistingIds(vs: seq<nat>, n: nat): (r: seq<nat>)
    ensures |r| <= |vs| && forall i | 0 <= i < |r| :: r[i] < n
  {
    if vs == [] then [] else (if vs[0] < n then [vs[0]] else []) + ExistingIds(vs[1..], n)
  }

  /** The kept ids are exactly the listed ids that name a vertex. */
  lemma {:induction false} ExistingIdsMembers(vs: seq<nat>, n: nat)
    ensures forall x :: x in ExistingIds(vs, n) <==> x in vs && x < n
  {
    if vs != [] {
      ExistingIdsMembers(vs[1..], n);
      assert forall x :: x in vs <==> x == vs[0] || x in vs[1..];
    }
  }

  /** The slot `(a, b)` after duplicating the vertices `ids` of `d`: old pairs keep
      their connections, a pair of two clones has the connection of the originals,
      and a pair of an old vertex and a clone is empty. */
  function DuplicatedSlot(d: Data, ids: seq<nat>, a: nat, b: nat): Option<Connection>
    requires d.Inv() && forall i | 0 <= i < |ids| :: ids[i] < |d.vertices|
    requires a < |d.vertices| + |ids| && b < |d.vertices| + |ids|
  {
    var n := |d.vertices|;
    if a < n && b < n then d.connections.Slot(a, b)
    else if a >= n && b >= n then d.connections.Slot(ids[a - n], ids[b - n])
    else None
  }

  /** Row `i`, column `j` of `t` holds the connection from `ids[i]` to `ids[j]`. */
  predicate IsTable(d: Data, ids: seq<nat>, t: seq<seq<Option<Connection>>>)
    requires d.Inv() && forall i | 0 <= i < |ids| :: ids[i] < |d.vertices|
  {
    |t| == |ids| && (forall i | 0 <= i < |ids| :: |t[i]| == |ids|) &&
    forall i, j | 0 <= i < |ids| && 0 <= j < |ids| :: t[i][j] == d.connections.Slot(ids[i], ids[j])
  }

  /** The connections between the vertices `ids`, read from `d`. */
  function Table(d: Data, ids: seq<nat>): (t: seq<seq<Option<Connection>>>)
    requires d.Inv() && forall i | 0 <= i < |ids| :: ids[i] < |d.vertices|
    ensures IsTable(d, ids, t)
  {
    seq(|ids|, i requires 0 <= i < |ids| =>
      seq(|ids|, j requires 0 <= j < |ids| => d.connections.Slot(ids[i], ids[j])))
  }

  /** The copy the loop makes for row `p`, column `q` of the table `t`, onto the
      clones numbered from `first`: the connection, if there is one. */
  function CopyAt(first: nat, t: seq<seq<Option<Connection>>>, p: nat, q: nat): seq<Triple>
    requires p < |t| && q < |t[p]|
  {
    if t[p][q].Some? then [Triple(first + p, first + q, t[p][q].value)] else []
  }

  /** The copies of row `p` made for its first `q` columns, in order. */
  function RowCopies(first: nat, t: seq<seq<Option<Connection>>>, p: nat, q: nat): seq<Triple>
    requires p < |t| && q <= |t[p]|
  {
    if q == 0 then [] else RowCopies(first, t, p, q - 1) + CopyAt(first, t, p, q - 1)
  }

  /** The copies of the first `p` rows, in the loop's order. */
  function AllCopies(first: nat, t: seq<seq<Option<Connection>>>, p: nat): seq<Triple>
    requires p <= |t|
  {
    if p == 0 then [] else AllCopies(first, t, p - 1) + RowCopies(first, t, p - 1, |t[p - 1]|)
  }

  /** A copy the loop can make: a table entry moved onto the clones. */
  predicate IsCopy(first: nat, t: seq<seq<Option<Connection>>>, x: Triple) {
    first <= x.start < first + |t| && first <= x.end && x.end - first < |t[x.start - first]| &&
    t[x.start - first][x.end - first] == Some(x.conn)
  }

  lemma InCopyAt(first: nat, t: seq<seq<Option<Connection>>>, p: nat, q: nat)
    requires p < |t| && q < |t[p]|
    ensures forall x :: x in CopyAt(first, t, p, q) <==> IsCopy(first, t, x) && x.start == first + p && x.end == first + q
  {
  }

  /** Row `p`'s first `q` copies are exactly the copies onto those pairs. */
  lemma {:induction false} InRowCopies(first: nat, t: seq<seq<Option<Connection>>>, p: nat, q: nat)
    requires p < |t| && q <= |t[p]|
    ensures forall x :: x in RowCopies(first, t, p, q) <==> IsCopy(first, t, x) && x.start == first + p && x.end < first + q
  {
    if q > 0 {
      InRowCopies(first, t, p, q - 1);
      InCopyAt(first, t, p, q - 1);
    }
  }

  /** The copies of the first `p` rows are exactly the copies onto those rows. */
  lemma {:induction false} InAllCopies(first: nat, t: seq<seq<Option<Connection>>>, p: nat)
    requires p <= |t|
    ensures forall x :: x in AllCopies(first, t, p) <==> IsCopy(first, t, x) && x.start < first + p
  {
    if p > 0 {
      InAllCopies(first, t, p - 1);
      InRowCopies(first, t, p - 1, |t[p - 1]|);
    }
  }

  /** For a list holding exactly the copies, the last one onto a pair of clones
      is the table's entry, and nothing lands elsewhere. */
  lemma LastOfCopies(first: nat, t: seq<seq<Option<Connection>>>, all: seq<Triple>, a: nat, b: nat)
    requires forall i | 0 <= i < |t| :: |t[i]| == |t|
    requires forall x :: x in all <==> IsCopy(first, t, x) && x.start < first + |t|
    ensures Last(all, a, b) ==
      if first <= a < first + |t| && first <= b < first + |t| then t[a - first][b - first] else None
  {
    var r := Last(all, a, b);
    if r.Some? {
      assert IsCopy(first, t, Triple(a, b, r.value));
    } else if first <= a < first + |t| && first <= b < first + |t| {
      var x := t[a - first][b - first];
      if x.Some? {
        assert IsCopy(first, t, Triple(a, b, x.value));
      }
    }
  }

  /** The matrix after applying a list holding exactly the copies of the
      originals' connections, slot by slot. */
  lemma SlotsAfterCopies(d: Data, ids: seq<nat>, t: seq<seq<Option<Connection>>>, all: seq<Triple>)
    requires d.Inv() && forall i | 0 <= i < |ids| :: ids[i] < |d.vertices|
    requires IsTable(d, ids, t)
    requires forall x :: x in all <==> IsCopy(|d.vertices|, t, x) && x.start < |d.vertices| + |t|
    ensures forall a: nat, b: nat | a < |d.vertices| + |ids| && b < |d.vertices| + |ids| ::
      Apply(Resize(d.connections, |d.vertices| + |ids|), all).Slot(a, b) == DuplicatedSlot(d, ids, a, b)
  {
    forall a: nat, b: nat | a < |d.vertices| + |ids| && b < |d.vertices| + |ids| {
      SlotAfterCopies(d, ids, t, all, a, b);
    }
  }

  lemma SlotAfterCopies(d: Data, ids: seq<nat>, t: seq<seq<Option<Connection>>>, all: seq<Triple>, a: nat, b: nat)
    requires d.Inv() && forall i | 0 <= i < |ids| :: ids[i] < |d.vertices|
    requires IsTable(d, ids, t)
    requires forall x :: x in all <==> IsCopy(|d.vertices|, t, x) && x.start < |d.vertices| + |t|
    requires a < |d.vertices| + |ids| && b < |d.vertices| + |ids|
    ensures Apply(Resize(d.connections, |d.vertices| + |ids|), all).Slot(a, b) == DuplicatedSlot(d, ids, a, b)
  {
    var n := |d.vertices|;
    LastOfCopies(n, t, all, a, b);
    var want := if n <= a && n <= b then d.connections.Slot(ids[a - n], ids[b - n]) else None;
    LastThroughTable(d, ids, t, Last(all, a, b), a, b, want);
    SlotFromLast(d, ids, all, a, b, want);
  }

  lemma LastThroughTable(d: Data, ids: seq<nat>, t: seq<seq<Option<Connection>>>, last: Option<Connection>, a: nat, b: nat, want: Option<Connection>)
    requires d.Inv() && forall i | 0 <= i < |ids| :: ids[i] < |d.vertices|
    requires IsTable(d, ids, t)
    requires a < |d.vertices| + |ids| && b < |d.vertices| + |ids|
    requires last == if |d.vertices| <= a < |d.vertices| + |t| && |d.vertices| <= b < |d.vertices| + |t|
      then t[a - |d.vertices|][b - |d.vertices|] else None
    requires want == if |d.vertices| <= a && |d.vertices| <= b then d.connections.Slot(ids[a - |d.vertices|], ids[b - |d.vertices|]) else None
    ensures last == if |d.vertices| <= a && |d.vertices| <= b then want else None
  {
  }

  /** The slot after the copies, given the last copy onto it. */
  lemma SlotFromLast(d: Data, ids: seq<nat>, all: seq<Triple>, a: nat, b: nat, want: Option<Connection>)
    requires d.Inv() && forall i | 0 <= i < |ids| :: ids[i] < |d.vertices|
    requires a < |d.vertices| + |ids| && b < |d.vertices| + |ids|
    requires want == if |d.vertices| <= a && |d.vertices| <= b then d.connections.Slot(ids[a - |d.vertices|], ids[b - |d.vertices|]) else None
    requires Last(all, a, b) == if |d.vertices| <= a && |d.vertices| <= b then want else None
    ensures Apply(Resize(d.connections, |d.vertices| + |ids|), all).Slot(a, b) == DuplicatedSlot(d, ids, a, b)
  {
    ApplyAfterResize(d.connections, |d.vertices| + |ids|, all, a, b, want);
    PickDuplicated(d, ids, a, b, Apply(Resize(d.connections, |d.vertices| + |ids|), all).Slot(a, b), want);
  }

  lemma PickDuplicated(d: Data, ids: seq<nat>, a: nat, b: nat, got: Option<Connection>, want: Option<Connection>)
    requires d.Inv() && forall i | 0 <= i < |ids| :: ids[i] < |d.vertices|
    requires a < |d.vertices| + |ids| && b < |d.vertices| + |ids|
    requires want == if |d.vertices| <= a && |d.vertices| <= b then d.connections.Slot(ids[a - |d.vertices|], ids[b - |d.vertices|]) else None
    requires got == if a < |d.vertices| && b < |d.vertices| then d.connections.Slot(a, b)
      else if |d.vertices| <= a && |d.vertices| <= b then want else None
    ensures got == DuplicatedSlot(d, ids, a, b)
  {
  }

  /** The vertex list with clones of the vertices `ids` appended, in order. */
  function WithClones(vs: seq<Vertex>, ids: seq<nat>): (r: seq<Vertex>)
    requires forall i | 0 <= i < |ids| :: ids[i] < |vs|
    ensures |r| == |vs| + |ids| && r[..|vs|] == vs
    ensures forall i | 0 <= i < |ids| :: r[|vs| + i] == vs[ids[i]]
  {
    vs + seq(|ids|, i requires 0 <= i < |ids| => vs[ids[i]])
  }

  /** The copy loop of `duplicate_subgraph` on the grown matrix: walk every pair
      of `ids` row by row and copy its connection onto the pair of clones. */
  function CopyConnections(d: Data, ids: seq<nat>): (c: Connections)
    requires d.Inv() && forall i | 0 <= i < |ids| :: ids[i] < |d.vertices|
    ensures c.Valid() && c.size == |d.vertices| + |ids|
    ensures forall a: nat, b: nat | a < |d.vertices| + |ids| && b < |d.vertices| + |ids| ::
      c.Slot(a, b) == DuplicatedSlot(d, ids, a, b)
  {
    var t := Table(d, ids);
    InAllCopies(|d.vertices|, t, |ids|);
    SlotsAfterCopies(d, ids, t, AllCopies(|d.vertices|, t, |ids|));
    Apply(Resize(d.connections, |d.vertices| + |ids|), AllCopies(|d.vertices|, t, |ids|))
  }

  /** `Data::duplicate_subgraph`: append clones of the existing vertices among
      `vs`, in order, and copy every connection between two of them onto the
      clones.  Returns the new data, the first clone's id and the number of
      clones. */
  function DuplicateSubgraph(d: Data, vs: seq<nat>): (r: (Data, nat, nat))
    requires d.Inv()
    ensures r.1 == |d.vertices| && r.2 == |ExistingIds(vs, |d.vertices|)|
    ensures r.0.Inv() && r.0.classes == d.classes
    ensures |r.0.vertices| == r.1 + r.2 && r.0.vertices[..r.1] == d.vertices
    ensures forall i | 0 <= i < r.2 :: r.0.vertices[r.1 + i] == d.vertices[ExistingIds(vs, r.1)[i]]
  {
    var first := VertexList.Len(d.vertices);
    var ids := ExistingIds(vs, first);
    (Data(WithClones(d.vertices, ids), CopyConnections(d, ids), d.classes), first, |ids|)
  }

  /** The connections after `duplicate_subgraph`: old pairs keep theirs, each
      pair of clones has the connection of its originals, and no connection
      joins an old vertex to a clone. */
  lemma DuplicateSubgraphConnections(d: Data, vs: seq<nat>, a: nat, b: nat)
    requires d.Inv()
    requires a < |DuplicateSubgraph(d, vs).0.vertices| && b < |DuplicateSubgraph(d, vs).0.vertices|
    ensures DuplicateSubgraph(d, vs).0.connections.Slot(a, b) == DuplicatedSlot(d, ExistingIds(vs, |d.vertices|), a, b)
  {
  }

  /** Every write of the copy loop lands on a pair of clones inside the grown
      matrix, so the `entry_mut` that would panic never fails. */
  lemma CopiesInRange(d: Data, ids: seq<nat>)
    requires d.Inv() && forall i | 0 <= i < |ids| :: ids[i] < |d.vertices|
    ensures forall x | x in AllCopies(|d.vertices|, Table(d, ids), |ids|) ::
      |d.vertices| <= x.start < |d.vertices| + |ids| && |d.vertices| <= x.end < |d.vertices| + |ids|
    ensures forall x | x in AllCopies(|d.vertices|, Table(d, ids), |ids|) ::
      SetEntry(Resize(d.connections, |d.vertices| + |ids|), x.start, x.end, Some(x.conn)).Ok?
  {
    InAllCopies(|d.vertices|, Table(d, ids), |ids|);
  }

  /** The loop reads the pair of originals from the matrix it is writing to;
      every copy made before that read lands on clones, so it sees the original
      connection. */
  lemma CopyReadsOriginal(d: Data, ids: seq<nat>, p: nat, q: nat)
    requires d.Inv() && forall i | 0 <= i < |ids| :: ids[i] < |d.vertices|
    requires p < |ids| && q < |ids|
    ensures Get(Apply(Resize(d.connections, |d.vertices| + |ids|),
                      AllCopies(|d.vertices|, Table(d, ids), p) + RowCopies(|d.vertices|, Table(d, ids), p, q)),
                ids[p], ids[q])
      == d.connections.Slot(ids[p], ids[q])
  {
    var t := Table(d, ids);
    InAllCopies(|d.vertices|, t, p);
    InRowCopies(|d.vertices|, t, p, q);
    ReadBelow(d.connections, Resize(d.connections, |d.vertices| + |ids|),
      AllCopies(|d.vertices|, t, p) + RowCopies(|d.vertices|, t, p, q), ids[p], ids[q]);
  }

  /** Copies that all start at or past the old size leave the resized matrix's
      old slots alone. */
  lemma ReadBelow(c: Connections, c0: Connections, made: seq<Triple>, x: nat, y: nat)
    requires c.Valid() && x < c.size && y < c.size && c0 == Resize(c, c0.size) && c.size <= c0.size
    requires forall m | m in made :: m.start >= c.size
    ensures Get(Apply(c0, made), x, y) == c.Slot(x, y)
  {
    assert Last(made, x, y).None?;
  }

  // ---------------------------------------------------------------------
  // DataRepresentation and the text sections

  /** `DataRepresentation`: the vertices, the stored connections as triples and
      the size classes. */
  datatype Representation = Representation(vertices: seq<Vertex>, connections: seq<Triple>, sizes: Classes)

  /** `From<Data> for DataRepresentation`: the triples `foreach` visits, in its
      order (see `Matrix.Foreach`). */
  function ToRepresentation(d: Data): (r: Representation)
    requires d.Inv()
    ensures r.vertices == d.vertices && r.sizes == d.classes
    ensures forall i | 0 <= i < |r.connections| ::
      r.connections[i].start < |d.vertices| && r.connections[i].end < |d.vertices| &&
      d.connections.Slot(r.connections[i].start, r.connections[i].end) == Some(r.connections[i].conn)
  {
    Representation(d.vertices, Triples(d.connections), d.classes)
  }

  /** Every stored connection is listed in the representation. */
  lemma RepresentationComplete(d: Data, a: nat, b: nat)
    requires d.Inv() && a < |d.vertices| && b < |d.vertices| && d.connections.Slot(a, b).Some?
    ensures Triple(a, b, d.connections.Slot(a, b).value) in ToRepresentation(d).connections
  {
    TriplesComplete(d.connections, a, b);
  }

  /** `From<DataRepresentation> for Data`: an empty matrix sized to the vertex
      list, filled with the triples in order; a triple naming a missing vertex is
      skipped, and a later triple for the same pair wins. */
  function FromRepresentation(rep: Representation): (r: Data)
    ensures r.Inv() && r.vertices == rep.vertices && r.classes == rep.sizes
    ensures forall a: nat, b: nat | a < |rep.vertices| && b < |rep.vertices| ::
      r.connections.Slot(a, b) == Last(rep.connections, a, b)
  {
    Data(rep.vertices, Build(VertexList.Len(rep.vertices), rep.connections), rep.sizes)
  }

  /** Converting to the representation and back gives the same data. */
  lemma RepresentationRoundTrip(d: Data)
    requires d.Inv()
    ensures FromRepresentation(ToRepresentation(d)) == d
  {
    BuildTriples(d.connections);
  }

  /** A triple naming a missing vertex changes nothing. */
  lemma SkipsOutOfRange(vs: seq<Vertex>, ts: seq<Triple>, t: Triple, cs: Classes)
    requires t.start >= |vs| || t.end >= |vs|
    ensures FromRepresentation(Representation(vs, ts + [t], cs)) == FromRepresentation(Representation(vs, ts, cs))
  {
    var r1 := FromRepresentation(Representation(vs, ts + [t], cs));
    var r2 := FromRepresentation(Representation(vs, ts, cs));
    forall a: nat, b: nat | a < |vs| && b < |vs|
      ensures r1.connections.Slot(a, b) == r2.connections.Slot(a, b)
    {
      LastAppend(ts, [t], a, b);
    }
    SlotsDetermine(r1.connections, r2.connections);
  }

  /** The last step of `Data::from_str`: with the three sections read, the
      matrix read from the third one is resized to the vertex list, so a text
      whose connections name fewer or more vertices still gives consistent data. */
  function FromSections(classes: Classes, vertices: seq<Vertex>, connections: Connections): (r: Data)
    requires connections.Valid()
    ensures r.Inv() && r.vertices == vertices && r.classes == classes
    ensures forall a: nat, b: nat | a < |vertices| && b < |vertices| ::
      r.connections.Slot(a, b) == if a < connections.size && b < connections.size then connections.Slot(a, b) else None
  {
    Data(vertices, Resize(connections, VertexList.Len(vertices)), classes)
  }

  /** Writing the matrix as text and reading it back, followed by the resize
      step, gives the data back. */
  lemma SectionsRoundTrip(d: Data)
    requires d.Inv()
    ensures MatrixText.FromText(MatrixText.ToText(d.connections)).Ok?
    ensures FromSections(d.classes, d.vertices, MatrixText.FromText(MatrixText.ToText(d.connections)).value) == d
  {
    MatrixText.TextRoundTrip(d.connections);
  }

  // ---------------------------------------------------------------------
  // The default diagram

  /** The four vertices of the default diagram, placed on a square, with no
      connections yet. */
  function DefaultVertices(): (d: Data)
    ensures d.Inv() && |d.vertices| == 4 && d.classes == DefaultClasses()
    ensures forall a: nat, b: nat | a < 4 && b < 4 :: d.connections.Slot(a, b).None?
  {
    var d0 := Data([], New(0), DefaultClasses());
    var d1 := AddVertex(d0, NewVertex(Vector(50.0, 50.0))).0;
    var d2 := AddVertex(d1, NewVertex(Vector(50.0, 150.0))).0;
    var d3 := AddVertex(d2, NewVertex(Vector(150.0, 150.0))).0;
    AddVertex(d3, NewVertex(Vector(150.0, 50.0))).0
  }

  /** One `add_connection(s, e, InnerRight, 2)` of `Data::default`, whose result
      the source ignores. */
  function AddDefaultConnection(d: Data, s: nat, e: nat): (r: Data)
    requires d.Inv()
    ensures r.Inv() && r.vertices == d.vertices && r.classes == d.classes
    ensures s < |d.vertices| && e < |d.vertices| ==>
      OnlySlotChanged(d.connections, r.connections, s, e, Some(Connection(InnerRight, 2)))
  {
    match AddConnection(d, s, e, InnerRight, 2)
    case Ok(r) => r
    case Err => d
  }

  /** `Data::default`: four vertices on a square and five connections. */
  function DefaultData(): (r: Data)
    ensures r.Inv()
  {
    var d := DefaultVertices();
    var d := AddDefaultConnection(d, 0, 1);
    var d := AddDefaultConnection(d, 2, 3);
    var d := AddDefaultConnection(d, 3, 0);
    var d := AddDefaultConnection(d, 0, 2);
    AddDefaultConnection(d, 1, 3)
  }

  /** The pairs `Data::default` connects. */
  predicate DefaultPair(a: nat, b: nat) {
    (a == 0 && b == 1) || (a == 2 && b == 3) || (a == 3 && b == 0) || (a == 0 && b == 2) || (a == 1 && b == 3)
  }

  /** The default diagram has four vertices, every one of the five additions
      lands, and exactly those five pairs hold an inner-right connection of size 2. */
  lemma DefaultDataShape()
    ensures |DefaultData().vertices| == 4 && DefaultData().classes == DefaultClasses()
    ensures forall a: nat, b: nat | a < 4 && b < 4 ::
      DefaultData().connections.Slot(a, b) == if DefaultPair(a, b) then Some(Connection(InnerRight, 2)) else None
  {
    var d0 := DefaultVertices();
    var d1 := AddDefaultConnection(d0, 0, 1);
    var d2 := AddDefaultConnection(d1, 2, 3);
    var d3 := AddDefaultConnection(d2, 3, 0);
    var d4 := AddDefaultConnection(d3, 0, 2);
    var d5 := AddDefaultConnection(d4, 1, 3);
    assert d5 == DefaultData();
    forall a: nat, b: nat | a < 4 && b < 4
      ensures d5.connections.Slot(a, b) == if DefaultPair(a, b) then Some(Connection(InnerRight, 2)) else None
    {
      assert d1.connections.Slot(a, b) == if a == 0 && b == 1 then Some(Connection(InnerRight, 2)) else d0.connections.Slot(a, b);
      assert d2.connections.Slot(a, b) == if a == 2 && b == 3 then Some(Connection(InnerRight, 2)) else d1.connections.Slot(a, b);
      assert d3.connections.Slot(a, b) == if a == 3 && b == 0 then Some(Connection(InnerRight, 2)) else d2.connections.Slot(a, b);
      assert d4.connections.Slot(a, b) == if a == 0 && b == 2 then Some(Connection(InnerRight, 2)) else d3.connections.Slot(a, b);
    }
  }
}
