/** The editing rules of the workspace (`ui/workspace_context.rs`): what the
    selection-driven commands do to the diagram and to the selection.  Drawing,
    hit testing and the view transform are not modelled; where a command looks
    up the vertex under the mouse, the id it finds is a parameter. */
module Editing {
  import opened Wrappers
  import opened Layout
  import opened Orientations
  import opened Matrix
  import opened SizeClasses
  import opened Diagram

  /** `Selection`.  An area lists vertex ids in ascending order. */
  datatype Selection = VertexSelected(v: nat) | EdgeSelected(a: nat, b: nat) | AreaSelected(ids: seq<nat>)

  /** The editing state: the diagram, the orientation and size class that new
      connections get, and the selection. */
  datatype Workspace = Workspace(data: Data, orientation: ConnectionOrientation, size: nat, selection: Option<Selection>) {
    predicate Inv() {
      data.Inv()
    }

    /** Everything but the diagram is as in `w`. */
    predicate SameSettings(w: Workspace) {
      orientation == w.orientation && size == w.size && selection == w.selection
    }
  }

  /** Ids in strictly ascending order, as an area selection lists them. */
  predicate Ascending(ids: seq<nat>) {
    forall i, j | 0 <= i < j < |ids| :: ids[i] < ids[j]
  }

  // ---------------------------------------------------------------------
  // Adding connections

  /** `WorkspaceContext::add_connection`: a connection from a vertex to itself is
      refused; otherwise `(s, e)` gets a connection with the current orientation
      and size, and ids that name no vertex change nothing. */
  function AddConnection(w: Workspace, s: nat, e: nat): (r: Workspace)
    requires w.Inv()
    ensures r.Inv() && r.SameSettings(w)
    ensures r.data.vertices == w.data.vertices && r.data.classes == w.data.classes
    ensures s == e || s >= |w.data.vertices| || e >= |w.data.vertices| ==> r == w
    ensures s != e && s < |w.data.vertices| && e < |w.data.vertices| ==>
      OnlySlotChanged(w.data.connections, r.data.connections, s, e, Some(Connection(w.orientation, w.size)))
  {
    if s == e then w
    else
      match Diagram.AddConnection(w.data, s, e, w.orientation, w.size)
      case Ok(d) => w.(data := d)
      case Err => w
  }

  /** No connection from a vertex to itself is ever made here. */
  lemma NoSelfConnections(w: Workspace, s: nat, e: nat, a: nat)
    requires w.Inv() && a < |w.data.vertices|
    ensures AddConnection(w, s, e).data.connections.Slot(a, a) == w.data.connections.Slot(a, a)
  {
  }

  /** The diagram with the slot `(s, e)` emptied; ids that name no vertex change
      nothing (the source ignores the failure). */
  function Disconnect(d: Data, s: nat, e: nat): (r: Data)
    requires d.Inv()
    ensures r.Inv() && r.vertices == d.vertices && r.classes == d.classes
    ensures s < |d.vertices| && e < |d.vertices| ==> OnlySlotChanged(d.connections, r.connections, s, e, None)
    ensures s >= |d.vertices| || e >= |d.vertices| ==> r == d
  {
    match RemoveConnection(d, s, e)
    case Ok(r) => r
    case Err => d
  }

  /** `connect_to`: with a vertex `s` selected, clear `(e, s)` and then add
      `(s, e)`; with anything else selected, or nothing, nothing happens. */
  function ConnectTo(w: Workspace, e: nat): (r: Workspace)
    requires w.Inv()
    ensures r.Inv() && r.SameSettings(w)
    ensures r.data.vertices == w.data.vertices && r.data.classes == w.data.classes
    ensures !(w.selection.Some? && w.selection.value.VertexSelected?) ==> r == w
  {
    match w.selection
    case Some(VertexSelected(s)) => AddConnection(w.(data := Disconnect(w.data, e, s)), s, e)
    case _ => w
  }

  /** After connecting the selected vertex `s` to another vertex `e`, `(s, e)`
      holds the new connection and `(e, s)` is empty, so the two vertices are
      joined in one direction only; every other pair keeps its connection.
      Connecting a vertex to itself clears its self-connection and adds none. */
  lemma ConnectToOneDirection(w: Workspace, e: nat)
    requires w.Inv() && w.selection.Some? && w.selection.value.VertexSelected?
    requires w.selection.value.v < |w.data.vertices| && e < |w.data.vertices|
    ensures var s := w.selection.value.v; var c := ConnectTo(w, e).data.connections;
      s != e ==> c.Slot(s, e) == Some(Connection(w.orientation, w.size)) && c.Slot(e, s) == None
    ensures var s := w.selection.value.v; var c := ConnectTo(w, e).data.connections;
      s == e ==> c.Slot(s, s) == None
    ensures var s := w.selection.value.v; var c := ConnectTo(w, e).data.connections;
      forall a: nat, b: nat | a < |w.data.vertices| && b < |w.data.vertices| && !(a == s && b == e) && !(a == e && b == s) ::
        c.Slot(a, b) == w.data.connections.Slot(a, b)
  {
    var s := w.selection.value.v;
    var cleared := w.(data := Disconnect(w.data, e, s));
    assert ConnectTo(w, e) == AddConnection(cleared, s, e);
  }

  /** `connect_at`: `hit` is the vertex the hit test found at the mouse position, if
      any; with a vertex selected and a hit, this is `connect_to` that vertex. */
  function ConnectAt(w: Workspace, hit: Option<nat>): (r: Workspace)
    requires w.Inv()
    ensures r.Inv() && r.SameSettings(w)
    ensures hit.None? ==> r == w
    ensures hit.Some? ==> r == ConnectTo(w, hit.value)
  {
    match w.selection
    case Some(VertexSelected(_)) =>
      (match hit
       case Some(e) => ConnectTo(w, e)
       case None => w)
    case _ => w
  }

  // ---------------------------------------------------------------------
  // Deleting the selection

  /** The diagram without vertex `v`; an id that names no vertex changes nothing. */
  function DropVertex(d: Data, v: nat): (r: Data)
    requires d.Inv()
    ensures r.Inv() && r.classes == d.classes
    ensures v >= |d.vertices| ==> r == d
    ensures v < |d.vertices| ==> r == RemoveVertex(d, v).value
  {
    match RemoveVertex(d, v)
    case Ok(r) => r
    case Err => d
  }

  /** The area loop: remove the listed vertices from the last to the first. */
  function DropAll(d: Data, ids: seq<nat>): (r: Data)
    requires d.Inv()
    ensures r.Inv() && r.classes == d.classes
    decreases |ids|
  {
    if ids == [] then d else DropAll(DropVertex(d, ids[|ids| - 1]), ids[..|ids| - 1])
  }

  /** `delete_selection`: remove the selected vertex, connection, or area, and
      clear the selection. */
  function DeleteSelection(w: Workspace): (r: Workspace)
    requires w.Inv()
    ensures r.Inv() && r.selection.None? && r.orientation == w.orientation && r.size == w.size
    ensures w.selection.None? ==> r == w
    ensures w.selection.Some? && w.selection.value.VertexSelected? ==> r.data == DropVertex(w.data, w.selection.value.v)
    ensures w.selection.Some? && w.selection.value.EdgeSelected? ==>
      r.data == Disconnect(w.data, w.selection.value.a, w.selection.value.b)
    ensures w.selection.Some? && w.selection.value.AreaSelected? ==> r.data == DropAll(w.data, w.selection.value.ids)
  {
    match w.selection
    case None => w
    case Some(VertexSelected(v)) => w.(data := DropVertex(w.data, v), selection := None)
    case Some(EdgeSelected(a, b)) => w.(data := Disconnect(w.data, a, b), selection := None)
    case Some(AreaSelected(ids)) => w.(data := DropAll(w.data, ids), selection := None)
  }

  /** How many of `ids` lie below `x`. */
  function Below(ids: seq<nat>, x: nat): nat {
    if ids == [] then 0 else Below(ids[..|ids| - 1], x) + (if ids[|ids| - 1] < x then 1 else 0)
  }

  lemma {:induction false} BelowAll(ids: seq<nat>, x: nat)
    requires forall i | 0 <= i < |ids| :: ids[i] < x
    ensures Below(ids, x) == |ids|
  {
    if ids != [] {
      BelowAll(ids[..|ids| - 1], x);
    }
  }

  /** Without its last id, an ascending list stays ascending and lies below that id. */
  lemma PrefixBelowLast(ids: seq<nat>, rest: seq<nat>)
    requires ids != [] && Ascending(ids) && rest == ids[..|ids| - 1]
    ensures Ascending(rest)
    ensures forall i | 0 <= i < |rest| :: rest[i] < ids[|ids| - 1]
  {
  }

  /** Where a vertex that survives the deletion of `ids` ends up. */
  function Rank(ids: seq<nat>, x: nat): int {
    x - Below(ids, x)
  }

  /** Deleting the last listed vertex `m` first and then the others: a survivor
      `x` sits at `Down(x, m)` in between, and its final place is the same. */
  lemma RankStep(ids: seq<nat>, x: nat)
    requires ids != [] && Ascending(ids) && x !in ids
    ensures var m := ids[|ids| - 1];
      Down(x, m) !in ids[..|ids| - 1] && Rank(ids[..|ids| - 1], Down(x, m)) == Rank(ids, x)
  {
    var m := ids[|ids| - 1];
    var rest := ids[..|ids| - 1];
    PrefixBelowLast(ids, rest);
    if m < x {
      BelowAll(rest, x);
      BelowAll(rest, x - 1);
    }
  }

  /** Removing an area of ascending, existing ids removes exactly that many
      vertices. */
  lemma {:induction false} DropAllCount(d: Data, ids: seq<nat>)
    requires d.Inv() && Ascending(ids) && forall i | 0 <= i < |ids| :: ids[i] < |d.vertices|
    ensures |DropAll(d, ids).vertices| + |ids| == |d.vertices|
    decreases |ids|
  {
    if ids != [] {
      var m := ids[|ids| - 1];
      var rest := ids[..|ids| - 1];
      var d1 := DropVertex(d, m);
      PrefixBelowLast(ids, rest);
      DropAllCount(d1, rest);
    }
  }

  /** One removal: the survivor `x` is found at `Down(x, m)`, the same vertex. */
  lemma DropStepVertex(d: Data, m: nat, x: nat)
    requires d.Inv() && m < |d.vertices| && x < |d.vertices| && x != m
    ensures Down(x, m) < |DropVertex(d, m).vertices| && DropVertex(d, m).vertices[Down(x, m)] == d.vertices[x]
  {
  }

  /** One removal: a pair of survivors keeps its connection. */
  lemma DropStepSlot(d: Data, m: nat, x: nat, y: nat)
    requires d.Inv() && m < |d.vertices| && x < |d.vertices| && y < |d.vertices| && x != m && y != m
    ensures Down(x, m) < |DropVertex(d, m).vertices| && Down(y, m) < |DropVertex(d, m).vertices|
    ensures DropVertex(d, m).connections.Slot(Down(x, m), Down(y, m)) == d.connections.Slot(x, y)
  {
    assert Up(Down(x, m), m) == x && Up(Down(y, m), m) == y;
  }

  /** Removing an area of ascending, existing ids keeps every other vertex, at
      its place among the survivors. */
  lemma {:induction false} DropAllKeepsVertex(d: Data, ids: seq<nat>, x: nat)
    requires d.Inv() && Ascending(ids) && forall i | 0 <= i < |ids| :: ids[i] < |d.vertices|
    requires x < |d.vertices| && x !in ids
    ensures 0 <= Rank(ids, x) < |DropAll(d, ids).vertices|
    ensures DropAll(d, ids).vertices[Rank(ids, x)] == d.vertices[x]
    decreases |ids|
  {
    if ids != [] {
      var m := ids[|ids| - 1];
      var rest := ids[..|ids| - 1];
      PrefixBelowLast(ids, rest);
      DropStepVertex(d, m, x);
      RankStep(ids, x);
      DropAllKeepsVertex(DropVertex(d, m), rest, Down(x, m));
    }
  }

  /** ... and every connection between two survivors. */
  lemma {:induction false} DropAllKeepsSlot(d: Data, ids: seq<nat>, x: nat, y: nat)
    requires d.Inv() && Ascending(ids) && forall i | 0 <= i < |ids| :: ids[i] < |d.vertices|
    requires x < |d.vertices| && y < |d.vertices| && x !in ids && y !in ids
    ensures 0 <= Rank(ids, x) < |DropAll(d, ids).vertices| && 0 <= Rank(ids, y) < |DropAll(d, ids).vertices|
    ensures DropAll(d, ids).connections.Slot(Rank(ids, x), Rank(ids, y)) == d.connections.Slot(x, y)
    decreases |ids|
  {
    DropAllKeepsVertex(d, ids, x);
    DropAllKeepsVertex(d, ids, y);
    if ids != [] {
      var m := ids[|ids| - 1];
      var rest := ids[..|ids| - 1];
      PrefixBelowLast(ids, rest);
      DropStepSlot(d, m, x, y);
      RankStep(ids, x);
      RankStep(ids, y);
      DropAllKeepsSlot(DropVertex(d, m), rest, Down(x, m), Down(y, m));
    }
  }

  // ---------------------------------------------------------------------
  // Changing the size class of the selected connection

  /** `change_selection_class`: with a connection `(a, b)` selected, step its
      size class up (`increase`) or down; the step starts from class 0 when the
      slot is empty, and only a stored connection is changed. */
  function ChangeSelectionClass(w: Workspace, increase: bool): (r: Workspace)
    requires w.Inv()
    ensures r.Inv() && r.SameSettings(w)
    ensures r.data.vertices == w.data.vertices && r.data.classes == w.data.classes
    ensures !(w.selection.Some? && w.selection.value.EdgeSelected?) ==> r == w
    ensures w.selection.Some? && w.selection.value.EdgeSelected? ==>
      var a := w.selection.value.a; var b := w.selection.value.b;
      var c := w.data.connections;
      (Get(c, a, b).None? ==> r == w) &&
      (Get(c, a, b).Some? ==>
        var x := Get(c, a, b).value;
        var z := if increase then SizeClasses.Next(w.data.classes, x.size) else Previous(w.data.classes, x.size);
        a < c.size && b < c.size && OnlySlotChanged(c, r.data.connections, a, b, Some(Connection(x.orientation, z))))
  {
    match w.selection
    case Some(EdgeSelected(a, b)) =>
      var c := w.data.connections;
      var current := match Get(c, a, b) case Some(x) => x.size case None => 0;
      var z := if increase then SizeClasses.Next(w.data.classes, current) else Previous(w.data.classes, current);
      (match Get(c, a, b)
       case Some(x) => w.(data := w.data.(connections := SetEntry(c, a, b, Some(Connection(x.orientation, z))).value))
       case None => w)
    case _ => w
  }

  /** Stepping a connection's class up and then down gives the workspace back
      when the class is below the last one of the table, and the other way round
      when it is above 0. */
  lemma ClassStepsUndo(w: Workspace)
    requires w.Inv() && w.selection.Some? && w.selection.value.EdgeSelected?
    requires Get(w.data.connections, w.selection.value.a, w.selection.value.b).Some?
    ensures var z := Get(w.data.connections, w.selection.value.a, w.selection.value.b).value.size;
      z + 1 < |w.data.classes.items| ==> ChangeSelectionClass(ChangeSelectionClass(w, true), false) == w
    ensures var z := Get(w.data.connections, w.selection.value.a, w.selection.value.b).value.size;
      0 < z < |w.data.classes.items| ==> ChangeSelectionClass(ChangeSelectionClass(w, false), true) == w
  {
    var a := w.selection.value.a;
    var b := w.selection.value.b;
    var c := w.data.connections;
    var x := Get(c, a, b).value;
    if x.size + 1 < |w.data.classes.items| {
      var r := ChangeSelectionClass(ChangeSelectionClass(w, true), false);
      assert r.data.connections.Slot(a, b) == Some(x);
      SlotsDetermine(r.data.connections, c);
    }
    if 0 < x.size < |w.data.classes.items| {
      var r := ChangeSelectionClass(ChangeSelectionClass(w, false), true);
      assert r.data.connections.Slot(a, b) == Some(x);
      SlotsDetermine(r.data.connections, c);
    }
  }

  // ---------------------------------------------------------------------
  // Duplicating the selection

  /** The ids `start, start + 1, …` of `count` consecutive vertices. */
  function Range(start: nat, count: nat): (r: seq<nat>)
    ensures |r| == count && forall k | 0 <= k < count :: r[k] == start + k
  {
    seq(count, k => start + k)
  }

  /** The vertices a selection names, in the order `duplicate_selection` passes them. */
  function SelectedIds(s: Selection): seq<nat> {
    match s
    case VertexSelected(v) => [v]
    case EdgeSelected(a, b) => [a, b]
    case AreaSelected(ids) => ids
  }

  /** The selection of the `count` clones starting at `start`, of the same kind. */
  function Reselect(s: Selection, start: nat, count: nat): (r: Selection)
    ensures r.VertexSelected? <==> s.VertexSelected?
    ensures r.EdgeSelected? <==> s.EdgeSelected?
  {
    match s
    case VertexSelected(_) => VertexSelected(start)
    case EdgeSelected(_, _) => EdgeSelected(start, start + 1)
    case AreaSelected(_) => AreaSelected(Range(start, count))
  }

  /** `duplicate_selection`: clone the selected vertices (with the connections
      among them) and select the clones. */
  function DuplicateSelection(w: Workspace): (r: Workspace)
    requires w.Inv()
    ensures r.Inv() && r.orientation == w.orientation && r.size == w.size
    ensures w.selection.None? ==> r == w
    ensures w.selection.Some? ==> r.selection.Some?
  {
    match w.selection
    case None => w
    case Some(s) =>
      var (d, start, count) := DuplicateSubgraph(w.data, SelectedIds(s));
      w.(data := d, selection := Some(Reselect(s, start, count)))
  }

  /** Whatever is selected, duplicating appends one clone per selected id that
      names a vertex and selects from the first new id on, keeping the kind of
      selection; ids past the end are dropped, so a connection selection whose
      ends do not both exist still selects the pair of ids after the old ones. */
  lemma DuplicateSelectionReselects(w: Workspace)
    requires w.Inv() && w.selection.Some?
    ensures var r := DuplicateSelection(w); var n := |w.data.vertices|;
      var kept := ExistingIds(SelectedIds(w.selection.value), n);
      |r.data.vertices| == n + |kept| && r.data.vertices[..n] == w.data.vertices &&
      r.selection == Some(Reselect(w.selection.value, n, |kept|))
  {
  }

  /** A duplicated area selects its clones: ascending ids, past every old vertex,
      each naming a copy of the selected vertex at the same position among the
      existing ones. */
  lemma DuplicatedAreaSelectsClones(w: Workspace)
    requires w.Inv() && w.selection.Some? && w.selection.value.AreaSelected?
    ensures var r := DuplicateSelection(w); var n := |w.data.vertices|;
      var kept := ExistingIds(w.selection.value.ids, n);
      r.selection.value.AreaSelected? && Ascending(r.selection.value.ids) &&
      |r.selection.value.ids| == |kept| &&
      forall k | 0 <= k < |kept| ::
        n <= r.selection.value.ids[k] < |r.data.vertices| &&
        r.data.vertices[r.selection.value.ids[k]] == w.data.vertices[kept[k]]
  {
    var ids := w.selection.value.ids;
    var n := |w.data.vertices|;
    var kept := ExistingIds(ids, n);
    var dup := DuplicateSubgraph(w.data, ids);
    assert SelectedIds(w.selection.value) == ids;
    var r := DuplicateSelection(w);
    assert r.data == dup.0 && r.selection == Some(AreaSelected(Range(n, |kept|)));
    ClonesSelected(w.data.vertices, dup.0.vertices, kept, n, |kept|);
  }

  /** The range after the old vertices names the clones, in order. */
  lemma ClonesSelected(before: seq<Vertex>, after: seq<Vertex>, kept: seq<nat>, start: nat, count: nat)
    requires start == |before| && count == |kept| && |after| == start + count
    requires forall i | 0 <= i < |kept| :: kept[i] < |before|
    requires forall i | 0 <= i < count :: after[start + i] == before[kept[i]]
    ensures Ascending(Range(start, count))
    ensures forall k | 0 <= k < count :: start <= Range(start, count)[k] < |after| && after[Range(start, count)[k]] == before[kept[k]]
  {
  }

  /** A duplicated connection selects the two clones. */
  lemma DuplicatedEdgeSelectsClones(w: Workspace)
    requires w.Inv() && w.selection.Some? && w.selection.value.EdgeSelected?
    requires w.selection.value.a < |w.data.vertices| && w.selection.value.b < |w.data.vertices|
    ensures var r := DuplicateSelection(w); var n := |w.data.vertices|;
      r.selection == Some(EdgeSelected(n, n + 1)) && n + 1 < |r.data.vertices| &&
      r.data.vertices[n] == w.data.vertices[w.selection.value.a] && r.data.vertices[n + 1] == w.data.vertices[w.selection.value.b]
  {
    var n := |w.data.vertices|;
    var a := w.selection.value.a;
    var b := w.selection.value.b;
    ExistingPair(a, b, n);
    assert SelectedIds(w.selection.value) == [a, b];
    var dup := DuplicateSubgraph(w.data, [a, b]);
    var r := DuplicateSelection(w);
    assert r.data == dup.0 && r.selection == Some(Reselect(w.selection.value, dup.1, dup.2));
    assert dup.0.vertices[n + 0] == w.data.vertices[a];
    assert dup.0.vertices[n + 1] == w.data.vertices[b];
  }

  /** The connection between the two clones holds what the original held. */
  lemma DuplicatedEdgeKeepsConnection(w: Workspace)
    requires w.Inv() && w.selection.Some? && w.selection.value.EdgeSelected?
    requires w.selection.value.a < |w.data.vertices| && w.selection.value.b < |w.data.vertices|
    ensures var r := DuplicateSelection(w); var n := |w.data.vertices|;
      n + 1 < |r.data.vertices| &&
      r.data.connections.Slot(n, n + 1) == w.data.connections.Slot(w.selection.value.a, w.selection.value.b)
  {
    var n := |w.data.vertices|;
    var a := w.selection.value.a;
    var b := w.selection.value.b;
    ExistingPair(a, b, n);
    assert SelectedIds(w.selection.value) == [a, b];
    var dup := DuplicateSubgraph(w.data, [a, b]);
    assert DuplicateSelection(w).data == dup.0;
    DuplicateSubgraphConnections(w.data, [a, b], n, n + 1);
  }

  /** Two existing ids are both kept. */
  lemma ExistingPair(a: nat, b: nat, n: nat)
    requires a < n && b < n
    ensures ExistingIds([a, b], n) == [a, b]
  {
    assert [a, b][1..] == [b];
    assert [b][1..] == [];
  }

  /** A duplicated vertex selects its clone. */
  lemma DuplicatedVertexSelectsClone(w: Workspace)
    requires w.Inv() && w.selection.Some? && w.selection.value.VertexSelected?
    requires w.selection.value.v < |w.data.vertices|
    ensures var r := DuplicateSelection(w); var n := |w.data.vertices|;
      r.selection == Some(VertexSelected(n)) && n < |r.data.vertices| &&
      r.data.vertices[n] == w.data.vertices[w.selection.value.v]
  {
    var n := |w.data.vertices|;
    var v := w.selection.value.v;
    assert ExistingIds([v], n) == [v] by {
      assert [v][1..] == [];
    }
  }

  // ---------------------------------------------------------------------
  // Changing the orientation of the selection

  /** A stored connection with its orientation transformed; an empty slot stays empty. */
  function Retarget(x: Option<Connection>, f: ConnectionOrientation -> ConnectionOrientation): (r: Option<Connection>)
    ensures r.None? <==> x.None?
    ensures r.Some? ==> r.value.size == x.value.size && r.value.orientation == f(x.value.orientation)
  {
    match x
    case Some(y) => Some(Connection(f(y.orientation), y.size))
    case None => None
  }

  /** `edge_mut(a, b)` followed by the orientation update. */
  function RetargetAt(c: Connections, a: nat, b: nat, f: ConnectionOrientation -> ConnectionOrientation): (r: Connections)
    requires c.Valid()
    ensures r.Valid() && r.size == c.size
    ensures forall p: nat, q: nat | p < c.size && q < c.size ::
      r.Slot(p, q) == if p == a && q == b then Retarget(c.Slot(p, q), f) else c.Slot(p, q)
  {
    match Get(c, a, b)
    case Some(x) => SetEntry(c, a, b, Some(Connection(f(x.orientation), x.size))).value
    case None => c
  }

  /** The loop over the collected pairs. */
  function RetargetAll(c: Connections, ps: seq<(nat, nat)>, f: ConnectionOrientation -> ConnectionOrientation): (r: Connections)
    requires c.Valid()
    ensures r.Valid() && r.size == c.size
    decreases |ps|
  {
    if ps == [] then c else RetargetAt(RetargetAll(c, ps[..|ps| - 1], f), ps[|ps| - 1].0, ps[|ps| - 1].1, f)
  }

  /** Pairs in strictly increasing slot order: in particular no pair twice. */
  predicate InSlotOrder(ps: seq<(nat, nat)>) {
    forall i, j | 0 <= i < j < |ps| :: Global(ps[i].0, ps[i].1) < Global(ps[j].0, ps[j].1)
  }

  /** `connections_subset`: the pairs of the listed triples whose two ends are
      both selected, in listing order. */
  function SelectedPairs(ts: seq<Triple>, ids: seq<nat>): (r: seq<(nat, nat)>)
    ensures |r| <= |ts|
  {
    if ts == [] then []
    else
      var t := ts[|ts| - 1];
      SelectedPairs(ts[..|ts| - 1], ids) + (if t.start in ids && t.end in ids then [(t.start, t.end)] else [])
  }

  /** `change_orientation_of_selection`: transform the orientation of the
      selected connection, or of every stored connection between two selected
      vertices of an area; a selected vertex alone changes nothing. */
  function ChangeOrientationOfSelection(w: Workspace, f: ConnectionOrientation -> ConnectionOrientation): (r: Workspace)
    requires w.Inv()
    ensures r.Inv() && r.SameSettings(w)
    ensures r.data.vertices == w.data.vertices && r.data.classes == w.data.classes
    ensures w.selection.None? || w.selection.value.VertexSelected? ==> r == w
  {
    match w.selection
    case None => w
    case Some(VertexSelected(_)) => w
    case Some(EdgeSelected(a, b)) => w.(data := w.data.(connections := RetargetAt(w.data.connections, a, b, f)))
    case Some(AreaSelected(ids)) =>
      var ps := SelectedPairs(Triples(w.data.connections), ids);
      w.(data := w.data.(connections := RetargetAll(w.data.connections, ps, f)))
  }

  /** The pair `(a, b)` is collected exactly when both ends are selected and the
      listing holds a triple for it. */
  lemma {:induction false} InSelectedPairs(ts: seq<Triple>, ids: seq<nat>, a: nat, b: nat)
    ensures (a, b) in SelectedPairs(ts, ids) <==> a in ids && b in ids && Last(ts, a, b).Some?
    decreases |ts|
  {
    if ts != [] {
      InSelectedPairs(ts[..|ts| - 1], ids, a, b);
    }
  }

  /** Every collected pair lies below slot `g` when every listed triple does. */
  lemma {:induction false} SelectedPairsBelow(ts: seq<Triple>, ids: seq<nat>, g: nat)
    requires forall i | 0 <= i < |ts| :: Global(ts[i].start, ts[i].end) < g
    ensures forall k | 0 <= k < |SelectedPairs(ts, ids)| ::
      Global(SelectedPairs(ts, ids)[k].0, SelectedPairs(ts, ids)[k].1) < g
    decreases |ts|
  {
    if ts != [] {
      SelectedPairsBelow(ts[..|ts| - 1], ids, g);
    }
  }

  /** Collecting keeps the slot order of the listing. */
  lemma {:induction false} SelectedPairsInOrder(ts: seq<Triple>, ids: seq<nat>)
    requires forall i, j | 0 <= i < j < |ts| :: Global(ts[i].start, ts[i].end) < Global(ts[j].start, ts[j].end)
    ensures InSlotOrder(SelectedPairs(ts, ids))
    decreases |ts|
  {
    if ts != [] {
      var t := ts[|ts| - 1];
      var front := ts[..|ts| - 1];
      SelectedPairsInOrder(front, ids);
      SelectedPairsBelow(front, ids, Global(t.start, t.end));
    }
  }

  /** The iterator lists the stored connections in slot order. */
  lemma TriplesInOrder(c: Connections)
    ensures forall i, j | 0 <= i < j < |Triples(c)| ::
      Global(Triples(c)[i].start, Triples(c)[i].end) < Global(Triples(c)[j].start, Triples(c)[j].end)
  {
    TriplesFromSound(c.items, 0);
  }

  /** The iterator's listing holds, for each pair, exactly the connection of its slot. */
  lemma LastOfTriples(c: Connections, a: nat, b: nat)
    requires c.Valid() && a < c.size && b < c.size
    ensures Last(Triples(c), a, b) == c.Slot(a, b)
  {
    LastTriplesFrom(c.items, 0, a, b);
    GlobalInRange(a, b, c.size);
  }

  /** With no pair collected twice, each collected pair is transformed once and
      every other slot is left alone. */
  lemma {:induction false} RetargetAllSlot(c: Connections, ps: seq<(nat, nat)>, f: ConnectionOrientation -> ConnectionOrientation, a: nat, b: nat)
    requires c.Valid() && InSlotOrder(ps) && a < c.size && b < c.size
    ensures RetargetAll(c, ps, f).Slot(a, b) == if (a, b) in ps then Retarget(c.Slot(a, b), f) else c.Slot(a, b)
    decreases |ps|
  {
    if ps != [] {
      var front := ps[..|ps| - 1];
      var p := ps[|ps| - 1];
      RetargetAllSlot(c, front, f, a, b);
      if p == (a, b) {
        assert (a, b) !in front;
      } else {
        assert (a, b) in ps <==> (a, b) in front;
      }
    }
  }

  /** After changing the orientation of an area, a stored connection between
      two selected vertices has its orientation transformed, once; every other
      slot is as it was. */
  lemma AreaOrientation(w: Workspace, f: ConnectionOrientation -> ConnectionOrientation, a: nat, b: nat)
    requires w.Inv() && w.selection.Some? && w.selection.value.AreaSelected?
    requires a < |w.data.vertices| && b < |w.data.vertices|
    ensures var ids := w.selection.value.ids; var c := w.data.connections;
      ChangeOrientationOfSelection(w, f).data.connections.Slot(a, b) ==
        if a in ids && b in ids then Retarget(c.Slot(a, b), f) else c.Slot(a, b)
  {
    var ids := w.selection.value.ids;
    var c := w.data.connections;
    var ps := SelectedPairs(Triples(c), ids);
    TriplesInOrder(c);
    SelectedPairsInOrder(Triples(c), ids);
    InSelectedPairs(Triples(c), ids, a, b);
    LastOfTriples(c, a, b);
    RetargetAllSlot(c, ps, f, a, b);
  }

  /** After changing the orientation of the selected connection, it alone has
      its orientation transformed. */
  lemma EdgeOrientation(w: Workspace, f: ConnectionOrientation -> ConnectionOrientation, a: nat, b: nat)
    requires w.Inv() && w.selection.Some? && w.selection.value.EdgeSelected?
    requires a < |w.data.vertices| && b < |w.data.vertices|
    ensures var s := w.selection.value; var c := w.data.connections;
      ChangeOrientationOfSelection(w, f).data.connections.Slot(a, b) ==
        if a == s.a && b == s.b then Retarget(c.Slot(a, b), f) else c.Slot(a, b)
  {
  }

  /** Changing the orientation twice with an involution (such as
      `ConnectionOrientation::inverse`) gives the workspace back. */
  lemma OrientationTwiceUndoes(w: Workspace, f: ConnectionOrientation -> ConnectionOrientation)
    requires w.Inv() && forall o: ConnectionOrientation :: f(f(o)) == o
    ensures ChangeOrientationOfSelection(ChangeOrientationOfSelection(w, f), f) == w
  {
    var once := ChangeOrientationOfSelection(w, f);
    var twice := ChangeOrientationOfSelection(once, f);
    var c := w.data.connections;
    if w.selection.Some? && !w.selection.value.VertexSelected? {
      forall a: nat, b: nat | a < c.size && b < c.size
        ensures twice.data.connections.Slot(a, b) == c.Slot(a, b)
      {
        if w.selection.value.AreaSelected? {
          AreaOrientation(w, f, a, b);
          AreaOrientation(once, f, a, b);
        } else {
          EdgeOrientation(w, f, a, b);
          EdgeOrientation(once, f, a, b);
        }
      }
      SlotsDetermine(twice.data.connections, c);
    }
  }
}
