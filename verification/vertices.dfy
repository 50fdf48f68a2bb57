/** The vertex list (`model/vertices.rs`): vertices are addressed by their
    position in the list, so removing one renumbers every vertex after it. */
module VertexList {
  import opened Wrappers

  /** `Vertices::add`: append, and hand out the new vertex's id. */
  function Add<V>(items: seq<V>, v: V): (r: (seq<V>, nat))
    ensures |r.0| == |items| + 1 && r.1 + 1 == |r.0|
    ensures r.0[r.1] == v && r.0[..|items|] == items
  {
    (items + [v], |items|)
  }

  /** `Vertices::remove`: out of range nothing happens; otherwise the vertex is
      taken out, those before it keep their ids and those after it move down one. */
  function Remove<V>(items: seq<V>, id: nat): (r: (seq<V>, Option<V>))
    ensures r.1.None? <==> id >= |items|
    ensures id >= |items| ==> r.0 == items
    ensures id < |items| ==> r.1 == Some(items[id]) && |r.0| + 1 == |items|
    ensures id < |items| ==> forall i | 0 <= i < id :: r.0[i] == items[i]
    ensures id < |items| ==> forall i | id <= i < |r.0| :: r.0[i] == items[i + 1]
  {
    if id >= |items| then (items, None) else (items[..id] + items[id + 1..], Some(items[id]))
  }

  /** `Vertices::len`. */
  function Len<V>(items: seq<V>): nat {
    |items|
  }

  /** Adding counts one more vertex, removing one in range counts one fewer. */
  lemma LenCounts<V>(items: seq<V>, v: V, id: nat)
    ensures Len(Add(items, v).0) == Len(items) + 1
    ensures id < Len(items) ==> Len(Remove(items, id).0) + 1 == Len(items)
    ensures id >= Len(items) ==> Len(Remove(items, id).0) == Len(items)
  {
  }

  /** Removing the vertex just added gives the list back. */
  lemma RemoveAdded<V>(items: seq<V>, v: V)
    ensures Remove(Add(items, v).0, Add(items, v).1) == (items, Some(v))
  {
    var (r, id) := Add(items, v);
    assert r[..id] + r[id + 1..] == items;
  }

  /** Putting the removed vertex back at its id restores the list. */
  lemma RemoveReinsert<V>(items: seq<V>, id: nat)
    requires id < |items|
    ensures Remove(items, id).0[..id] + [items[id]] + Remove(items, id).0[id..] == items
  {
    var r := Remove(items, id).0;
    assert r[..id] == items[..id];
    assert r[id..] == items[id + 1..];
  }
}
