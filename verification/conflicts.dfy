/** The conflict filter (`Data::conflicts` in `model/data.rs`): every ordered pair
    of distinct arcs is intersected, and the crossings that are not explained by
    the two arcs meeting at a shared vertex are reported.  The geometry is not
    modelled: how two arcs intersect and on which side of the line between their
    centers a vertex lies are inputs. */
module Conflicts {
  import opened Wrappers

  /** `ArcIntersection`: apart; touching once where only one point is possible;
      up to two points, the one left and the one right of the line from the first
      arc's center to the other's; or concentric. */
  datatype ArcIntersection<P> =
    | Apart
    | One(point: P)
    | Two(left: Option<P>, right: Option<P>)
    | Concentric

  /** One drawn connection: its end points and its arc. */
  datatype Curve<A> = Curve(start: nat, end: nat, arc: A)

  /** A reported crossing: the two connections and the point. */
  datatype Conflict<P> = Conflict(first: (nat, nat), second: (nat, nat), point: P)

  /** What the filter asks of geometry.  `intersect(x, y)` is
      `x.intersection_with(y)`; `isRight(x, y, v)` says whether vertex `v` lies
      right of the line from `x`'s center to `y`'s center; `vertexCount` is how
      many vertices `get` finds. */
  datatype Geometry<!A, P> = Geometry(intersect: (A, A) -> ArcIntersection<P>, isRight: (A, A, nat) -> bool, vertexCount: nat)

  predicate SamePair<A>(x: Curve<A>, y: Curve<A>) {
    (y.start == x.start && y.end == x.end) || (y.start == x.end && y.end == x.start)
  }

  predicate SharesVertex<A>(x: Curve<A>, y: Curve<A>) {
    x.start == y.start || x.start == y.end || x.end == y.start || x.end == y.end
  }

  /** The vertex the closure looks at: `x`'s start if `y` touches it, else `x`'s
      end if `y` touches that. */
  function SharedVertex<A>(x: Curve<A>, y: Curve<A>): (v: Option<nat>)
    ensures v.None? <==> !SharesVertex(x, y)
    ensures v.Some? ==> (v.value == x.start || v.value == x.end) && (v.value == y.start || v.value == y.end)
    ensures v.Some? && (y.start == x.start || y.end == x.start) ==> v.value == x.start
  {
    if y.start == x.start || y.end == x.start then Some(x.start)
    else if y.start == x.end || y.end == x.end then Some(x.end)
    else None
  }

  /** `collision_is_connection(side)`: whether the candidate crossing on `side`
      is just the two arcs meeting at their shared vertex. */
  function CollisionIsConnection<A, P>(g: Geometry<A, P>, x: Curve<A>, y: Curve<A>, side: bool): (r: bool)
    ensures SamePair(x, y) ==> r
    ensures !SharesVertex(x, y) ==> !r
    ensures !SamePair(x, y) && r ==> SharedVertex(x, y).Some? && SharedVertex(x, y).value < g.vertexCount
  {
    if SamePair(x, y) then true
    else
      match SharedVertex(x, y)
      case None => false
      case Some(v) => v < g.vertexCount && g.isRight(x.arc, y.arc, v) == side
  }

  /** The candidate on one side, reported unless it is the shared vertex. */
  function Candidate<A, P>(g: Geometry<A, P>, x: Curve<A>, y: Curve<A>, p: Option<P>, side: bool): (r: seq<Conflict<P>>)
    ensures |r| <= 1
    ensures |r| == 1 <==> p.Some? && !CollisionIsConnection(g, x, y, side)
    ensures |r| == 1 ==> r[0] == Conflict((x.start, x.end), (y.start, y.end), p.value)
  {
    if p.Some? && !CollisionIsConnection(g, x, y, side) then [Conflict((x.start, x.end), (y.start, y.end), p.value)] else []
  }

  /** What one ordered pair of connections reports. */
  function PairConflicts<A, P>(g: Geometry<A, P>, x: Curve<A>, y: Curve<A>): (r: seq<Conflict<P>>)
    ensures |r| <= 2
  {
    match g.intersect(x.arc, y.arc)
    case Apart => []
    case One(p) => if SharesVertex(x, y) then [] else [Conflict((x.start, x.end), (y.start, y.end), p)]
    case Two(l, r) => Candidate(g, x, y, l, false) + Candidate(g, x, y, r, true)
    case Concentric => []
  }

  /** Apart and concentric arcs never conflict; a single touching point is
      reported exactly when the connections share no vertex. */
  lemma OneRule<A, P>(g: Geometry<A, P>, x: Curve<A>, y: Curve<A>)
    ensures g.intersect(x.arc, y.arc).Apart? || g.intersect(x.arc, y.arc).Concentric? ==> PairConflicts(g, x, y) == []
    ensures g.intersect(x.arc, y.arc).One? ==>
      (PairConflicts(g, x, y) != [] <==> !SharesVertex(x, y))
    ensures g.intersect(x.arc, y.arc).One? && !SharesVertex(x, y) ==>
      PairConflicts(g, x, y) == [Conflict((x.start, x.end), (y.start, y.end), g.intersect(x.arc, y.arc).point)]
  {
  }

  /** Two possible points: the left one is reported when present and not the
      shared vertex seen from the left, the right one likewise, left first.  Arcs
      over the same two vertices report nothing; arcs sharing no vertex report
      every point present. */
  lemma TwoRule<A, P>(g: Geometry<A, P>, x: Curve<A>, y: Curve<A>, p: P)
    requires g.intersect(x.arc, y.arc).Two?
    ensures var i := g.intersect(x.arc, y.arc);
      Conflict((x.start, x.end), (y.start, y.end), p) in PairConflicts(g, x, y) <==>
        (i.left == Some(p) && !CollisionIsConnection(g, x, y, false)) ||
        (i.right == Some(p) && !CollisionIsConnection(g, x, y, true))
    ensures SamePair(x, y) ==> PairConflicts(g, x, y) == []
    ensures var i := g.intersect(x.arc, y.arc);
      !SharesVertex(x, y) ==>
        PairConflicts(g, x, y) == (if i.left.Some? then [Conflict((x.start, x.end), (y.start, y.end), i.left.value)] else [])
                                 + (if i.right.Some? then [Conflict((x.start, x.end), (y.start, y.end), i.right.value)] else [])
  {
  }

  /** At a shared vertex that `get` finds, the candidate on the side the vertex
      lies on is dropped and the one on the other side is kept. */
  lemma SharedVertexSide<A, P>(g: Geometry<A, P>, x: Curve<A>, y: Curve<A>)
    requires SharesVertex(x, y) && !SamePair(x, y)
    requires SharedVertex(x, y).value < g.vertexCount
    ensures var side := g.isRight(x.arc, y.arc, SharedVertex(x, y).value);
      CollisionIsConnection(g, x, y, side) && !CollisionIsConnection(g, x, y, !side)
  {
  }

  // ---------------------------------------------------------------------
  // The whole filter

  /** What every ordered pair of positions reports, `[]` off the list. */
  function PairTable<A, P>(g: Geometry<A, P>, arcs: seq<Curve<A>>): (f: (nat, nat) -> seq<Conflict<P>>)
    ensures forall i: nat, j: nat | i < |arcs| && j < |arcs| :: f(i, j) == PairConflicts(g, arcs[i], arcs[j])
  {
    (i: nat, j: nat) => if i < |arcs| && j < |arcs| then PairConflicts(g, arcs[i], arcs[j]) else []
  }

  /** What position `i` reports against the positions before `n`, skipping itself. */
  function Row<T>(f: (nat, nat) -> seq<T>, i: nat, n: nat): seq<T> {
    if n == 0 then [] else Row(f, i, n - 1) + (if n - 1 == i then [] else f(i, n - 1))
  }

  /** What the first `m` of `n` positions report, each against every other one. */
  function UpTo<T>(f: (nat, nat) -> seq<T>, m: nat, n: nat): seq<T> {
    if m == 0 then [] else UpTo(f, m - 1, n) + Row(f, m - 1, n)
  }

  /** The reference order: pairs `(i, j)` in nested order, `i == j` skipped. */
  function AllConflicts<A, P>(g: Geometry<A, P>, arcs: seq<Curve<A>>): seq<Conflict<P>> {
    UpTo(PairTable(g, arcs), |arcs|, |arcs|)
  }

  /** `Data::conflicts`: every pair of arcs in nested visiting order. */
  method FindConflicts<A, P>(g: Geometry<A, P>, arcs: seq<Curve<A>>) returns (out: seq<Conflict<P>>)
    ensures out == AllConflicts(g, arcs)
  {
    out := VisitPairs(PairTable(g, arcs), |arcs|);
  }

  /** The two nested loops of `Data::conflicts`: for each `i`, for each `j`,
      skipping `i == j`, append what the pair reports. */
  method VisitPairs<T>(f: (nat, nat) -> seq<T>, n: nat) returns (out: seq<T>)
    ensures out == UpTo(f, n, n)
  {
    out := [];
    var i := 0;
    while i < n
      invariant 0 <= i <= n
      invariant out == UpTo(f, i, n)
    {
      var row := VisitRow(f, i, n);
      out := out + row;
      i := i + 1;
    }
  }

  /** The inner loop of `Data::conflicts`: position `i` against every other
      position before `n`. */
  method VisitRow<T>(f: (nat, nat) -> seq<T>, i: nat, n: nat) returns (row: seq<T>)
    ensures row == Row(f, i, n)
  {
    row := [];
    var j := 0;
    while j < n
      invariant 0 <= j <= n
      invariant row == Row(f, i, j)
    {
      if i != j {
        row := row + f(i, j);
      }
      j := j + 1;
    }
  }

  /** Position `i` reports `c` against position `j`, a different one. */
  ghost predicate Reports<T>(f: (nat, nat) -> seq<T>, i: nat, j: nat, c: T) {
    i != j && c in f(i, j)
  }

  /** An item is in position `i`'s row exactly when some other position before
      `n` reports it against `i`. */
  lemma {:induction false} InRow<T>(f: (nat, nat) -> seq<T>, i: nat, n: nat, c: T)
    ensures c in Row(f, i, n) <==> exists j: nat | j < n :: Reports(f, i, j, c)
  {
    if n > 0 {
      InRow(f, i, n - 1, c);
      if Reports(f, i, n - 1, c) {
        assert c in Row(f, i, n);
      }
    }
  }

  /** Whatever the first `m` positions report lies in one of their rows ... */
  lemma {:induction false} UpToHasRow<T>(f: (nat, nat) -> seq<T>, m: nat, n: nat, c: T)
    requires c in UpTo(f, m, n)
    ensures exists i: nat | i < m :: c in Row(f, i, n)
  {
    if c in Row(f, m - 1, n) {
      assert m - 1 < m;
    } else {
      UpToHasRow(f, m - 1, n, c);
      var i: nat :| i < m - 1 && c in Row(f, i, n);
      assert i < m;
    }
  }

  /** ... and everything in one of their rows is reported. */
  lemma {:induction false} RowInUpTo<T>(f: (nat, nat) -> seq<T>, i: nat, m: nat, n: nat, c: T)
    requires i < m && c in Row(f, i, n)
    ensures c in UpTo(f, m, n)
  {
    if i < m - 1 {
      RowInUpTo(f, i, m - 1, n, c);
    }
    InConcat(UpTo(f, m - 1, n), Row(f, m - 1, n), c);
  }

  /** Membership in a concatenation. */
  lemma InConcat<T>(a: seq<T>, b: seq<T>, c: T)
    requires c in a || c in b
    ensures c in a + b
  {
    if c in b {
      var k :| 0 <= k < |b| && b[k] == c;
      assert (a + b)[|a| + k] == c;
    }
  }

  /** Every reported conflict comes from two different arcs of the list, and
      every conflict some ordered pair of different arcs reports is reported. */
  lemma ConflictsComplete<A, P>(g: Geometry<A, P>, arcs: seq<Curve<A>>, c: Conflict<P>)
    ensures c in AllConflicts(g, arcs) <==>
      exists i: nat, j: nat | i < |arcs| && j < |arcs| :: i != j && c in PairConflicts(g, arcs[i], arcs[j])
  {
    var f := PairTable(g, arcs);
    if c in AllConflicts(g, arcs) {
      UpToHasRow(f, |arcs|, |arcs|, c);
      var i: nat :| i < |arcs| && c in Row(f, i, |arcs|);
      InRow(f, i, |arcs|, c);
      var j: nat :| j < |arcs| && Reports(f, i, j, c);
      assert i != j && c in PairConflicts(g, arcs[i], arcs[j]);
    }
    if exists i: nat, j: nat | i < |arcs| && j < |arcs| :: i != j && c in PairConflicts(g, arcs[i], arcs[j]) {
      var i: nat, j: nat :| i < |arcs| && j < |arcs| && i != j && c in PairConflicts(g, arcs[i], arcs[j]);
      assert Reports(f, i, j, c);
      InRow(f, i, |arcs|, c);
      RowInUpTo(f, i, |arcs|, |arcs|, c);
    }
  }

  /** A conflict names two connections of the list, found at two different
      positions. */
  lemma ConflictsNameArcs<A, P>(g: Geometry<A, P>, arcs: seq<Curve<A>>, c: Conflict<P>)
    requires c in AllConflicts(g, arcs)
    ensures exists i: nat, j: nat | i < |arcs| && j < |arcs| ::
      i != j && c.first == (arcs[i].start, arcs[i].end) && c.second == (arcs[j].start, arcs[j].end)
  {
    ConflictsComplete(g, arcs, c);
    var i: nat, j: nat :| i < |arcs| && j < |arcs| && i != j && c in PairConflicts(g, arcs[i], arcs[j]);
    PairConflictsName(g, arcs[i], arcs[j], c);
  }

  /** Every conflict a pair reports names that pair, first arc first. */
  lemma PairConflictsName<A, P>(g: Geometry<A, P>, x: Curve<A>, y: Curve<A>, c: Conflict<P>)
    requires c in PairConflicts(g, x, y)
    ensures c.first == (x.start, x.end) && c.second == (y.start, y.end)
  {
  }

  /** A single arc conflicts with nothing. */
  lemma SingleArcNoConflicts<A, P>(g: Geometry<A, P>, x: Curve<A>)
    ensures AllConflicts(g, [x]) == []
  {
    var f := PairTable(g, [x]);
    assert Row(f, 0, 1) == Row(f, 0, 0) + [];
    assert UpTo(f, 1, 1) == UpTo(f, 0, 1) + Row(f, 0, 1);
  }
}
