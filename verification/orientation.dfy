/** Connection orientations and connection descriptors (`model/connection.rs`).

    Two points and a radius admit two circle centres (left or right of the directed
    chord) and, per centre, a minor ("inner") and a major ("outer") arc.  The four
    orientations enumerate those choices; `IsLeft` says which way the arc bulges. */
module Orientations {

  datatype ConnectionOrientation = InnerRight | InnerLeft | OuterRight | OuterLeft {

    predicate IsLeft() {
      InnerLeft? || OuterLeft?
    }

    predicate IsInner() {
      InnerRight? || InnerLeft?
    }

    /** Whether the centre of the arc lies left of the chord from start to end:
        a minor arc bulging right has its centre on the left, and vice versa. */
    predicate CenterIsLeft()
      ensures CenterIsLeft() <==> (IsLeft() == IsInner())
    {
      InnerLeft? || OuterRight?
    }

    /** The orientation that completes the circle: the other arc on the same circle. */
    function Inverse(): (r: ConnectionOrientation)
      ensures r.IsLeft() != IsLeft() && r.IsInner() != IsInner()
      ensures r.CenterIsLeft() == CenterIsLeft()
    {
      match this
      case InnerRight => OuterLeft
      case InnerLeft => OuterRight
      case OuterRight => InnerLeft
      case OuterLeft => InnerRight
    }

    /** The mirror image across the chord: bulges the other way, same arc kind. */
    function Flipped(): (r: ConnectionOrientation)
      ensures r.IsLeft() != IsLeft() && r.IsInner() == IsInner()
    {
      match this
      case InnerRight => InnerLeft
      case InnerLeft => InnerRight
      case OuterRight => OuterLeft
      case OuterLeft => OuterRight
    }

    /** The other arc kind (minor/major) bulging to the same side; the centre
        therefore moves to the other side of the chord. */
    function Everted(): (r: ConnectionOrientation)
      ensures r.IsInner() != IsInner() && r.IsLeft() == IsLeft()
      ensures r.CenterIsLeft() != CenterIsLeft()
    {
      match this
      case InnerRight => OuterRight
      case InnerLeft => OuterLeft
      case OuterRight => InnerRight
      case OuterLeft => InnerLeft
    }
  }

  /** An orientation is determined by the two predicates `IsLeft` and `IsInner`. */
  lemma DeterminedByPredicates(o: ConnectionOrientation, p: ConnectionOrientation)
    requires o.IsLeft() == p.IsLeft() && o.IsInner() == p.IsInner()
    ensures o == p
  {
  }

  /** `Inverse`, `Flipped` and `Everted` are involutions. */
  lemma Involutions(o: ConnectionOrientation)
    ensures o.Inverse().Inverse() == o
    ensures o.Flipped().Flipped() == o
    ensures o.Everted().Everted() == o
  {
    DeterminedByPredicates(o.Inverse().Inverse(), o);
    DeterminedByPredicates(o.Flipped().Flipped(), o);
    DeterminedByPredicates(o.Everted().Everted(), o);
  }

  /** Completing the circle is mirroring and then swapping the arc kind, in either order. */
  lemma InverseIsFlipThenEvert(o: ConnectionOrientation)
    ensures o.Inverse() == o.Flipped().Everted()
    ensures o.Inverse() == o.Everted().Flipped()
  {
    DeterminedByPredicates(o.Inverse(), o.Flipped().Everted());
    DeterminedByPredicates(o.Inverse(), o.Everted().Flipped());
  }

  /** A stored connection: its orientation and the index of its size class. */
  datatype Connection = Connection(orientation: ConnectionOrientation, size: nat) {

    /** `Connection::invert`: switch to the arc that completes the circle. */
    function Invert(): (r: Connection)
      ensures r.size == size && r.orientation.Inverse() == orientation
    {
      Involutions(orientation);
      Connection(orientation.Inverse(), size)
    }

    /** `Connection::flip`: mirror the arc across its chord. */
    function Flip(): (r: Connection)
      ensures r.size == size && r.orientation.Flipped() == orientation
    {
      Involutions(orientation);
      Connection(orientation.Flipped(), size)
    }

    /** `Connection::evert`: swap minor and major arc. */
    function Evert(): (r: Connection)
      ensures r.size == size && r.orientation.Everted() == orientation
    {
      Involutions(orientation);
      Connection(orientation.Everted(), size)
    }
  }
}
