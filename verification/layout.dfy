/** The layered addressing scheme of the connection matrix.

    Layer `L` holds every ordered pair whose larger id is `L`; it starts at global
    slot `L * L` and has `2 * L + 1` slots.  Inside layer `L` the pair `(L, e)` with
    `e <= L` sits at in-layer index `e` and the pair `(s, L)` with `s < L` sits at
    in-layer index `2 * L - s`.  Growing the matrix by one vertex appends one layer. */
module Layout {

  function Max(a: nat, b: nat): nat {
    if a < b then b else a
  }

  /** The offset of layer `x`: the number of slots of all lower layers, which is
      `x * x` (see `SqIsSquare`).  Defined by layer sizes so that proofs about
      offsets stay linear. */
  function Sq(x: nat): nat {
    if x == 0 then 0 else Sq(x - 1) + 2 * x - 1
  }

  lemma SqSucc(x: nat)
    ensures Sq(x + 1) == Sq(x) + 2 * x + 1
  {
  }

  /** The layer offset is the square of the layer id (`layer_id.pow(2)`). */
  lemma {:induction false} SqIsSquare(x: nat)
    ensures Sq(x) == x * x
  {
    if x > 0 {
      SqIsSquare(x - 1);
      calc {
        Sq(x);
        (x - 1) * (x - 1) + 2 * x - 1;
        x * x;
      }
    }
  }

  /** Squaring is monotone on the naturals. */
  lemma {:induction false} SqMonotone(a: nat, b: nat)
    requires a <= b
    ensures Sq(a) <= Sq(b)
  {
    if a < b {
      SqMonotone(a, b - 1);
      SqSucc(b - 1);
    }
  }

  /** Above layer 0 every layer has at least two slots, so offsets grow by at least two per layer. */
  lemma {:induction false} SqGap(a: nat, b: nat)
    requires 1 <= a <= b
    ensures Sq(a) + 2 * (b - a) <= Sq(b)
  {
    if a < b {
      SqGap(a, b - 1);
      SqSucc(b - 1);
    }
  }

  /** Every natural lies between exactly one pair of consecutive squares. */
  lemma LayerUnique(k: nat, a: nat, b: nat)
    requires Sq(a) <= k < Sq(a + 1)
    requires Sq(b) <= k < Sq(b + 1)
    ensures a == b
  {
    if a < b {
      SqMonotone(a + 1, b);
    } else if b < a {
      SqMonotone(b + 1, a);
    }
  }

  /** The global slot of the pair (start `s`, end `e`): `Connections::yx_to_global`. */
  function Global(s: nat, e: nat): (k: nat)
    ensures Sq(Max(s, e)) <= k < Sq(Max(s, e) + 1)
  {
    SqSucc(Max(s, e));
    if e > s then Sq(e) + (2 * e - s) else Sq(s) + e
  }

  /** The layer holding slot `k`, found by counting layers up from `from`. */
  function LayerFrom(k: nat, from: nat): (layer: nat)
    requires Sq(from) <= k
    ensures Sq(layer) <= k < Sq(layer + 1)
    decreases k - from
  {
    SqSucc(from);
    if k < Sq(from + 1) then from else LayerFrom(k, from + 1)
  }

  function LayerOf(k: nat): (layer: nat)
    ensures Sq(layer) <= k < Sq(layer + 1)
  {
    LayerFrom(k, 0)
  }

  /** The pair decoded from an in-layer index, as the matrix iterators compute it:
      indices up to the layer id are `(layer, i)`, later ones are `(2 * layer - i, layer)`. */
  function InLayerPair(layer: nat, i: nat): (nat, nat)
    requires i <= 2 * layer
  {
    if i <= layer then (layer, i) else (2 * layer - i, layer)
  }

  /** The pair stored in global slot `k`: the inverse of `Global`. */
  function Decode(k: nat): (p: (nat, nat))
    ensures Global(p.0, p.1) == k
    ensures Max(p.0, p.1) == LayerOf(k)
  {
    var layer := LayerOf(k);
    SqSucc(layer);
    InLayerPair(layer, k - Sq(layer))
  }

  /** Decoding from a known layer and in-layer index agrees with `Decode`. */
  lemma DecodeAt(k: nat, layer: nat, i: nat)
    requires Sq(layer) + i == k && i <= 2 * layer
    ensures Decode(k) == InLayerPair(layer, i)
  {
    SqSucc(layer);
    LayerUnique(k, layer, LayerOf(k));
  }

  /** `Decode` undoes `Global`. */
  lemma DecodeGlobal(s: nat, e: nat)
    ensures Decode(Global(s, e)) == (s, e)
  {
    var layer := Max(s, e);
    if e > s {
      DecodeAt(Global(s, e), layer, 2 * e - s);
    } else {
      DecodeAt(Global(s, e), layer, e);
    }
  }

  /** Distinct pairs occupy distinct slots. */
  lemma GlobalInjective(a: nat, b: nat, c: nat, d: nat)
    requires Global(a, b) == Global(c, d)
    ensures a == c && b == d
  {
    DecodeGlobal(a, b);
    DecodeGlobal(c, d);
  }

  /** A pair and its reverse never share a slot, so both directions are stored separately. */
  lemma OppositeSlotsDiffer(a: nat, b: nat)
    requires a != b
    ensures Global(a, b) != Global(b, a)
  {
    if Global(a, b) == Global(b, a) {
      GlobalInjective(a, b, b, a);
    }
  }

  /** The self slot of vertex `L` sits in the middle of its layer. */
  lemma SelfSlot(layer: nat)
    ensures Global(layer, layer) == Sq(layer) + layer
  {
  }

  /** Pairs of ids below `n` land exactly in the first `n * n` slots. */
  lemma GlobalInRange(s: nat, e: nat, n: nat)
    ensures Global(s, e) < Sq(n) <==> s < n && e < n
  {
    if s < n && e < n {
      SqMonotone(Max(s, e) + 1, n);
    } else {
      SqMonotone(n, Max(s, e));
    }
  }

  /** `GlobalInRange` for every pair at once. */
  lemma GlobalInRangeAll(n: nat)
    ensures forall s: nat, e: nat {:trigger Global(s, e)} :: Global(s, e) < Sq(n) <==> s < n && e < n
  {
    forall s: nat, e: nat
      ensures Global(s, e) < Sq(n) <==> s < n && e < n
    {
      GlobalInRange(s, e, n);
    }
  }

  /** `Global` is a bijection between `[0, n)^2` and `[0, n * n)`, with inverse `Decode`. */
  lemma GlobalBijection(n: nat)
    ensures forall s: nat, e: nat | s < n && e < n :: Global(s, e) < Sq(n) && Decode(Global(s, e)) == (s, e)
    ensures forall k: nat | k < Sq(n) :: Decode(k).0 < n && Decode(k).1 < n && Global(Decode(k).0, Decode(k).1) == k
  {
    forall s: nat, e: nat | s < n && e < n
      ensures Global(s, e) < Sq(n) && Decode(Global(s, e)) == (s, e)
    {
      GlobalInRange(s, e, n);
      DecodeGlobal(s, e);
    }
    forall k: nat | k < Sq(n)
      ensures Decode(k).0 < n && Decode(k).1 < n
    {
      GlobalInRange(Decode(k).0, Decode(k).1, n);
    }
  }
}
