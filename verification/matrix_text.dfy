/** The line-based text format of the connection matrix (`ConnectionRepresentation`
    and `Connections` `to_string`/`from_str`): one line `start end word size` per
    stored connection, ids and size classes written 1-based. */
module MatrixText {
  import opened Wrappers
  import opened Layout
  import opened Text
  import opened Orientations
  import opened Matrix

  /** The orientation words of the format. */
  function Word(o: ConnectionOrientation): (w: string)
    ensures IsToken(w)
  {
    match o
    case InnerRight => "right"
    case InnerLeft => "left"
    case OuterRight => "Right"
    case OuterLeft => "Left"
  }

  /** Reads an orientation word; any other token is an error. */
  function ParseWord(w: string): (r: Result<ConnectionOrientation>)
    ensures r.Ok? <==> w == "right" || w == "left" || w == "Right" || w == "Left"
  {
    if w == "right" then Ok(InnerRight)
    else if w == "left" then Ok(InnerLeft)
    else if w == "Right" then Ok(OuterRight)
    else if w == "Left" then Ok(OuterLeft)
    else Err
  }

  /** Each orientation has its own word, and reading it gives the orientation back. */
  lemma WordRoundTrip(o: ConnectionOrientation)
    ensures ParseWord(Word(o)) == Ok(o)
  {
  }

  /** The four tokens of a line: 1-based start and end, the word, the 1-based size class. */
  function Tokens(t: Triple): (ts: seq<string>)
    ensures |ts| == 4 && forall i | 0 <= i < 4 :: IsToken(ts[i])
  {
    [NatToString(t.start + 1), NatToString(t.end + 1), Word(t.conn.orientation), NatToString(t.conn.size + 1)]
  }

  /** `ConnectionRepresentation::to_string`. */
  function FormatTriple(t: Triple): string {
    Join(Tokens(t), " ")
  }

  lemma JoinFour(ts: seq<string>, sep: string)
    requires |ts| == 4
    ensures Join(ts, sep) == ts[0] + sep + (ts[1] + sep + (ts[2] + sep + ts[3]))
  {
    var t1, t2, t3 := ts[1..], ts[2..], ts[3..];
    assert t1[1..] == t2 && t2[1..] == t3 && |t3| == 1;
    assert Join(t3, sep) == ts[3];
    assert Join(t2, sep) == ts[2] + sep + ts[3];
    assert Join(t1, sep) == ts[1] + sep + (ts[2] + sep + ts[3]);
  }

  /** A formatted line is one line `lines` hands back unchanged. */
  lemma FormatTriplePlain(t: Triple)
    ensures IsPlainLine(FormatTriple(t))
  {
    var ts := Tokens(t);
    JoinFour(ts, " ");
    assert IsWhitespace('\n');
    assert '\n' !in ts[0] && '\n' !in ts[1] && '\n' !in ts[2] && '\n' !in ts[3];
    var last := NatToString(t.conn.size + 1);
    assert FormatTriple(t)[|FormatTriple(t)| - 1] == last[|last| - 1];
  }

  /** `ConnectionRepresentation::from_str` exactly as written: the numbers are
      read as `usize` and then decremented, so a `0` token has no valid result
      (a debug build panics, a release build wraps to `usize::MAX`).  The
      decremented values are kept as integers to show where they go below zero. */
  datatype RawRepresentation = RawRepresentation(start: int, end: int, orientation: ConnectionOrientation, size: int)

  function ParseTripleAsWritten(line: string): (r: Result<RawRepresentation>)
    ensures |SplitWhitespace(line)| < 4 ==> r.Err?
    ensures r.Ok? ==> r.value.start >= -1 && r.value.end >= -1 && r.value.size >= -1
    ensures r.Ok? ==>
      |SplitWhitespace(line)| >= 4
      && ParseNat(SplitWhitespace(line)[0]) == Ok(r.value.start + 1)
      && ParseNat(SplitWhitespace(line)[1]) == Ok(r.value.end + 1)
      && ParseWord(SplitWhitespace(line)[2]) == Ok(r.value.orientation)
      && ParseNat(SplitWhitespace(line)[3]) == Ok(r.value.size + 1)
  {
    var parts := SplitWhitespace(line);
    if |parts| < 4 then Err
    else
      match (ParseNat(parts[0]), ParseNat(parts[1]), ParseNat(parts[3]))
      case (Ok(s), Ok(e), Ok(z)) =>
        (match ParseWord(parts[2])
         case Ok(o) => Ok(RawRepresentation(s as int - 1, e as int - 1, o, z as int - 1))
         case Err => Err)
      case _ => Err
  }

  /** The tokens of `t`'s line with the start token replaced by `0`. */
  function ZeroStartTokens(t: Triple): (ts: seq<string>)
    ensures |ts| == 4 && forall i | 0 <= i < 4 :: IsToken(ts[i])
  {
    ["0", NatToString(t.end + 1), Word(t.conn.orientation), NatToString(t.conn.size + 1)]
  }

  lemma ZeroNumeral()
    ensures ParseNat("0") == Ok(0)
  {
    assert DigitsValue("0") == 0;
  }

  /** A line whose start token is `0`: as written it parses, to a start one below
      the smallest id; every other field is read as usual. */
  lemma ZeroIdUnderflows(t: Triple)
    ensures ParseTripleAsWritten(Join(ZeroStartTokens(t), " "))
      == Ok(RawRepresentation(-1, t.end, t.conn.orientation, t.conn.size))
  {
    var ts := ZeroStartTokens(t);
    SplitWhitespaceJoin(ts);
    ZeroNumeral();
    ParseNatToString(t.end + 1);
    ParseNatToString(t.conn.size + 1);
    WordRoundTrip(t.conn.orientation);
    AsWrittenFromTokens(Join(ts, " "), 0, t.end + 1, t.conn.orientation, t.conn.size + 1);
  }

  /** A line whose first four tokens read as the numbers `s`, `e`, `z` and an
      orientation word reads, as written, as those numbers less one. */
  lemma AsWrittenFromTokens(line: string, s: nat, e: nat, o: ConnectionOrientation, z: nat)
    requires |SplitWhitespace(line)| >= 4
    requires ParseNat(SplitWhitespace(line)[0]) == Ok(s) && ParseNat(SplitWhitespace(line)[1]) == Ok(e)
    requires ParseWord(SplitWhitespace(line)[2]) == Ok(o) && ParseNat(SplitWhitespace(line)[3]) == Ok(z)
    ensures ParseTripleAsWritten(line) == Ok(RawRepresentation(s - 1, e - 1, o, z - 1))
  {
  }

  /** `ConnectionRepresentation::from_str`, rejecting the `0` tokens that have no
      1-based meaning.  Tokens past the fourth are ignored, as in the source. */
  function ParseTriple(line: string): (r: Result<Triple>)
    ensures |SplitWhitespace(line)| < 4 ==> r.Err?
    ensures |SplitWhitespace(line)| >= 4 && ParseWord(SplitWhitespace(line)[2]).Err? ==> r.Err?
    ensures r.Ok? ==>
      |SplitWhitespace(line)| >= 4
      && ParseNat(SplitWhitespace(line)[0]) == Ok(r.value.start + 1)
      && ParseNat(SplitWhitespace(line)[1]) == Ok(r.value.end + 1)
      && ParseWord(SplitWhitespace(line)[2]) == Ok(r.value.conn.orientation)
      && ParseNat(SplitWhitespace(line)[3]) == Ok(r.value.conn.size + 1)
  {
    var parts := SplitWhitespace(line);
    if |parts| < 4 then Err
    else
      match (ParseNat(parts[0]), ParseNat(parts[1]), ParseNat(parts[3]))
      case (Ok(s), Ok(e), Ok(z)) =>
        if s == 0 || e == 0 || z == 0 then Err
        else
          (match ParseWord(parts[2])
           case Ok(o) => Ok(Triple(s - 1, e - 1, Connection(o, z - 1)))
           case Err => Err)
      case _ => Err
  }

  /** The corrected parse agrees with the source on every line the source handles
      without going below zero, and rejects exactly the rest. */
  lemma ParseTripleCorrects(line: string)
    ensures ParseTriple(line).Ok? <==>
      ParseTripleAsWritten(line).Ok? && ParseTripleAsWritten(line).value.start >= 0
      && ParseTripleAsWritten(line).value.end >= 0 && ParseTripleAsWritten(line).value.size >= 0
    ensures ParseTriple(line).Ok? ==>
      var raw := ParseTripleAsWritten(line).value;
      var t := ParseTriple(line).value;
      t.start == raw.start && t.end == raw.end && t.conn.orientation == raw.orientation && t.conn.size == raw.size
  {
  }

  /** The corrected parse rejects the line with a `0` start token. */
  lemma ZeroIdRejected(t: Triple)
    ensures ParseTriple(Join(ZeroStartTokens(t), " ")).Err?
  {
    ZeroIdUnderflows(t);
    ParseTripleCorrects(Join(ZeroStartTokens(t), " "));
  }

  /** Reading a formatted line gives the triple back. */
  lemma TripleRoundTrip(t: Triple)
    ensures ParseTriple(FormatTriple(t)) == Ok(t)
  {
    SplitWhitespaceJoin(Tokens(t));
    ParseNatToString(t.start + 1);
    ParseNatToString(t.end + 1);
    ParseNatToString(t.conn.size + 1);
    WordRoundTrip(t.conn.orientation);
    TripleFromTokens(FormatTriple(t), t);
  }

  /** A line whose first four tokens read as the 1-based fields of `t` reads as `t`. */
  lemma TripleFromTokens(line: string, t: Triple)
    requires |SplitWhitespace(line)| >= 4
    requires ParseNat(SplitWhitespace(line)[0]) == Ok(t.start + 1) && ParseNat(SplitWhitespace(line)[1]) == Ok(t.end + 1)
    requires ParseWord(SplitWhitespace(line)[2]) == Ok(t.conn.orientation) && ParseNat(SplitWhitespace(line)[3]) == Ok(t.conn.size + 1)
    ensures ParseTriple(line) == Ok(t)
  {
  }

  // ---------------------------------------------------------------------
  // The whole matrix

  function FormatAll(ts: seq<Triple>): (ls: seq<string>)
    ensures |ls| == |ts| && forall i | 0 <= i < |ts| :: ls[i] == FormatTriple(ts[i])
  {
    seq(|ts|, i requires 0 <= i < |ts| => FormatTriple(ts[i]))
  }

  /** `Connections::to_string`: the iterator's stored connections, one line each. */
  function ToText(c: Connections): string {
    Join(FormatAll(Walk(c, Start())), "\n")
  }

  /** The matrix size `from_str` settles on: one more than the largest id read. */
  function Extent(ts: seq<Triple>): (n: nat)
    ensures forall i | 0 <= i < |ts| :: ts[i].start < n && ts[i].end < n
    ensures n == 0 || exists i | 0 <= i < |ts| :: n == ts[i].start + 1 || n == ts[i].end + 1
  {
    if ts == [] then 0
    else
      var last := ts[|ts| - 1];
      var n := Max(Max(Extent(ts[..|ts| - 1]), last.start + 1), last.end + 1);
      assert forall i | 0 <= i < |ts| - 1 :: ts[i] == ts[..|ts| - 1][i];
      n
  }

  /** `Connections::from_str`: parse every line, size the matrix by the largest
      id, and store the triples in order. */
  function FromText(s: string): (r: Result<Connections>)
    ensures r.Err? ==> exists i | 0 <= i < |Lines(s)| :: ParseTriple(Lines(s)[i]).Err?
    ensures r.Ok? ==> forall i | 0 <= i < |Lines(s)| :: ParseTriple(Lines(s)[i]).Ok?
    ensures r.Ok? ==> r.value.Valid()
    ensures r.Ok? ==> exists ts: seq<Triple> |
      |ts| == |Lines(s)| && forall i | 0 <= i < |ts| :: ParseTriple(Lines(s)[i]) == Ok(ts[i]) ::
        r.value == Build(Extent(ts), ts)
  {
    var ls := Lines(s);
    var parsed := ParseEach(ls, ParseTriple);
    if parsed.Err? then Err
    else
      var ts := parsed.value;
      assert forall i | 0 <= i < |ts| :: ParseTriple(ls[i]) == Ok(ts[i]);
      Ok(Build(Extent(ts), ts))
  }

  lemma {:induction false} ParseFormatAll(ts: seq<Triple>)
    ensures ParseEach(FormatAll(ts), ParseTriple) == Ok(ts)
  {
    var ls := FormatAll(ts);
    forall i | 0 <= i < |ts|
      ensures ParseTriple(ls[i]) == Ok(ts[i])
    {
      TripleRoundTrip(ts[i]);
    }
    ParseEachAll(ls, ParseTriple, ts);
  }

  /** The lines of the text are the formatted stored connections, in slot order. */
  lemma ToTextLines(c: Connections)
    ensures Lines(ToText(c)) == FormatAll(Triples(c))
  {
    IteratorListsTriples(c);
    var ts := Triples(c);
    var ls := FormatAll(ts);
    forall i | 0 <= i < |ls|
      ensures IsPlainLine(ls[i])
    {
      FormatTriplePlain(ts[i]);
    }
    LinesJoin(ls);
  }

  /** Every id listed from a valid matrix is below its size, so the extent is at most the size. */
  lemma ExtentWithin(c: Connections)
    requires c.Valid()
    ensures Extent(Triples(c)) <= c.size
  {
    var ts := Triples(c);
    var n := Extent(ts);
    if n > 0 {
      var i :| 0 <= i < |ts| && (n == ts[i].start + 1 || n == ts[i].end + 1);
    }
  }

  /** Growing the matrix `from_str` builds to a size that fits is building at that size. */
  lemma ExtentBuild(ts: seq<Triple>, n: nat)
    requires Extent(ts) <= n
    ensures Resize(Build(Extent(ts), ts), n) == Build(n, ts)
  {
    ResizeBuild(Extent(ts), n, ts);
  }

  /** Reading text whose lines are formatted triples builds the matrix of those triples. */
  lemma FromFormattedLines(s: string, ts: seq<Triple>)
    requires Lines(s) == FormatAll(ts)
    ensures FromText(s) == Ok(Build(Extent(ts), ts))
  {
    ParseFormatAll(ts);
  }

  /** Text whose lines are the formatted stored connections of `c` reads back as a
      matrix that, grown back to `c`'s size, is `c`. */
  lemma ReadsBack(c: Connections, s: string)
    requires c.Valid() && Lines(s) == FormatAll(Triples(c))
    ensures FromText(s).Ok?
    ensures FromText(s).value.size <= c.size
    ensures Resize(FromText(s).value, c.size) == c
  {
    var ts := Triples(c);
    FromFormattedLines(s, ts);
    ExtentWithin(c);
    ExtentBuild(ts, c.size);
    BuildTriples(c);
  }

  /** Writing a matrix and reading it back gives a matrix that, grown back to the
      original size, is the original: the text does not record vertices above the
      largest id that has a connection. */
  lemma TextRoundTrip(c: Connections)
    requires c.Valid()
    ensures FromText(ToText(c)).Ok?
    ensures FromText(ToText(c)).value.size <= c.size
    ensures Resize(FromText(ToText(c)).value, c.size) == c
  {
    ToTextLines(c);
    ReadsBack(c, ToText(c));
  }
}
