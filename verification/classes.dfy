/** The size-class table (`model/classes.rs`): the radii a connection's size id
    selects, with a fallback class for ids past the table, and its text form.
    Sizes are `f64` in the source; here they are reals, and their decimal text is
    supplied by the caller as a pair of functions. */
module SizeClasses {
  import opened Wrappers
  import opened Text
  import opened Layout

  datatype Class = Class(size: real, color: string)

  datatype Classes = Classes(items: seq<Class>, default: Class)

  /** `generate_color`: the color of a class written without one. */
  const White: string := "white"

  /** `Classes::default`. */
  function DefaultClasses(): Classes {
    Classes([Class(100.0, "red"), Class(200.0, "blue"), Class(300.0, "purple"), Class(400.0, "yellow")],
            Class(300.0, White))
  }

  /** `items.get(id).unwrap_or(&default)`: the class a size id selects. */
  function ClassOf(cs: Classes, id: nat): (c: Class)
    ensures c in cs.items || c == cs.default
    ensures id < |cs.items| ==> c == cs.items[id]
    ensures id >= |cs.items| ==> c == cs.default
  {
    if id < |cs.items| then cs.items[id] else cs.default
  }

  /** `Classes::get_size`. */
  function GetSize(cs: Classes, id: nat): (r: real)
    ensures id < |cs.items| ==> r == cs.items[id].size
    ensures id >= |cs.items| ==> r == cs.default.size
  {
    ClassOf(cs, id).size
  }

  /** `Classes::get_color`. */
  function GetColor(cs: Classes, id: nat): (r: string)
    ensures id < |cs.items| ==> r == cs.items[id].color
    ensures id >= |cs.items| ==> r == cs.default.color
  {
    ClassOf(cs, id).color
  }

  /** Every id past the table selects the same class, the default one. */
  lemma PastTableIsDefault(cs: Classes, i: nat, j: nat)
    requires i >= |cs.items| && j >= |cs.items|
    ensures GetSize(cs, i) == GetSize(cs, j) == cs.default.size
    ensures GetColor(cs, i) == GetColor(cs, j) == cs.default.color
  {
  }

  /** `Classes::previous`: one step down, stopping at 0. */
  function Previous(cs: Classes, id: nat): (r: nat)
    ensures r <= id && id - r <= 1
    ensures r == id <==> id == 0
  {
    if id <= 0 then id else id - 1
  }

  /** `Classes::next` as written: `items.len() - 1` is computed first, and on an
      empty table that subtraction underflows, shown here as `None`.  A debug
      build panics; a release build wraps to `usize::MAX` and so returns `id + 1`. */
  function NextAsWritten(cs: Classes, id: nat): (r: Option<nat>)
    ensures r.None? <==> |cs.items| == 0
  {
    if |cs.items| == 0 then None
    else if id >= |cs.items| - 1 then Some(id) else Some(id + 1)
  }

  /** A table parsed from a one-line text has no items, and stepping up from
      size 0 on it fails. */
  lemma NextUnderflowsOnEmptyTable(d: Class)
    ensures NextAsWritten(Classes([], d), 0).None?
  {
  }

  /** `Classes::next` as evidently intended: one step up, stopping at the last
      class of the table; with no classes it stays put. */
  function Next(cs: Classes, id: nat): (r: nat)
    ensures r >= id && r - id <= 1
    ensures r == id <==> id + 1 >= |cs.items|
    ensures |cs.items| > 0 ==> r <= Max(id, |cs.items| - 1)
  {
    if id + 1 >= |cs.items| then id else id + 1
  }

  /** Wherever the source's `next` returns, it agrees with `Next`. */
  lemma NextCorrects(cs: Classes, id: nat)
    ensures NextAsWritten(cs, id).Some? ==> NextAsWritten(cs, id).value == Next(cs, id)
    ensures |cs.items| > 0 ==> NextAsWritten(cs, id) == Some(Next(cs, id))
  {
  }

  /** Stepping keeps a table id inside the table, and the two steps undo each
      other away from the ends. */
  lemma StepsStayInTable(cs: Classes, id: nat)
    requires id < |cs.items|
    ensures Next(cs, id) < |cs.items| && Previous(cs, id) < |cs.items|
    ensures id + 1 < |cs.items| ==> Previous(cs, Next(cs, id)) == id
    ensures 0 < id ==> Next(cs, Previous(cs, id)) == id
  {
  }

  /** The default table: four classes of growing radius, and ids past it fall
      back to radius 300 in white. */
  lemma DefaultTable()
    ensures |DefaultClasses().items| == 4
    ensures forall id: nat | id < 4 :: GetSize(DefaultClasses(), id) == 100.0 * (id as real + 1.0)
    ensures forall id: nat | id >= 4 :: GetSize(DefaultClasses(), id) == 300.0 && GetColor(DefaultClasses(), id) == White
    ensures forall id: nat | id < 3 :: GetSize(DefaultClasses(), Next(DefaultClasses(), id)) > GetSize(DefaultClasses(), id)
  {
  }

  // ---------------------------------------------------------------------
  // Text form: `size color` per class, the default class last.

  /** The size `x` survives the text form: `parse` reads back what `show`
      writes for it, and the written form holds no space or line break. */
  predicate ReadsBack(show: real -> string, parse: string -> Result<real>, x: real) {
    parse(show(x)) == Ok(x) && ' ' !in show(x) && '\n' !in show(x)
  }

  /** `Class::to_string`. */
  function ClassToText(c: Class, show: real -> string): string {
    show(c.size) + " " + c.color
  }

  /** `Class::from_str`: split at the first space into size and color; without a
      space the whole text is the size and the color is white. */
  function ClassFromText(s: string, parse: string -> Result<real>): (r: Result<Class>)
    ensures ' ' !in s ==> (r.Ok? <==> parse(s).Ok?)
    ensures ' ' !in s && r.Ok? ==> r == Ok(Class(parse(s).value, White))
    ensures ' ' in s ==> (r.Ok? <==> parse(s[..IndexOf(s, ' ')]).Ok?)
    ensures ' ' in s && r.Ok? ==> r == Ok(Class(parse(s[..IndexOf(s, ' ')]).value, s[IndexOf(s, ' ') + 1..]))
  {
    match SplitOnce(s, ' ')
    case Some((size, color)) =>
      (match parse(size)
       case Ok(x) => Ok(Class(x, color))
       case Err => Err)
    case None =>
      (match parse(s)
       case Ok(x) => Ok(Class(x, White))
       case Err => Err)
  }

  /** Reading a written class gives it back, whatever its color holds. */
  lemma ClassRoundTrip(c: Class, show: real -> string, parse: string -> Result<real>)
    requires parse(show(c.size)) == Ok(c.size) && ' ' !in show(c.size)
    ensures ClassFromText(ClassToText(c, show), parse) == Ok(c)
  {
    SplitOnceGlue(show(c.size), c.color, ' ');
    assert ClassToText(c, show) == show(c.size) + [' '] + c.color;
  }

  /** `Classes::to_string`: the items and then the default, one per line. */
  function ClassesToText(cs: Classes, show: real -> string): string {
    Join(ClassLines(cs.items + [cs.default], show), "\n")
  }

  function ClassLines(cs: seq<Class>, show: real -> string): (ls: seq<string>)
    ensures |ls| == |cs| && forall i | 0 <= i < |cs| :: ls[i] == ClassToText(cs[i], show)
  {
    seq(|cs|, i requires 0 <= i < |cs| => ClassToText(cs[i], show))
  }

  /** The line reader of the table: `Class::from_str` with the given number parser. */
  function ClassReader(parse: string -> Result<real>): string -> Result<Class> {
    l => ClassFromText(l, parse)
  }

  /** `Classes::from_str`: split at every `\n`, read each piece as a class, and
      take the last one as the default.  `split` always yields a piece, so the
      source's failure on an empty list cannot happen. */
  function ClassesFromText(s: string, parse: string -> Result<real>): (r: Result<Classes>)
    ensures r.Ok? <==> forall i | 0 <= i < |Split(s, '\n')| :: ClassFromText(Split(s, '\n')[i], parse).Ok?
    ensures r.Ok? ==> |r.value.items| + 1 == |Split(s, '\n')|
    ensures r.Ok? ==> forall i | 0 <= i < |r.value.items| :: ClassFromText(Split(s, '\n')[i], parse) == Ok(r.value.items[i])
    ensures r.Ok? ==> ClassFromText(Split(s, '\n')[|r.value.items|], parse) == Ok(r.value.default)
  {
    var ls := Split(s, '\n');
    match ParseEach(ls, ClassReader(parse))
    case Err => Err
    case Ok(cs) => Ok(Classes(cs[..|cs| - 1], cs[|cs| - 1]))
  }

  /** Writing a table and reading it back gives it back, provided every size
      reads back from its text and no color holds a line break. */
  lemma ClassesRoundTrip(cs: Classes, show: real -> string, parse: string -> Result<real>)
    requires forall i | 0 <= i < |cs.items| :: ReadsBack(show, parse, cs.items[i].size) && '\n' !in cs.items[i].color
    requires ReadsBack(show, parse, cs.default.size) && '\n' !in cs.default.color
    ensures ClassesFromText(ClassesToText(cs, show), parse) == Ok(cs)
  {
    var all := cs.items + [cs.default];
    var ls := ClassLines(all, show);
    forall i | 0 <= i < |ls|
      ensures '\n' !in ls[i]
      ensures ClassFromText(ls[i], parse) == Ok(all[i])
    {
      if i < |cs.items| {
        assert all[i] == cs.items[i];
      }
      assert ReadsBack(show, parse, all[i].size);
      ClassRoundTrip(all[i], show, parse);
    }
    SplitJoin(ls, '\n');
    ParseEachAll(ls, ClassReader(parse), all);
    assert all[..|all| - 1] == cs.items;
  }
}
