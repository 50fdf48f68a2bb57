/** The pieces of Rust's string library the text formats are built from:
    `join`, `split` on one character, `lines`, `split_whitespace`, `split_once`,
    and the decimal formatting and parsing of unsigned integers. */
module Text {
  import opened Wrappers

  /** `char::is_whitespace`: the Unicode `White_Space` property. */
  predicate IsWhitespace(c: char) {
    c == ' ' || ('\t' <= c <= '\r') || c == '\U{85}' || c == '\U{A0}' || c == '\U{1680}'
    || ('\U{2000}' <= c <= '\U{200A}') || c == '\U{2028}' || c == '\U{2029}' || c == '\U{202F}'
    || c == '\U{205F}' || c == '\U{3000}'
  }

  /** A token `split_whitespace` can hand out: not empty, no whitespace inside. */
  predicate IsToken(t: string) {
    |t| > 0 && forall i | 0 <= i < |t| :: !IsWhitespace(t[i])
  }

  /** The position of the first `c` in `s`. */
  function IndexOf(s: string, c: char): (k: nat)
    requires c in s
    ensures k < |s| && s[k] == c && c !in s[..k]
  {
    if s[0] == c then 0 else 1 + IndexOf(s[1..], c)
  }

  /** A `c` with none before it is the first one. */
  lemma {:induction false} IndexOfAt(s: string, c: char, j: nat)
    requires j < |s| && s[j] == c && c !in s[..j]
    ensures IndexOf(s, c) == j
  {
    if j > 0 {
      assert s[0] == s[..j][0];
      assert s[1..][..j - 1] == s[..j][1..];
      IndexOfAt(s[1..], c, j - 1);
    }
  }

  /** `[String]::join`. */
  function Join(parts: seq<string>, sep: string): string
    decreases |parts|
  {
    if |parts| == 0 then ""
    else if |parts| == 1 then parts[0]
    else parts[0] + sep + Join(parts[1..], sep)
  }

  // ---------------------------------------------------------------------
  // split on one character

  /** `str::split` on a one-character pattern: always at least one piece, and
      no piece contains the separator. */
  function Split(s: string, c: char): (r: seq<string>)
    ensures |r| >= 1
    ensures forall i | 0 <= i < |r| :: c !in r[i]
    decreases |s|
  {
    if c in s then
      var k := IndexOf(s, c);
      [s[..k]] + Split(s[k + 1..], c)
    else [s]
  }

  /** Splitting undoes joining, as long as no piece holds the separator. */
  lemma {:induction false} SplitJoin(parts: seq<string>, c: char)
    requires |parts| >= 1
    requires forall i | 0 <= i < |parts| :: c !in parts[i]
    ensures Split(Join(parts, [c]), c) == parts
    decreases |parts|
  {
    if |parts| > 1 {
      var s := Join(parts, [c]);
      var rest := Join(parts[1..], [c]);
      assert s == parts[0] + [c] + rest;
      assert s[..|parts[0]|] == parts[0];
      IndexOfAt(s, c, |parts[0]|);
      assert s[|parts[0]| + 1..] == rest;
      SplitJoin(parts[1..], c);
    }
  }

  /** Joining undoes splitting. */
  lemma {:induction false} JoinSplit(s: string, c: char)
    ensures Join(Split(s, c), [c]) == s
    decreases |s|
  {
    if c in s {
      var k := IndexOf(s, c);
      JoinSplit(s[k + 1..], c);
      assert Split(s, c)[1..] == Split(s[k + 1..], c);
      assert s == s[..k] + [c] + s[k + 1..];
    }
  }

  // ---------------------------------------------------------------------
  // lines

  /** A line ended by `\n` loses a `\r` before it. */
  function DropCr(line: string): string {
    if |line| > 0 && line[|line| - 1] == '\r' then line[..|line| - 1] else line
  }

  /** `str::lines`: split at `\n` (and `\r\n`); a final line ending adds no empty line. */
  function Lines(s: string): (r: seq<string>)
    ensures forall i | 0 <= i < |r| :: '\n' !in r[i]
    decreases |s|
  {
    if s == [] then []
    else if '\n' in s then
      var k := IndexOf(s, '\n');
      assert '\n' !in DropCr(s[..k]);
      [DropCr(s[..k])] + Lines(s[k + 1..])
    else [s]
  }

  /** A line `lines` gives back unchanged when it is followed by a line ending. */
  predicate IsPlainLine(line: string) {
    |line| > 0 && '\n' !in line && line[|line| - 1] != '\r'
  }

  /** `lines` undoes joining with `\n` for non-empty lines that do not end in `\r`. */
  lemma {:induction false} LinesJoin(ls: seq<string>)
    requires forall i | 0 <= i < |ls| :: IsPlainLine(ls[i])
    ensures Lines(Join(ls, "\n")) == ls
    decreases |ls|
  {
    if |ls| == 1 {
      assert Join(ls, "\n") == ls[0];
    } else if |ls| > 1 {
      var s := Join(ls, "\n");
      var rest := Join(ls[1..], "\n");
      assert s == ls[0] + "\n" + rest;
      assert s[..|ls[0]|] == ls[0];
      IndexOfAt(s, '\n', |ls[0]|);
      assert s[|ls[0]| + 1..] == rest;
      LinesJoin(ls[1..]);
    }
  }

  // ---------------------------------------------------------------------
  // split_whitespace

  /** The end of the token starting at position 0. */
  function TokenEnd(s: string): (k: nat)
    requires |s| > 0 && !IsWhitespace(s[0])
    ensures 0 < k <= |s| && IsToken(s[..k]) && (k == |s| || IsWhitespace(s[k]))
  {
    if |s| == 1 || IsWhitespace(s[1]) then 1
    else
      var k := 1 + TokenEnd(s[1..]);
      assert s[..k] == [s[0]] + s[1..][..k - 1];
      k
  }

  /** `str::split_whitespace`: the maximal runs of non-whitespace characters. */
  function SplitWhitespace(s: string): (r: seq<string>)
    ensures forall i | 0 <= i < |r| :: IsToken(r[i])
    decreases |s|
  {
    if s == [] then []
    else if IsWhitespace(s[0]) then SplitWhitespace(s[1..])
    else
      var k := TokenEnd(s);
      [s[..k]] + SplitWhitespace(s[k..])
  }

  /** `split_whitespace` undoes joining tokens with single spaces. */
  lemma {:induction false} SplitWhitespaceJoin(ts: seq<string>)
    requires forall i | 0 <= i < |ts| :: IsToken(ts[i])
    ensures SplitWhitespace(Join(ts, " ")) == ts
    decreases |ts|
  {
    if |ts| == 1 {
      TokenWhole(ts[0]);
      assert Join(ts, " ") == ts[0];
      assert ts[0][..|ts[0]|] == ts[0];
      assert ts[0][|ts[0]|..] == [];
    } else if |ts| > 1 {
      var s := Join(ts, " ");
      var rest := Join(ts[1..], " ");
      assert s == ts[0] + " " + rest;
      assert s[..|ts[0]|] == ts[0];
      TokenEndAt(s, |ts[0]|);
      assert s[|ts[0]|..] == " " + rest;
      assert SplitWhitespace(" " + rest) == SplitWhitespace(rest) by {
        assert (" " + rest)[1..] == rest;
      }
      SplitWhitespaceJoin(ts[1..]);
    }
  }

  /** A token whose end is the end of the string or whitespace is where `TokenEnd` stops. */
  lemma {:induction false} TokenEndAt(s: string, j: nat)
    requires 0 < j <= |s| && IsToken(s[..j]) && (j == |s| || IsWhitespace(s[j]))
    ensures TokenEnd(s) == j
  {
    assert s[0] == s[..j][0];
    if j > 1 {
      assert s[1] == s[..j][1];
      assert s[1..][..j - 1] == s[..j][1..];
      TokenEndAt(s[1..], j - 1);
    }
  }

  lemma TokenWhole(t: string)
    requires IsToken(t)
    ensures TokenEnd(t) == |t|
  {
    assert t[..|t|] == t;
    TokenEndAt(t, |t|);
  }

  // ---------------------------------------------------------------------
  // split_once

  /** `str::split_once` on a one-character pattern: the parts before and after
      the first occurrence, or nothing when it does not occur. */
  function SplitOnce(s: string, c: char): (r: Option<(string, string)>)
    ensures r.None? <==> c !in s
    ensures r.Some? ==> s == r.value.0 + [c] + r.value.1 && c !in r.value.0
  {
    if c in s then
      var k := IndexOf(s, c);
      assert s == s[..k] + [c] + s[k + 1..];
      Some((s[..k], s[k + 1..]))
    else None
  }

  /** Splitting once undoes gluing two parts with the character, when the first has none. */
  lemma SplitOnceGlue(a: string, b: string, c: char)
    requires c !in a
    ensures SplitOnce(a + [c] + b, c) == Some((a, b))
  {
    var s := a + [c] + b;
    assert s[..|a|] == a;
    IndexOfAt(s, c, |a|);
    assert s[|a| + 1..] == b;
  }

  // ---------------------------------------------------------------------
  // unsigned decimal numbers

  predicate IsDigit(c: char) {
    '0' <= c <= '9'
  }

  predicate AllDigits(s: string) {
    forall i | 0 <= i < |s| :: IsDigit(s[i])
  }

  function DigitChar(d: nat): (c: char)
    requires d < 10
    ensures IsDigit(c)
  {
    ((d + '0' as int) as char)
  }

  function DigitValue(c: char): (d: nat)
    requires IsDigit(c)
    ensures d < 10
  {
    (c as int - '0' as int)
  }

  /** `Display` for unsigned integers: decimal, no sign, no leading zeros. */
  function NatToString(n: nat): (r: string)
    ensures |r| >= 1 && AllDigits(r) && IsToken(r)
    ensures r[0] != '+'
    decreases n
  {
    if n < 10 then [DigitChar(n)] else NatToString(n / 10) + [DigitChar(n % 10)]
  }

  /** The value of a string of decimal digits. */
  function DigitsValue(s: string): nat
    requires AllDigits(s)
  {
    if s == [] then 0 else DigitsValue(s[..|s| - 1]) * 10 + DigitValue(s[|s| - 1])
  }

  /** `usize::from_str`: an optional `+`, then one or more decimal digits.
      Values past the platform's `usize::MAX` are not rejected here. */
  function ParseNat(s: string): (r: Result<nat>)
    ensures r.Ok? ==> |s| > 0
    ensures |s| > 0 && s[0] != '+' ==> (r.Ok? <==> AllDigits(s))
    ensures |s| > 0 && s[0] == '+' ==> (r.Ok? <==> |s| > 1 && AllDigits(s[1..]))
  {
    var digits := if |s| > 0 && s[0] == '+' then s[1..] else s;
    if |digits| > 0 && AllDigits(digits) then Ok(DigitsValue(digits)) else Err
  }

  /** Parsing the decimal text of a number gives the number back. */
  lemma {:induction false} DigitsOfNat(n: nat)
    ensures DigitsValue(NatToString(n)) == n
    decreases n
  {
    if n >= 10 {
      DigitsOfNat(n / 10);
      var r := NatToString(n);
      assert r[..|r| - 1] == NatToString(n / 10);
    }
  }

  lemma ParseNatToString(n: nat)
    ensures ParseNat(NatToString(n)) == Ok(n)
    ensures ParseNat("+" + NatToString(n)) == Ok(n)
  {
    DigitsOfNat(n);
    assert ("+" + NatToString(n))[1..] == NatToString(n);
  }

  /** `collect::<Result<Vec<_>, _>>()` over a parser: every piece is read in
      order, and the first piece that fails fails the whole read. */
  function ParseEach<T>(ls: seq<string>, f: string -> Result<T>): (r: Result<seq<T>>)
    ensures r.Ok? <==> forall i | 0 <= i < |ls| :: f(ls[i]).Ok?
    ensures r.Ok? ==> |r.value| == |ls| && forall i | 0 <= i < |ls| :: r.value[i] == f(ls[i]).value
  {
    if ls == [] then Ok([])
    else
      match f(ls[0])
      case Err => Err
      case Ok(x) =>
        match ParseEach(ls[1..], f)
        case Err => Err
        case Ok(rest) => Ok([x] + rest)
  }

  /** Pieces that each read back as given read back, together, as all of them. */
  lemma ParseEachAll<T>(ls: seq<string>, f: string -> Result<T>, xs: seq<T>)
    requires |ls| == |xs| && forall i | 0 <= i < |ls| :: f(ls[i]) == Ok(xs[i])
    ensures ParseEach(ls, f) == Ok(xs)
  {
    var r := ParseEach(ls, f);
    assert r.Ok?;
    assert r.value == xs;
  }
}
