# arcviz diagram core in Dafny

arcviz draws diagrams whose edges are circular arcs between vertices. This
project models the integer and combinatorial core of its diagram model and
editor, and proves properties of it:

- **Connection matrix** (`model/connections.rs`). The matrix stores one optional
  connection per ordered vertex pair, in a flat sequence addressed by the layer
  formula `yx_to_global`. Layer `L = max(s, e)` starts at slot `L²` and holds
  `2L + 1` slots.
  - Modelled operations: `new`, `entry`/`entry_mut`, `get`, `resize`, and the
    vertex removal `shrink_by_vertex` with its three slot-removal helpers.
  - Also modelled: `foreach` as a loop, the iterator `FastConnectionsIterator`,
    and the text format (`ConnectionRepresentation` and `Connections`
    `to_string`/`from_str`).
  - Modules: `Layout`, `Matrix`, `MatrixText`.
- **Orientation algebra** (`model/connection.rs`). The four orientations, their
  three involutions and three predicates, and the connection updates.
  - Module: `Orientations`.
- **Size-class table** (`model/classes.rs`). Lookup with a fallback class,
  stepping up and down, the default table, and the text form. The number
  format is a pair of functions supplied by the caller.
  - Module: `SizeClasses`.
- **Vertex list and diagram** (`model/vertices.rs`, `model/data.rs`).
  - Adding and removing vertices and connections.
  - Duplicating a subgraph.
  - `Data::default`.
  - The `DataRepresentation` conversions.
  - The final resize step of `Data::from_str`.
  - Modules: `VertexList`, `Diagram`.
- **Conflict filter** (`Data::conflicts`). Arc intersection and the "which side
  of the center line" test are inputs. The rule that decides which crossings
  are reported is modelled exactly, together with the nested loop that visits
  the pairs.
  - Module: `Conflicts`.
- **Editing rules** (`ui/workspace_context.rs`). Adding and connecting edges,
  deleting, duplicating, and changing the class or orientation of the
  selection. The vertex under the mouse is a parameter.
  - Module: `Editing`.
- **Rust string pieces** (`Text`). The parts of the standard library the text
  formats rely on: `join`, `split`, `lines`, `split_whitespace`, `split_once`,
  and decimal `usize` formatting and parsing.

Ids are unbounded naturals (`usize` without a bound). Values are immutable and
operations are pure: a `&mut self` method becomes a function from the old value
to the new one, and a closure the source calls is a function parameter. Where
the source's `FnMut` action only collects what it is given, the model collects
it.

Three behaviours of the code that are easy to misstate, as the model has them:

- `everted` keeps the side the arc bulges to (`is_left`) and swaps minor and
  major arc, so the center moves to the other side of the chord
  (`center_is_left` toggles).
- A single touching point (`ArcIntersection::One`) is suppressed whenever the
  two connections share any vertex (`data.rs:229`), not only when they join
  the same two vertices.
- `connect_to` with the selected vertex itself as target clears that vertex's
  self slot and adds nothing: `remove_connection(end, start)` runs before the
  self-connection check of `add_connection`.

## Model

| member | source | states |
|---|---|---|
| `Orientations.ConnectionOrientation.CenterIsLeft` | arcviz/src/model/connection.rs:59-65 | The center lies left of the chord exactly when the arc's bulge side agrees with its kind: left and inner, or right and outer. |
| `Orientations.ConnectionOrientation.Inverse` | arcviz/src/model/connection.rs:18-29 | The completing arc bulges to the other side and is of the other kind, and its center lies on the same side. |
| `Orientations.ConnectionOrientation.Flipped` | arcviz/src/model/connection.rs:30-37 | The mirror image bulges to the other side and keeps the arc kind. |
| `Orientations.ConnectionOrientation.Everted` | arcviz/src/model/connection.rs:38-45 | The other arc kind bulges to the same side, so the center changes side. |
| `Orientations.DeterminedByPredicates` | arcviz/src/model/connection.rs:47-58 | `is_left` and `is_inner` together tell the four orientations apart. |
| `Orientations.Involutions` | arcviz/src/model/connection.rs:22-45 | Applying `inverse`, `flipped` or `everted` twice gives the orientation back. |
| `Orientations.InverseIsFlipThenEvert` | arcviz/src/model/connection.rs:22-45 | Completing the circle is mirroring and then swapping the arc kind, in either order. |
| `Orientations.Connection.Invert` | arcviz/src/model/connection.rs:83-85 | Only the orientation changes (the size class stays), and inverting it again gives the old orientation. |
| `Orientations.Connection.Flip` | arcviz/src/model/connection.rs:86-88 | Only the orientation changes, and flipping it again gives the old orientation. |
| `Orientations.Connection.Evert` | arcviz/src/model/connection.rs:89-91 | Only the orientation changes, and everting it again gives the old orientation. |
| `Layout.SqIsSquare` | arcviz/src/model/connections.rs:50 | The layer offset (the sum of the sizes of all lower layers) is the square of the layer id. |
| `Layout.Global` | arcviz/src/model/connections.rs:44-52 | The pair `(s, e)` lands in layer `max(s, e)`: at or after that layer's offset and before the next layer's. |
| `Layout.Decode` | arcviz/src/model/connections.rs:14-33 | Every slot belongs to the pair the layer diagram assigns it: that pair's address is the slot, and its larger id is the slot's layer. |
| `Layout.DecodeAt` | arcviz/src/model/connections.rs:121-125 | The pair the iterators compute from a layer and an in-layer index is the pair of that slot. |
| `Layout.DecodeGlobal` | arcviz/src/model/connections.rs:44-52 | Decoding the address of a pair gives the pair back. |
| `Layout.GlobalInjective` | arcviz/src/model/connections.rs:44-52 | Different pairs have different slots. |
| `Layout.OppositeSlotsDiffer` | arcviz/src/model/connections.rs:44-52 | For `a ≠ b`, the directions `(a, b)` and `(b, a)` are stored in different slots. |
| `Layout.SelfSlot` | arcviz/src/model/connections.rs:14-33 | The self pair `(L, L)` sits in the middle of its layer, at `L² + L`. |
| `Layout.GlobalInRange` | arcviz/src/model/connections.rs:56-59 | A pair's slot lies within the first `n²` slots exactly when both ids are below `n`. |
| `Layout.GlobalBijection` | arcviz/src/model/connections.rs:14-33 | Addressing maps the pairs of `[0, n)²` one-to-one onto the slots `[0, n²)`, with decoding as its inverse. |
| `Matrix.New` | arcviz/src/model/connections.rs:41-43 | A new matrix for `n` vertices satisfies the length invariant, and every pair is empty. |
| `Matrix.Entry` | arcviz/src/model/connections.rs:56-59 | Given the length invariant, `entry` fails exactly when an id is out of range. Otherwise it returns that pair's slot. |
| `Matrix.Get` | arcviz/src/model/connections.rs:70-72 | `get` is the pair's connection when both ids are in range, and absent otherwise. |
| `Matrix.SetEntry` | arcviz/src/model/connections.rs:61-68 | A write through `entry_mut` fails exactly when an id is out of range. Otherwise it sets that pair, keeps the invariant, and leaves every other pair unchanged. |
| `Matrix.Resize` | arcviz/src/model/connections.rs:77-82 | After `resize(n)`, the matrix has size `n` and `n²` slots. Pairs inside both sizes keep their connection, and the new pairs are empty. |
| `Matrix.ResizeGrowShrink` | arcviz/src/model/connections.rs:77-82 | Growing a matrix and resizing it back gives the original. |
| `Matrix.SlotsDetermine` | arcviz/src/model/connections.rs:34-38 | Two valid matrices of the same size with the same connection for every pair are equal. |
| `Matrix.RemoveLayer` | arcviz/src/model/connections.rs:98-102 | `remove_layer(L)` drains exactly the `2L + 1` slots of layer `L`: the slots below offset `L²` and from `(L + 1)²` on remain, in order. |
| `Matrix.RemoveColFromLayer` | arcviz/src/model/connections.rs:103-108 | `remove_col_from_layer(col, L)` removes exactly the slot of the pair `(L, col)`. |
| `Matrix.RemoveRowFromLayer` | arcviz/src/model/connections.rs:109-114 | `remove_row_from_layer(row, L)` removes exactly the slot of the pair `(row, L)`. |
| `Matrix.StripOneIndex` | arcviz/src/model/connections.rs:90-93 | One pass of the removal loop over layer `L` leaves each remaining slot holding the connection of a slot before the pass. |
| `Matrix.StripIndex` | arcviz/src/model/connections.rs:90-93 | After the whole top-down loop, each remaining slot holds the connection of the slot it came from. |
| `Matrix.ShrinkLength` | arcviz/src/model/connections.rs:85-102 | Removing a vertex from a matrix of size `n` removes exactly `2n - 1` slots and leaves `(n - 1)²`. |
| `Matrix.ShrinkSlot` | arcviz/src/model/connections.rs:85-114 | After the removal, the slot of each new pair `(a, b)` holds the connection of the old pair with `a` and `b` renumbered upward past `v`. |
| `Matrix.ShrinkByVertex` | arcviz/src/model/connections.rs:85-97 | Removal fails exactly when `v` is out of range. Otherwise the size drops by one and `2·size − 1` slots go. Every new pair holds the connection of the old pair it renumbers. |
| `Matrix.ShrinkKeepsSurvivors` | arcviz/src/model/connections.rs:85-114 | Every old pair avoiding `v` is found, after the removal, at its ids with those above `v` lowered by one. |
| `Matrix.Triples` | arcviz/src/model/connections.rs:116-138 | Every triple that `foreach` hands out names an in-range pair and the connection stored for it. |
| `Matrix.TriplesFromSound` | arcviz/src/model/connections.rs:116-138 | The listed triples sit in their own slots, in strictly ascending slot order. |
| `Matrix.TriplesComplete` | arcviz/src/model/connections.rs:116-138 | Every stored connection is listed, with its pair. |
| `Matrix.Foreach` | arcviz/src/model/connections.rs:116-138 | The loop's own layer and in-layer counters visit the stored connections in slot order, each with its correct pair, and skip empty slots. |
| `Matrix.Start` | arcviz/src/model/connections.rs:153-155 | A fresh iterator starts at slot 0 with consistent counters. |
| `Matrix.Next` | arcviz/src/model/connections.rs:160-177 | `next` ends exactly past the last slot. Otherwise it yields the current slot and advances by one. With consistent counters, the yielded pair is the pair of that slot and the counters stay consistent. |
| `Matrix.WalkFrom` | arcviz/src/model/connections.rs:157-177 | From consistent counters, the iterator's non-empty items are exactly the stored connections from its position on. |
| `Matrix.IteratorListsTriples` | arcviz/src/model/connections.rs:225-235 | The iterator that `to_string` consumes lists the same connections, in the same order, as `foreach`. |
| `Matrix.LastAppend` | arcviz/src/model/connections.rs:257-262 | When triples are stored in order, a later triple for a pair wins over an earlier one. |
| `Matrix.Put` | arcviz/src/model/connections.rs:258-261 | Storing one triple sets its pair when in range, and nothing else changes. An out-of-range triple changes nothing. |
| `Matrix.Apply` | arcviz/src/model/connections.rs:257-262 | After storing a list of triples, each pair holds the last triple for it, or its old connection when no triple names it. |
| `Matrix.ApplyAfterResize` | arcviz/src/model/data.rs:140-154 | After growing and then storing triples that name only new pairs, old pairs keep their connections, new pairs hold what was stored, and mixed pairs are empty. |
| `Matrix.Build` | arcviz/src/model/connections.rs:256-262 | A new matrix filled with triples holds, for each pair, the last triple naming it. |
| `Matrix.BuildTriples` | arcviz/src/model/connections.rs:116-138 | Filling an empty matrix of the same size with what `foreach` lists rebuilds the matrix. |
| `Matrix.ResizeBuild` | arcviz/src/model/connections.rs:77-82 | Building at a size that already fits every triple and then growing is the same as building at the larger size. |
| `MatrixText.Word` | arcviz/src/model/connections.rs:189-194 | Every orientation word is a single whitespace-free token. |
| `MatrixText.ParseWord` | arcviz/src/model/connections.rs:212-218 | Exactly the four words `right`, `left`, `Right` and `Left` are accepted. |
| `MatrixText.WordRoundTrip` | arcviz/src/model/connections.rs:189-218 | Reading an orientation's word gives the orientation back. |
| `MatrixText.Tokens` | arcviz/src/model/connections.rs:195 | A line consists of four whitespace-free tokens. |
| `MatrixText.FormatTriplePlain` | arcviz/src/model/connections.rs:195 | A formatted line is non-empty, has no line break and does not end in a carriage return, so `lines` returns it unchanged. |
| `MatrixText.ParseTripleAsWritten` | arcviz/src/model/connections.rs:198-221 | As written: fewer than four tokens is an error. A success means the first, second and fourth tokens read as numbers one above start, end and size and the third as the orientation word. So a `0` token gives `-1` for its field (the underflow). |
| `MatrixText.ZeroIdUnderflows` | arcviz/src/model/connections.rs:219 | A line whose start token is `0` parses, as written, to a start of `-1`. |
| `MatrixText.AsWrittenFromTokens` | arcviz/src/model/connections.rs:200-219 | As written, a line whose first four tokens parse reads as those numbers minus one. |
| `MatrixText.ParseTriple` | arcviz/src/model/connections.rs:198-221 | Fewer than four tokens, or an unknown orientation word, is an error. A success means the first, second and fourth tokens read as the 1-based start, end and size and the third as the orientation word, so a non-numeric id or size token is an error. |
| `MatrixText.ParseTripleCorrects` | arcviz/src/model/connections.rs:198-221 | The corrected parse succeeds exactly when the as-written parse succeeds with no field below zero, and then the two agree. |
| `MatrixText.ZeroIdRejected` | arcviz/src/model/connections.rs:219 | The corrected parse rejects the line with a `0` start token. |
| `MatrixText.TripleFromTokens` | arcviz/src/model/connections.rs:200-219 | A line whose first four tokens read as the 1-based fields of a triple parses to that triple. |
| `MatrixText.TripleRoundTrip` | arcviz/src/model/connections.rs:187-221 | Parsing a formatted connection gives it back. |
| `MatrixText.FormatAll` | arcviz/src/model/connections.rs:236-238 | There is one line per triple, in order. |
| `MatrixText.Extent` | arcviz/src/model/connections.rs:244-252 | The size `from_str` settles on exceeds every id read, and is 0 or one more than some id. |
| `MatrixText.FromText` | arcviz/src/model/connections.rs:241-265 | `from_str` fails exactly when some line fails the corrected line parse. Otherwise the lines read as triples, the size is one more than the largest id read (0 for no lines), and each pair holds the last triple naming it. |
| `MatrixText.ParseFormatAll` | arcviz/src/model/connections.rs:245-255 | Parsing the formatted lines of a list of triples gives the list back. |
| `MatrixText.ToTextLines` | arcviz/src/model/connections.rs:223-240 | The lines of `to_string` are the formatted stored connections, in slot order. |
| `MatrixText.ExtentWithin` | arcviz/src/model/connections.rs:244-252 | For a valid matrix's listing, the size `from_str` picks is at most the matrix's size. |
| `MatrixText.ExtentBuild` | arcviz/src/model/connections.rs:256-262 | Growing what `from_str` builds to any size that fits is the same as building at that size. |
| `MatrixText.FromFormattedLines` | arcviz/src/model/connections.rs:241-265 | Text whose lines are formatted triples reads as the matrix built from those triples. |
| `MatrixText.ReadsBack` | arcviz/src/model/connections.rs:241-265 | Text listing a matrix's connections reads back, and once grown to the original size it is the original. |
| `MatrixText.TextRoundTrip` | arcviz/src/model/connections.rs:223-265 | `from_str(to_string(c))` succeeds with a size at most `c`'s, and once grown back to `c`'s size it is `c`. |
| `Text.Split` | arcviz/src/model/classes.rs:87 | `split` on one character always yields at least one piece, and no piece contains the separator. |
| `Text.SplitJoin` | arcviz/src/model/classes.rs:81-87 | Splitting text joined with a separator that no piece contains gives the pieces back. |
| `Text.JoinSplit` | arcviz/src/model/classes.rs:81-87 | Joining the pieces of a split gives the text back. |
| `Text.Lines` | arcviz/src/model/connections.rs:246 | No line that `lines` yields contains a line break. |
| `Text.LinesJoin` | arcviz/src/model/connections.rs:238-246 | `lines` undoes joining with `\n` for non-empty lines that do not end in `\r`. |
| `Text.SplitWhitespace` | arcviz/src/model/connections.rs:201 | Every piece that `split_whitespace` yields is a non-empty token without whitespace. |
| `Text.SplitWhitespaceJoin` | arcviz/src/model/connections.rs:195-201 | `split_whitespace` undoes joining tokens with single spaces. |
| `Text.SplitOnce` | arcviz/src/model/classes.rs:29 | `split_once` finds nothing exactly when the character is absent. Otherwise the parts glue back to the text, and the first part does not contain the character. |
| `Text.SplitOnceGlue` | arcviz/src/model/classes.rs:21-30 | Splitting once at the character undoes gluing two parts with it, when the first part does not contain it. |
| `Text.NatToString` | arcviz/src/model/connections.rs:195 | The decimal text of a number is a non-empty run of digits with no sign. |
| `Text.ParseNat` | arcviz/src/model/connections.rs:207-208 | `usize::from_str` accepts exactly an optional `+` followed by one or more decimal digits. |
| `Text.ParseNatToString` | arcviz/src/model/connections.rs:195-208 | Parsing the decimal text of a number, with or without a leading `+`, gives the number back. |
| `Text.ParseEach` | arcviz/src/model/classes.rs:87 | Collecting parse results succeeds exactly when every piece parses, and then holds each piece's value in order. |
| `Text.ParseEachAll` | arcviz/src/model/connections.rs:245-255 | Pieces that each parse to a given value collect to the list of those values. |
| `SizeClasses.ClassOf` | arcviz/src/model/classes.rs:60-65 | An id inside the table selects its own class, and any other id selects the default class. |
| `SizeClasses.GetSize` | arcviz/src/model/classes.rs:60-62 | `get_size` is the size of the id's class, or of the default class past the table. |
| `SizeClasses.GetColor` | arcviz/src/model/classes.rs:63-65 | `get_color` is the color of the id's class, or of the default class past the table. |
| `SizeClasses.PastTableIsDefault` | arcviz/src/model/classes.rs:60-65 | All ids past the table give the same size and color, those of the default class. |
| `SizeClasses.Previous` | arcviz/src/model/classes.rs:66-71 | `previous` moves down by at most one, and stays put exactly at 0. |
| `SizeClasses.NextAsWritten` | arcviz/src/model/classes.rs:72-77 | As written, `next` has no result exactly when the table has no classes (`len() - 1` underflows). |
| `SizeClasses.NextUnderflowsOnEmptyTable` | arcviz/src/model/classes.rs:73 | On a table with no classes, stepping up from size 0 fails. |
| `SizeClasses.Next` | arcviz/src/model/classes.rs:72-77 | `next` moves up by at most one and stays put exactly at or past the last class. On a non-empty table it never exceeds `max(id, len − 1)`. |
| `SizeClasses.NextCorrects` | arcviz/src/model/classes.rs:72-77 | The corrected `next` agrees with the source wherever the source returns, which is on every non-empty table. |
| `SizeClasses.StepsStayInTable` | arcviz/src/model/classes.rs:66-77 | Stepping keeps a table id inside the table. Away from the ends, a step up and a step down undo each other. |
| `SizeClasses.DefaultTable` | arcviz/src/model/classes.rs:46-58 | The default table has four classes of radius 100, 200, 300 and 400, plus a default of radius 300 in white. Stepping up on it increases the radius. |
| `SizeClasses.ClassFromText` | arcviz/src/model/classes.rs:26-39 | Without a space, the whole text is the size and the color is white. With a space, the size is the text before the first space and the color is the rest. It fails exactly when the size fails to parse. |
| `SizeClasses.ClassRoundTrip` | arcviz/src/model/classes.rs:21-35 | Parsing a written class gives it back, whatever its color holds, when its size reads back from its text and that text has no space. |
| `SizeClasses.ClassLines` | arcviz/src/model/classes.rs:81 | There is one written line per class, in order. |
| `SizeClasses.ClassesFromText` | arcviz/src/model/classes.rs:84-91 | Parsing a table fails exactly when some line fails. Otherwise each line but the last reads as the item at its position, and the last line reads as the default class. |
| `SizeClasses.ClassesRoundTrip` | arcviz/src/model/classes.rs:79-91 | Parsing a written table gives it back when every size reads back from its text and no size text or color holds a line break. |
| `VertexList.Add` | arcviz/src/model/vertices.rs:15-18 | `add` appends the vertex, returns `len − 1` as its id, and leaves the existing vertices unchanged. |
| `VertexList.Remove` | arcviz/src/model/vertices.rs:19-24 | Out of range, `remove` returns nothing and changes nothing. In range, it returns the vertex, keeps those below it, and moves those above it down one. |
| `VertexList.LenCounts` | arcviz/src/model/vertices.rs:15-27 | `len` grows by one on `add`, shrinks by one on an in-range `remove`, and is unchanged otherwise. |
| `VertexList.RemoveAdded` | arcviz/src/model/vertices.rs:15-24 | Removing the vertex just added gives the list back, along with that vertex. |
| `VertexList.RemoveReinsert` | arcviz/src/model/vertices.rs:19-24 | Putting the removed vertex back at its id restores the list. |
| `Diagram.AddVertex` | arcviz/src/model/data.rs:93-97 | The vertex is appended and its id is `len − 1`. The matrix follows the vertex count, keeps every old pair, and gains only empty pairs. |
| `Diagram.AddConnection` | arcviz/src/model/data.rs:98-108 | `add_connection` fails exactly when an id is not a vertex. Otherwise it sets only that pair and keeps the invariant. |
| `Diagram.RemoveConnection` | arcviz/src/model/data.rs:114-118 | `remove_connection` fails exactly when an id is not a vertex. Otherwise it empties only that pair and keeps the invariant. |
| `Diagram.RemoveVertex` | arcviz/src/model/data.rs:109-113 | `remove_vertex` fails exactly when the id is out of range. Otherwise it removes the vertex and keeps the matrix sized to the list, renumbering every surviving pair as `shrink_by_vertex` does. |
| `Diagram.RemoveAddedVertex` | arcviz/src/model/data.rs:93-113 | Removing the vertex just added gives the diagram back. |
| `Diagram.RemoveAddedConnection` | arcviz/src/model/data.rs:98-118 | Adding and then removing a connection is the same as removing it. On an empty pair, removing changes nothing. |
| `Diagram.ExistingIds` | arcviz/src/model/data.rs:130-131 | The ids that `duplicate_subgraph` keeps are all vertices, and there are no more of them than were given. |
| `Diagram.ExistingIdsMembers` | arcviz/src/model/data.rs:130-131 | The kept ids are exactly the given ids that name a vertex. |
| `Diagram.WithClones` | arcviz/src/model/data.rs:133-139 | The clones are appended in order after the unchanged old vertices. |
| `Diagram.CopyConnections` | arcviz/src/model/data.rs:140-154 | After the copy loop, old pairs keep their connections, and each pair of clones holds its originals' connection. Pairs mixing an old vertex and a clone are empty. |
| `Diagram.CopiesInRange` | arcviz/src/model/data.rs:147-151 | Every write of the copy loop lands inside the grown matrix, so the panic is unreachable. |
| `Diagram.CopyReadsOriginal` | arcviz/src/model/data.rs:142-147 | The loop's reads of the originals see the connections from before the loop, even though it writes to the same matrix. |
| `Diagram.DuplicateSubgraph` | arcviz/src/model/data.rs:119-157 | The result is the old length and the number of existing ids given. The clones are appended in order, the classes are kept, and the matrix stays sized to the vertices. |
| `Diagram.DuplicateSubgraphConnections` | arcviz/src/model/data.rs:119-157 | After duplication, each pair holds the connection of the pair it copies, or is empty when it mixes old vertices and clones. |
| `Diagram.ToRepresentation` | arcviz/src/model/data.rs:474-482 | The representation keeps the vertices and classes, and each of its triples names a stored connection. |
| `Diagram.RepresentationComplete` | arcviz/src/model/data.rs:474-482 | Every stored connection appears among the representation's triples. |
| `Diagram.FromRepresentation` | arcviz/src/model/data.rs:464-473 | The matrix is sized to the vertices, and each pair holds the last triple that names it. |
| `Diagram.RepresentationRoundTrip` | arcviz/src/model/data.rs:464-482 | Converting a diagram to its representation and back gives the same diagram. |
| `Diagram.SkipsOutOfRange` | arcviz/src/model/data.rs:467-470 | A triple naming a missing vertex changes nothing. |
| `Diagram.FromSections` | arcviz/src/model/data.rs:508-510 | After `from_str`'s resize step, the matrix is sized to the vertex list, and pairs inside both sizes keep the connections read. |
| `Diagram.SectionsRoundTrip` | arcviz/src/model/data.rs:484-510 | Writing the connection section, reading it back and resizing gives the diagram back. |
| `Diagram.DefaultVertices` | arcviz/src/model/data.rs:25-31 | The four default vertices come with an empty 4×4 matrix and the default classes. |
| `Diagram.AddDefaultConnection` | arcviz/src/model/data.rs:32-36 | Each `add_connection` of `Data::default` sets only its pair when in range, and never breaks the invariant. |
| `Diagram.DefaultData` | arcviz/src/model/data.rs:23-40 | The default diagram satisfies the invariant. |
| `Diagram.DefaultDataShape` | arcviz/src/model/data.rs:23-40 | The default diagram has four vertices, and exactly the five listed pairs hold an inner-right connection of size 2, so every addition lands. |
| `Conflicts.SharedVertex` | arcviz/src/model/data.rs:209-213 | The closure looks at a vertex exactly when the two connections share one. The first connection's start is preferred. |
| `Conflicts.CollisionIsConnection` | arcviz/src/model/data.rs:208-224 | A crossing is the connection itself for the same unordered pair, and never when no vertex is shared. Otherwise it requires a found shared vertex. |
| `Conflicts.SharedVertexSide` | arcviz/src/model/data.rs:218-223 | At a found shared vertex, exactly one side is explained: the side the vertex lies on. |
| `Conflicts.Candidate` | arcviz/src/model/data.rs:236-252 | A candidate point is reported exactly when present and not explained by the shared vertex on its side. |
| `Conflicts.PairConflicts` | arcviz/src/model/data.rs:226-255 | One ordered pair of connections reports at most two conflicts. |
| `Conflicts.OneRule` | arcviz/src/model/data.rs:226-232 | Apart and concentric arcs report nothing. A single touching point is reported exactly when the connections share no vertex. |
| `Conflicts.TwoRule` | arcviz/src/model/data.rs:233-253 | With two candidate points, each is reported exactly when present and not explained on its side. The same pair reports nothing; disjoint connections report both points, left first. |
| `Conflicts.PairConflictsName` | arcviz/src/model/data.rs:226-255 | Every conflict of a pair names that pair, first connection first. |
| `Conflicts.VisitRow` | arcviz/src/model/data.rs:203-256 | The inner loop collects what position `i` reports against every other position, in order. |
| `Conflicts.VisitPairs` | arcviz/src/model/data.rs:200-259 | The two loops collect every ordered pair of distinct positions in nested order, skipping `i == j`. |
| `Conflicts.FindConflicts` | arcviz/src/model/data.rs:196-260 | `conflicts` returns the reference listing of all pairs. |
| `Conflicts.ConflictsComplete` | arcviz/src/model/data.rs:196-260 | A conflict is reported exactly when some ordered pair of different connections in the list reports it. |
| `Conflicts.ConflictsNameArcs` | arcviz/src/model/data.rs:196-260 | Every conflict names two connections at different positions of the list. |
| `Conflicts.SingleArcNoConflicts` | arcviz/src/model/data.rs:202-206 | A single connection conflicts with nothing, not even itself. |
| `Editing.AddConnection` | arcviz/src/ui/workspace_context.rs:132-138 | A self-connection or an out-of-range id changes nothing. Otherwise only that pair gets a connection with the current orientation and size. |
| `Editing.NoSelfConnections` | arcviz/src/ui/workspace_context.rs:132-135 | Adding a connection never changes a vertex's self slot. |
| `Editing.Disconnect` | arcviz/src/ui/workspace_context.rs:190 | Removing a connection empties only that pair, and ids that name no vertex change nothing. |
| `Editing.ConnectTo` | arcviz/src/ui/workspace_context.rs:188-192 | With anything other than a vertex selected, `connect_to` changes nothing. |
| `Editing.ConnectToOneDirection` | arcviz/src/ui/workspace_context.rs:188-192 | After connecting the selected `s` to `e ≠ s`, `(s, e)` holds the new connection and `(e, s)` is empty, so only one direction is stored. Other pairs are unchanged, and `e = s` clears the self slot. |
| `Editing.ConnectAt` | arcviz/src/ui/workspace_context.rs:194-199 | With a hit, `connect_at` is `connect_to` the vertex found. Without one, nothing changes. |
| `Editing.DropVertex` | arcviz/src/model/data.rs:109-113 | Removing a vertex whose id is not a vertex changes nothing; otherwise it is `remove_vertex`. |
| `Editing.DropAll` | arcviz/src/ui/workspace_context.rs:264-268 | Removing an area keeps the invariant and the classes. |
| `Editing.DeleteSelection` | arcviz/src/ui/workspace_context.rs:255-270 | Deletion empties the selection and removes the selected vertex, connection or area. |
| `Editing.DropAllCount` | arcviz/src/ui/workspace_context.rs:264-268 | Deleting an ascending area of existing ids in reverse removes exactly that many vertices. |
| `Editing.DropAllKeepsVertex` | arcviz/src/ui/workspace_context.rs:264-268 | Every unselected vertex survives at its rank among the survivors. |
| `Editing.DropAllKeepsSlot` | arcviz/src/ui/workspace_context.rs:264-268 | Every connection between two unselected vertices survives, between their new ids. |
| `Editing.ChangeSelectionClass` | arcviz/src/ui/workspace_context.rs:272-289 | Only a selected stored connection changes: its size class steps up with the corrected `next` or down with `previous`. Everything else stays. |
| `Editing.ClassStepsUndo` | arcviz/src/ui/workspace_context.rs:272-289 | Stepping the class up and then down, or down and then up, away from the ends gives the workspace back. |
| `Editing.Range` | arcviz/src/ui/workspace_context.rs:304 | `start..start + count` lists `count` consecutive ids from `start`. |
| `Editing.Reselect` | arcviz/src/ui/workspace_context.rs:291-306 | The new selection is of the same kind as the old one. |
| `Editing.DuplicateSelection` | arcviz/src/ui/workspace_context.rs:291-306 | Duplicating keeps the invariant and, when something was selected, selects something. With nothing selected it changes nothing. |
| `Editing.DuplicateSelectionReselects` | arcviz/src/ui/workspace_context.rs:291-306 | For every selection, the clones of the selected ids that name a vertex are appended after the unchanged old vertices, and the new selection of the same kind starts at the first new id. |
| `Editing.DuplicatedVertexSelectsClone` | arcviz/src/ui/workspace_context.rs:294-297 | A duplicated vertex selects its clone, the first new id. |
| `Editing.DuplicatedEdgeSelectsClones` | arcviz/src/ui/workspace_context.rs:298-301 | A duplicated connection selects the two clones, which copy its end vertices. |
| `Editing.DuplicatedEdgeKeepsConnection` | arcviz/src/ui/workspace_context.rs:298-301 | The two clones hold the connection the originals held. |
| `Editing.DuplicatedAreaSelectsClones` | arcviz/src/ui/workspace_context.rs:302-305 | A duplicated area selects ascending ids past every old vertex, each a copy of the matching existing selected vertex. |
| `Editing.Retarget` | arcviz/src/ui/workspace_context.rs:332-334 | A stored connection gets the transformed orientation and keeps its size; an empty slot stays empty. |
| `Editing.RetargetAt` | arcviz/src/ui/workspace_context.rs:331-335 | Only the named pair is transformed. |
| `Editing.SelectedPairs` | arcviz/src/model/data.rs:163-178 | The collected pairs are no more than the listed triples. |
| `Editing.InSelectedPairs` | arcviz/src/model/data.rs:163-178 | A pair is collected exactly when both its ends are selected and it holds a connection. |
| `Editing.SelectedPairsInOrder` | arcviz/src/ui/workspace_context.rs:337-338 | The collected pairs keep slot order, so no pair appears twice. |
| `Editing.RetargetAllSlot` | arcviz/src/ui/workspace_context.rs:339-343 | Over pairs that do not repeat, each collected pair is transformed exactly once, and the others are untouched. |
| `Editing.ChangeOrientationOfSelection` | arcviz/src/ui/workspace_context.rs:324-347 | The vertices, classes and settings are unchanged, and a vertex selection or no selection changes nothing. |
| `Editing.AreaOrientation` | arcviz/src/ui/workspace_context.rs:336-344 | For an area, each stored connection between two selected vertices is transformed once, and every other pair is unchanged. |
| `Editing.EdgeOrientation` | arcviz/src/ui/workspace_context.rs:331-335 | For a selected connection, only it is transformed. |
| `Editing.OrientationTwiceUndoes` | arcviz/src/ui/workspace_context.rs:324-347 | Changing the orientation twice with an involution such as `inverse` gives the workspace back. |

## Left out

- Arc geometry (`model/arc.rs`: construction, angles, distances, intersection) is floating-point. `Data::conflicts` receives its results as inputs, through `Conflicts.Geometry`. `ArcIntersection::Concentric` is kept without its angle ranges, because the filter ignores them.
- `Vector::is_right` is not part of this model. It is the `isRight` input.
- `Conflicts.CollisionIsConnection`: the `is_right` test is an input, so the model decides only which side is explained, not where the vertex lies.
- The float queries of `Data` (`closest_vertex_to`, `closest_connection_to`, `vertices_in`), rendering, `label_vertex`, and the UI, event and canvas code are out of scope.
- `Editing.ConnectAt`: the hit test `get_vertex_at` uses the view transform and distances, so the vertex it finds is a parameter.
- The text form of vertices (`Vertex` `to_string`/`from_str`) relies on float formatting and is not modelled. `Data::to_string` and the section splitting of `Data::from_str` rest on it, so only their connection section and final resize step are modelled (`Diagram.FromSections`, `Diagram.SectionsRoundTrip`).
- `SizeClasses.ClassFromText`: size parsing and printing (`f64` `from_str`/`Display`) are caller-supplied functions. `SizeClasses.ClassRoundTrip` and `SizeClasses.ClassesRoundTrip` assume they round-trip on the sizes in question and print no space or line break for them.
- `MatrixText.FromText`: uses the corrected line parse, so a `0` id or size makes it fail. The source panics on such a line in a debug build. In a release build it wraps the field to `usize::MAX` and accepts the text; for `0 1 right 1` that yields an empty 1×1 matrix.
- `Editing.ChangeSelectionClass`: steps with the corrected `next`. On a table with no classes, the source's `next` panics in a debug build even when no connection is stored. In a release build it returns `id + 1`, which is written to a stored connection.
- `Text.ParseNat`: does not reject numbers above `usize::MAX`, because ids are unbounded here.
- `Editing.ChangeOrientationOfSelection`: the `FnMut` transformation is a pure function, so a closure with its own state is not covered.
- `Editing.SelectedPairs`: `connections_subset` looks ids up by `binary_search`. This is modelled as membership, which agrees when the area is sorted, as `Selection::Area` documents.
- `Editing.DropAllCount`, `Editing.DropAllKeepsVertex`, `Editing.DropAllKeepsSlot`: these assume an ascending area of existing ids, as `Selection::Area` documents. An unsorted area is modelled by `Editing.DropAll` but has no lemma.
- `Connections::get_mut` and `Data::edge_mut` are covered only through `Matrix.Get` followed by `Matrix.SetEntry`, which is how the edits use them.
- serde/JSON (de)serialization, `rerender`, the stage, settings and file I/O are left out, as are the resource registry, the aids and the label text.

## Findings

| source | as written | input that shows it | evidently intended | confidence | as-written member | corrected member |
|---|---|---|---|---|---|---|
| arcviz/src/model/connections.rs:219 | `start - 1`, `end - 1` and `size - 1` on `usize` after parsing ids that are written 1-based. A `0` token underflows. A debug build panics. A release build wraps the field to `usize::MAX` and accepts the line; for `0 1 right 1` the size computation wraps back to 1, the write lands out of range and is skipped, and the result is an empty 1×1 matrix. | the line `0 1 right 1` | Reject a `0` id or size as malformed, like any other unreadable line. | not executed | `MatrixText.ZeroIdUnderflows` | `MatrixText.ZeroIdRejected` |
| arcviz/src/model/classes.rs:73 | `next` computes `self.items.len() - 1` before comparing. On a table with no classes (a size-class text of one line, which `from_str` accepts, leaving only the default) it underflows. A debug build panics. A release build wraps to `usize::MAX`, so `next` returns `id + 1`, a class past the table. | a table read from the text `300 white`, then `next(0)` | Stay at the current id when there is no class to step to. | not executed | `SizeClasses.NextUnderflowsOnEmptyTable` | `SizeClasses.NextCorrects` |
