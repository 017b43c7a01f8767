/** The chunk-grid lifecycle of the terrain (terrain.js, class ChunkManager): a list of
    land chunks keyed by integer grid offset, each with a vertex buffer displaced by a
    noise sampler and coloured by height, plus a sea plane sized to the grid. */
module Terrain {

  datatype Option<T> = None | Some(value: T)

  /** The (x, -z) grid offset a chunk stores. */
  datatype Offset = Offset(x: int, y: int)

  /** A chunk's position in the world; only y follows the sea level. */
  datatype Position = Position(x: int, y: real, z: int)

  /** Vertex colours: the four height bands of land chunks and the flat sea colour. */
  datatype Colour = Beach | Grassland | Mountain | Snow | Sea

  /** A land chunk: its offset, its position, its vertex buffer (x, y, height triples,
      updated in place) and one colour per vertex. */
  datatype Chunk = Chunk(offset: Offset, position: Position, vertices: array<real>, colours: seq<Colour>)

  /** The sea plane: its side length, its position and one colour per vertex. */
  datatype SeaChunk = SeaChunk(size: int, position: Position, colours: seq<Colour>)

  /** The noise sampler NoiseGenerator.Get, as a function of the two plane coordinates. */
  type Noise = (real, real) -> real

  /** Chunk side length and the grid centre (the initial camera's x and z). */
  datatype Layout = Layout(size: int, cx: int, cz: int)

  // ---------------------------------------------------------------- rounding

  /** roundToOdd: an even value moves up (or down) by one, an odd value stays; any other
      direction yields no value. */
  function RoundToOdd(value: int, direction: string): (r: Option<int>)
    ensures r.Some? <==> direction == "up" || direction == "down"
    ensures r.Some? ==> r.value % 2 == 1
    ensures r.Some? && value % 2 == 1 ==> r.value == value
    ensures direction == "up" ==> value <= r.value <= value + 1
    ensures direction == "down" ==> value - 1 <= r.value <= value
  {
    if direction == "up" then Some(if value % 2 == 0 then value + 1 else value)
    else if direction == "down" then Some(if value % 2 == 0 then value - 1 else value)
    else None
  }

  // ---------------------------------------------------------------- colours

  /** The colour band of a vertex height (generateVertexColors). */
  function BandOf(height: real): (c: Colour)
    ensures c == Beach <==> height < 15.0
    ensures c == Grassland <==> 15.0 <= height <= 45.0
    ensures c == Mountain <==> 45.0 < height <= 85.0
    ensures c == Snow <==> height > 85.0
    ensures c != Sea
  {
    if height < 15.0 then Beach
    else if height > 85.0 then Snow
    else if height > 45.0 then Mountain
    else Grassland
  }

  /** The colour generateVertexColors gives vertex k of buffer v. The vertex count is
      the buffer length divided by three without rounding, so a trailing partial triple
      counts as a vertex; its height reads past the end, and an undefined height fails
      every comparison of the band chain and falls through to grassland. */
  function VertexBand(v: seq<real>, k: nat): (c: Colour)
    ensures 3 * k + 2 < |v| ==> c == BandOf(v[3 * k + 2])
    ensures 3 * k + 2 >= |v| ==> c == Grassland
  {
    if 3 * k + 2 < |v| then BandOf(v[3 * k + 2]) else Grassland
  }

  /** One colour for each k with 3 * k below the buffer length, the band of vertex k. */
  predicate ColouredByHeight(colours: seq<Colour>, v: seq<real>) {
    |colours| == (|v| + 2) / 3 &&
    forall k :: 0 <= k < |colours| ==> colours[k] == VertexBand(v, k)
  }

  // ---------------------------------------------------------------- noise

  /** The buffer after modifyVerticesWithNoise: every third entry (the height of a
      vertex) becomes the noise at that vertex's plane coordinates shifted by the offset;
      the plane coordinates themselves stay. */
  function WithNoise(v: seq<real>, ox: int, oy: int, gen: Noise): (r: seq<real>)
    ensures |r| == |v|
  {
    seq(|v|, i requires 0 <= i < |v| =>
      if i % 3 == 2 then gen(v[i - 2] + ox as real, v[i - 1] + oy as real) else v[i])
  }

  /** Displacement leaves the plane coordinates of every vertex as they were. */
  lemma NoiseKeepsPlane(v: seq<real>, ox: int, oy: int, g: Noise, i: int)
    requires 0 <= i < |v| && i % 3 != 2
    ensures |WithNoise(v, ox, oy, g)| == |v| && WithNoise(v, ox, oy, g)[i] == v[i]
  {
  }

  /** Displacement sets each height to the sampler's value at the vertex's plane
      coordinates plus the offset. */
  lemma NoiseSetsHeight(v: seq<real>, ox: int, oy: int, g: Noise, i: int)
    requires 0 <= i < |v| && i % 3 == 2
    ensures WithNoise(v, ox, oy, g)[i] == g(v[i - 2] + ox as real, v[i - 1] + oy as real)
  {
  }

  /** The vertex at 3 * k after displacement: plane coordinates kept, height sampled. */
  lemma NoiseTriple(v: seq<real>, ox: int, oy: int, g: Noise, k: nat)
    requires 3 * k < |v|
    ensures |WithNoise(v, ox, oy, g)| == |v|
    ensures WithNoise(v, ox, oy, g)[3 * k] == v[3 * k]
    ensures 3 * k + 1 < |v| ==> WithNoise(v, ox, oy, g)[3 * k + 1] == v[3 * k + 1]
    ensures 3 * k + 2 < |v| ==>
      WithNoise(v, ox, oy, g)[3 * k + 2] == g(v[3 * k] + ox as real, v[3 * k + 1] + oy as real)
  {
    NoiseKeepsPlane(v, ox, oy, g, 3 * k);
    if 3 * k + 1 < |v| {
      NoiseKeepsPlane(v, ox, oy, g, 3 * k + 1);
    }
    if 3 * k + 2 < |v| {
      NoiseSetsHeight(v, ox, oy, g, 3 * k + 2);
    }
  }

  /** The loop of modifyVerticesWithNoise: writes the sampler's value into the height of
      every vertex and leaves its plane coordinates alone. A trailing partial triple is
      left unchanged, as a write past the end of a typed array is. */
  method DisplaceVertices(vertices: array<real>, offset: Offset, gen: Noise)
    modifies vertices
    ensures vertices[..] == WithNoise(old(vertices[..]), offset.x, offset.y, gen)
  {
    var ox, oy := offset.x, offset.y;
    ghost var v := vertices[..];
    ghost var w := WithNoise(v, ox, oy, gen);
    var i := 0;
    ghost var k := 0;
    while i < vertices.Length
      invariant 0 <= i == 3 * k
      invariant forall j :: 0 <= j < i && j < vertices.Length ==> vertices[j] == w[j]
      invariant forall j :: i <= j < vertices.Length ==> vertices[j] == v[j]
    {
      NoiseTriple(v, ox, oy, gen, k);
      if i + 2 < vertices.Length {
        var x := vertices[i];
        var y := vertices[i + 1];
        var result := gen(x + ox as real, y + oy as real);
        vertices[i + 2] := result;
      }
      assert forall j :: i <= j < i + 3 && j < vertices.Length ==> vertices[j] == w[j];
      i := i + 3;
      k := k + 1;
    }
    assert vertices[..] == w;
  }

  /** Displacing twice is displacing once with the second sampler: the heights are
      always recomputed from the unchanged plane coordinates. */
  lemma NoiseOverwrites(v: seq<real>, ox: int, oy: int, g1: Noise, g2: Noise)
    ensures WithNoise(WithNoise(v, ox, oy, g1), ox, oy, g2) == WithNoise(v, ox, oy, g2)
  {
    var w := WithNoise(v, ox, oy, g1);
    var a := WithNoise(w, ox, oy, g2);
    var b := WithNoise(v, ox, oy, g2);
    forall i | 0 <= i < |v| ensures a[i] == b[i] {
      if i % 3 == 2 {
        NoiseKeepsPlane(v, ox, oy, g1, i - 2);
        NoiseKeepsPlane(v, ox, oy, g1, i - 1);
        NoiseSetsHeight(w, ox, oy, g2, i);
        NoiseSetsHeight(v, ox, oy, g2, i);
      } else {
        NoiseKeepsPlane(w, ox, oy, g2, i);
        NoiseKeepsPlane(v, ox, oy, g2, i);
        NoiseKeepsPlane(v, ox, oy, g1, i);
      }
    }
    assert a == b;
  }

  // ---------------------------------------------------------------- chunk lists

  function Offsets(cs: seq<Chunk>): (r: seq<Offset>)
    ensures |r| == |cs|
    ensures forall i :: 0 <= i < |cs| ==> r[i] == cs[i].offset
  {
    seq(|cs|, i requires 0 <= i < |cs| => cs[i].offset)
  }

  /** No two chunks share an offset or a vertex buffer. */
  predicate Distinct(cs: seq<Chunk>) {
    forall i, j :: 0 <= i < j < |cs| ==> cs[i].offset != cs[j].offset && cs[i].vertices != cs[j].vertices
  }

  predicate NoDup(s: seq<Offset>) {
    forall i, j :: 0 <= i < j < |s| ==> s[i] != s[j]
  }

  /** The offsets after one generateChunk: appended when absent. */
  function Add(s: seq<Offset>, o: Offset): (r: seq<Offset>)
  {
    if o in s then s else s + [o]
  }

  /** The offsets after generateChunk has been called for each cell in turn. */
  function Merge(have: seq<Offset>, cells: seq<Offset>): (r: seq<Offset>)
    decreases |cells|
  {
    if cells == [] then have else Add(Merge(have, cells[..|cells| - 1]), cells[|cells| - 1])
  }

  lemma {:induction false} MergeConcat(have: seq<Offset>, a: seq<Offset>, b: seq<Offset>)
    ensures Merge(have, a + b) == Merge(Merge(have, a), b)
    decreases |b|
  {
    if b == [] {
      assert a + b == a;
    } else {
      var b' := b[..|b| - 1];
      assert (a + b)[..|a + b| - 1] == a + b';
      assert (a + b)[|a + b| - 1] == b[|b| - 1];
      MergeConcat(have, a, b');
    }
  }

  /** Merging keeps what was there, in place, adds exactly the missing cells, and never
      introduces a duplicate. */
  lemma {:induction false} MergeSpec(have: seq<Offset>, cells: seq<Offset>)
    ensures |have| <= |Merge(have, cells)| && Merge(have, cells)[..|have|] == have
    ensures forall o :: o in Merge(have, cells) <==> o in have || o in cells
    ensures NoDup(have) ==> NoDup(Merge(have, cells))
    decreases |cells|
  {
    if cells != [] {
      var init := cells[..|cells| - 1];
      var last := cells[|cells| - 1];
      MergeSpec(have, init);
      var m := Merge(have, init);
      assert cells == init + [last];
      if last !in m {
        assert (m + [last])[..|have|] == m[..|have|];
      }
    }
  }

  // ---------------------------------------------------------------- the grid

  /** The stored offset of the chunk at grid row and column. */
  function Cell(row: int, col: int, g: Layout): Offset {
    Offset(Times(col, g.size) + g.cx, -(Times(row, g.size) + g.cz))
  }

  /** k * s by repeated addition: grid positions are stated through it so that the
      reasoning about the grid stays linear. */
  function Times(k: int, s: int): int
    decreases if k < 0 then -k else k
  {
    if k == 0 then 0 else if k > 0 then Times(k - 1, s) + s else Times(k + 1, s) - s
  }

  lemma {:induction false} TimesIsProduct(k: int, s: int)
    ensures Times(k, s) == k * s
    decreases if k < 0 then -k else k
  {
    if k > 0 {
      TimesIsProduct(k - 1, s);
    } else if k < 0 {
      TimesIsProduct(k + 1, s);
    }
  }

  /** The cell at grid row and column is the offset generateGrid computes for it. */
  lemma CellAt(row: int, col: int, g: Layout)
    ensures Cell(row, col, g) == Offset(col * g.size + g.cx, -(row * g.size + g.cz))
  {
    TimesIsProduct(col, g.size);
    TimesIsProduct(row, g.size);
  }

  /** The cells of one row for columns -h up to (not including) hiCol. */
  function RowCells(row: int, h: int, g: Layout, hiCol: int): (r: seq<Offset>)
    decreases hiCol + h
  {
    if hiCol <= -h then [] else RowCells(row, h, g, hiCol - 1) + [Cell(row, hiCol - 1, g)]
  }

  /** The cells of rows -h up to (not including) hiRow, row by row. */
  function GridRows(h: int, g: Layout, hiRow: int): seq<Offset>
    decreases hiRow + h
  {
    if hiRow <= -h then [] else GridRows(h, g, hiRow - 1) + RowCells(hiRow - 1, h, g, h + 1)
  }

  /** generateGrid's visiting order: rows and columns from -h to h. */
  function GridCells(h: int, g: Layout): seq<Offset> {
    GridRows(h, g, h + 1)
  }

  /** A row's cell list has one cell per column from -h up to hiCol. */
  lemma {:induction false} RowCellsLength(row: int, h: int, g: Layout, hiCol: int)
    ensures |RowCells(row, h, g, hiCol)| == if hiCol <= -h then 0 else hiCol + h
    decreases hiCol + h
  {
    if hiCol > -h {
      RowCellsLength(row, h, g, hiCol - 1);
    }
  }

  lemma {:induction false} RowCellsMembers(row: int, h: int, g: Layout, hiCol: int, o: Offset)
    ensures o in RowCells(row, h, g, hiCol) <==> exists col :: -h <= col < hiCol && o == Cell(row, col, g)
    decreases hiCol + h
  {
    if hiCol > -h {
      RowCellsMembers(row, h, g, hiCol - 1, o);
    }
  }

  lemma {:induction false} GridRowsMembers(h: int, g: Layout, hiRow: int, o: Offset)
    ensures o in GridRows(h, g, hiRow) <==>
      exists row, col :: -h <= row < hiRow && -h <= col <= h && o == Cell(row, col, g)
    decreases hiRow + h
  {
    if hiRow > -h {
      GridRowsMembers(h, g, hiRow - 1, o);
      RowCellsMembers(hiRow - 1, h, g, h + 1, o);
    }
  }

  lemma MergeRowStep(have: seq<Offset>, row: int, h: int, g: Layout, col: int)
    requires -h <= col
    ensures Merge(have, RowCells(row, h, g, col + 1)) == Add(Merge(have, RowCells(row, h, g, col)), Cell(row, col, g))
  {
    var cells := RowCells(row, h, g, col + 1);
    assert cells[..|cells| - 1] == RowCells(row, h, g, col);
  }

  /** One more column of a row of generateGrid extends the chunks list by that cell. */
  lemma RowStep(first: seq<Chunk>, prev: seq<Chunk>, after: seq<Chunk>, row: int, h: int, g: Layout, col: int)
    requires -h <= col
    requires |first| <= |prev| && prev[..|first|] == first
    requires |prev| <= |after| && after[..|prev|] == prev
    requires Offsets(prev) == Merge(Offsets(first), RowCells(row, h, g, col))
    requires Offsets(after) == Add(Offsets(prev), Cell(row, col, g))
    ensures |first| <= |after| && after[..|first|] == first
    ensures Offsets(after) == Merge(Offsets(first), RowCells(row, h, g, col + 1))
  {
    assert after[..|first|] == prev[..|first|];
    MergeRowStep(Offsets(first), row, h, g, col);
  }

  /** One more row of generateGrid extends the merged prefix of the grid by that row. */
  lemma GridStep(start: seq<Chunk>, prev: seq<Chunk>, after: seq<Chunk>, h: int, g: Layout, row: int)
    requires -h <= row
    requires |start| <= |prev| && prev[..|start|] == start
    requires |prev| <= |after| && after[..|prev|] == prev
    requires Offsets(prev) == Merge(Offsets(start), GridRows(h, g, row))
    requires Offsets(after) == Merge(Offsets(prev), RowCells(row, h, g, h + 1))
    ensures |start| <= |after| && after[..|start|] == start
    ensures Offsets(after) == Merge(Offsets(start), GridRows(h, g, row + 1))
  {
    assert after[..|start|] == prev[..|start|];
    MergeConcat(Offsets(start), GridRows(h, g, row), RowCells(row, h, g, h + 1));
  }

  /** After merging the grid into a list, every cell of rows and columns -h..h is in it. */
  lemma GridCovered(have: seq<Offset>, h: int, g: Layout)
    ensures forall row, col :: -h <= row <= h && -h <= col <= h ==> Cell(row, col, g) in Merge(have, GridCells(h, g))
  {
    MergeSpec(have, GridCells(h, g));
    forall row, col | -h <= row <= h && -h <= col <= h
      ensures Cell(row, col, g) in GridCells(h, g)
    {
      GridCellsMembers(h, g, Cell(row, col, g));
    }
  }

  /** The grid holds exactly the cells of rows and columns -h..h. */
  lemma GridCellsMembers(h: int, g: Layout, o: Offset)
    ensures o in GridCells(h, g) <==>
      exists row, col :: -h <= row <= h && -h <= col <= h && o == Cell(row, col, g)
  {
    GridRowsMembers(h, g, h + 1, o);
  }

  /** A duplicate-free list whose offsets are a list merged with the grid holds exactly
      one chunk at each grid cell, the offset generateGrid computes for that cell. */
  lemma GridCellOnce(before: seq<Chunk>, after: seq<Chunk>, h: int, g: Layout, row: int, col: int)
    requires Distinct(after) && Offsets(after) == Merge(Offsets(before), GridCells(h, g))
    requires -h <= row <= h && -h <= col <= h
    ensures Cell(row, col, g) == Offset(col * g.size + g.cx, -(row * g.size + g.cz))
    ensures exists i :: 0 <= i < |after| && after[i].offset == Cell(row, col, g)
    ensures forall i, j :: 0 <= i < j < |after| ==>
      !(after[i].offset == Cell(row, col, g) && after[j].offset == Cell(row, col, g))
  {
    CellAt(row, col, g);
    GridCovered(Offsets(before), h, g);
    var k :| 0 <= k < |after| && Offsets(after)[k] == Cell(row, col, g);
    assert after[k].offset == Cell(row, col, g);
  }

  // ---------------------------------------------------------------- pruning

  /** pruneChunks keeps a chunk unless its offset is beyond the bound on either axis. */
  predicate Kept(c: Chunk, bound: int) {
    !(Abs(c.offset.x) > bound || Abs(c.offset.y) > bound)
  }

  function Abs(x: int): int {
    if x < 0 then -x else x
  }

  /** The chunks pruneChunks leaves, in their original order. */
  function Pruned(cs: seq<Chunk>, bound: int): (r: seq<Chunk>)
    ensures |r| <= |cs|
  {
    if cs == [] then [] else (if Kept(cs[0], bound) then [cs[0]] else []) + Pruned(cs[1..], bound)
  }

  /** Pruning removes exactly the chunks out of bounds. */
  lemma {:induction false} PrunedMembers(cs: seq<Chunk>, bound: int, c: Chunk)
    ensures c in Pruned(cs, bound) <==> c in cs && Kept(c, bound)
  {
    if cs != [] {
      PrunedMembers(cs[1..], bound, c);
      assert cs == [cs[0]] + cs[1..];
    }
  }

  /** pruneChunks' walk over the list from its last chunk to its first, splicing out
      every chunk beyond the bound. */
  method PruneList(cs: seq<Chunk>, bound: int) returns (remaining: seq<Chunk>)
    ensures remaining == Pruned(cs, bound)
  {
    remaining := cs;
    var i := |remaining| - 1;
    while i >= 0
      invariant -1 <= i < |cs|
      invariant remaining == cs[..i + 1] + Pruned(cs[i + 1..], bound)
    {
      PrunedStep(cs, i, bound);
      var chunk := remaining[i];
      var xOutsideBounds := Abs(chunk.offset.x) > bound;
      var yOutsideBounds := Abs(chunk.offset.y) > bound;
      if xOutsideBounds || yOutsideBounds {
        remaining := remaining[..i] + remaining[i + 1..];
      }
      i := i - 1;
    }
    assert cs[0..] == cs;
  }

  lemma PrunedSubset(cs: seq<Chunk>, bound: int)
    ensures forall c :: c in Pruned(cs, bound) ==> c in cs
  {
    forall c | c in Pruned(cs, bound) ensures c in cs {
      PrunedMembers(cs, bound, c);
    }
  }

  /** Pruning works piecewise, so the survivors keep their relative order. */
  lemma {:induction false} PrunedConcat(a: seq<Chunk>, b: seq<Chunk>, bound: int)
    ensures Pruned(a + b, bound) == Pruned(a, bound) + Pruned(b, bound)
  {
    if a == [] {
      assert a + b == b;
    } else {
      var head := if Kept(a[0], bound) then [a[0]] else [];
      PrunedConcat(a[1..], b, bound);
      assert a + b == [a[0]] + (a[1..] + b);
      PrunedCons(a[0], a[1..] + b, bound);
      PrunedCons(a[0], a[1..], bound);
      assert a == [a[0]] + a[1..];
      assert head + (Pruned(a[1..], bound) + Pruned(b, bound)) == (head + Pruned(a[1..], bound)) + Pruned(b, bound);
    }
  }

  /** One step of pruneChunks' reverse walk: the chunk at i is kept or dropped in front
      of what the walk has kept so far. */
  lemma PrunedStep(s: seq<Chunk>, i: int, bound: int)
    requires 0 <= i < |s|
    ensures s[..i + 1] + Pruned(s[i + 1..], bound) == s[..i] + ([s[i]] + Pruned(s[i + 1..], bound))
    ensures (s[..i + 1] + Pruned(s[i + 1..], bound))[..i] == s[..i]
    ensures (s[..i + 1] + Pruned(s[i + 1..], bound))[i] == s[i]
    ensures (s[..i + 1] + Pruned(s[i + 1..], bound))[i + 1..] == Pruned(s[i + 1..], bound)
    ensures Pruned(s[i..], bound) == (if Kept(s[i], bound) then [s[i]] else []) + Pruned(s[i + 1..], bound)
  {
    assert s[..i + 1] == s[..i] + [s[i]];
    assert s[i..] == [s[i]] + s[i + 1..];
    PrunedCons(s[i], s[i + 1..], bound);
  }

  lemma PrunedCons(c: Chunk, cs: seq<Chunk>, bound: int)
    ensures Pruned([c] + cs, bound) == (if Kept(c, bound) then [c] else []) + Pruned(cs, bound)
  {
    assert ([c] + cs)[0] == c && ([c] + cs)[1..] == cs;
  }

  /** A list whose chunks are all within bounds is left as it is. */
  lemma {:induction false} PrunedAllKept(cs: seq<Chunk>, bound: int)
    requires forall c :: c in cs ==> Kept(c, bound)
    ensures Pruned(cs, bound) == cs
  {
    if cs != [] {
      assert cs[0] in cs;
      forall c | c in cs[1..] ensures Kept(c, bound) {
        assert c in cs;
      }
      PrunedAllKept(cs[1..], bound);
      assert cs == [cs[0]] + cs[1..];
    }
  }

  lemma {:induction false} PrunedDistinct(cs: seq<Chunk>, bound: int)
    requires Distinct(cs)
    ensures Distinct(Pruned(cs, bound))
  {
    if cs != [] {
      var tail := cs[1..];
      assert Distinct(tail) by {
        forall i, j | 0 <= i < j < |tail|
          ensures tail[i].offset != tail[j].offset && tail[i].vertices != tail[j].vertices
        {
          assert tail[i] == cs[i + 1] && tail[j] == cs[j + 1];
        }
      }
      PrunedDistinct(tail, bound);
      var rest := Pruned(tail, bound);
      if Kept(cs[0], bound) {
        var all := [cs[0]] + rest;
        forall j | 0 <= j < |rest|
          ensures cs[0].offset != rest[j].offset && cs[0].vertices != rest[j].vertices
        {
          PrunedMembers(tail, bound, rest[j]);
          var k :| 0 <= k < |tail| && tail[k] == rest[j];
          assert tail[k] == cs[k + 1];
        }
        forall i, j | 0 <= i < j < |all|
          ensures all[i].offset != all[j].offset && all[i].vertices != all[j].vertices
        {
          if i == 0 {
            assert all[j] == rest[j - 1];
          } else {
            assert all[i] == rest[i - 1] && all[j] == rest[j - 1];
          }
        }
      }
    }
  }

  lemma OffsetsMember(cs: seq<Chunk>, o: Offset)
    ensures o in Offsets(cs) <==> exists c :: c in cs && c.offset == o
  {
    if o in Offsets(cs) {
      var i :| 0 <= i < |cs| && Offsets(cs)[i] == o;
      assert cs[i] in cs;
    }
  }

  /** Shrinking a grid and growing it back restores its set of offsets: every chunk the
      prune keeps is a grid cell, and regrowing adds every cell that is missing. */
  lemma ShrinkThenGrowRestores(cs: seq<Chunk>, bound: int, grid: seq<Offset>, o: Offset)
    requires forall c :: c in cs ==> c.offset in grid
    ensures o in Merge(Offsets(Pruned(cs, bound)), grid) <==> o in grid
  {
    MergeSpec(Offsets(Pruned(cs, bound)), grid);
    OffsetsMember(Pruned(cs, bound), o);
    if o in Offsets(Pruned(cs, bound)) {
      var c :| c in Pruned(cs, bound) && c.offset == o;
      PrunedMembers(cs, bound, c);
    }
  }

  // ---------------------------------------------------------------- the sea

  /** The sea plane's side (generateSeaChunk). */
  function SeaSize(n: int, size: int): int {
    if n % 2 == 0 then size * (n + 1) else size * n
  }

  /** The sea side is the grid side rounded up to odd, times the chunk size; for an odd
      grid, whose rows and columns run from -(n/2) to n/2, that is the 2 * (n/2) + 1
      chunks the grid spans. */
  lemma SeaSpansGrid(n: int, size: int)
    ensures SeaSize(n, size) == size * RoundToOdd(n, "up").value
    ensures n % 2 == 1 ==> SeaSize(n, size) == size * (2 * (n / 2) + 1)
  {
    if n % 2 == 1 {
      assert 2 * (n / 2) + 1 == n;
    }
  }

  /** The sea chunk generateSeaChunk builds: at the origin, one sea colour per vertex. */
  function SeaFor(n: int, size: int, vertexCount: nat): (r: SeaChunk)
    ensures |r.colours| == vertexCount && forall k :: 0 <= k < vertexCount ==> r.colours[k] == Sea
  {
    SeaChunk(SeaSize(n, size), Position(0, 0.0, 0), seq(vertexCount, _ => Sea))
  }

  // ---------------------------------------------------------------- the manager

  class ChunkManager {
    var n: int
    const size: int
    const cx: int
    const cz: int
    var yOffset: real
    /** The vertex buffer of a fresh chunk geometry (x, y, height triples). */
    const template: seq<real>
    /** The number of vertices of the sea plane's geometry. */
    const seaVertexCount: nat
    var generator: Noise
    var chunks: seq<Chunk>
    var seaChunk: SeaChunk

    function Grid(): Layout {
      Layout(size, cx, cz)
    }

    ghost function Buffers(): set<array<real>>
      reads this`chunks
    {
      set c | c in chunks :: c.vertices
    }

    /** A live chunk sits at its offset and the sea level, its heights are the current
        sampler's at its vertices, and its colours are the bands of those heights. */
    ghost predicate Fits(c: Chunk)
      reads this`yOffset, this`generator, c.vertices
    {
      FitsUnder(c, generator)
    }

    /** Fits, for the sampler gen in place of the current one. */
    ghost predicate FitsUnder(c: Chunk, gen: Noise)
      reads this`yOffset, c.vertices
    {
      c.position == Position(c.offset.x, -yOffset, -c.offset.y) &&
      c.vertices[..] == WithNoise(template, c.offset.x, c.offset.y, gen) &&
      ColouredByHeight(c.colours, c.vertices[..])
    }

    ghost predicate ChunksValid()
      reads this`chunks, this`yOffset, this`generator, Buffers()
    {
      Distinct(chunks) && forall c :: c in chunks ==> Fits(c)
    }

    ghost predicate Valid()
      reads this, Buffers()
    {
      ChunksValid() && n % 2 == 1 && seaChunk == SeaFor(n, size, seaVertexCount)
    }

    /** The constructor rounds n up to odd, fills the grid around the camera and builds
        the sea plane. */
    constructor (n: int, size: int, seaLevel: real, cameraX: int, cameraZ: int,
                 template: seq<real>, seaVertexCount: nat, generator: Noise)
      ensures Valid()
      ensures this.n == RoundToOdd(n, "up").value && this.size == size && yOffset == seaLevel
      ensures cx == cameraX && cz == cameraZ && this.template == template
      ensures this.seaVertexCount == seaVertexCount && this.generator == generator
      ensures Offsets(chunks) == Merge([], GridCells(this.n / 2, Grid()))
    {
      this.n := RoundToOdd(n, "up").value;
      this.size := size;
      yOffset := seaLevel;
      cx, cz := cameraX, cameraZ;
      this.template := template;
      this.seaVertexCount := seaVertexCount;
      this.generator := generator;
      chunks := [];
      seaChunk := SeaChunk(0, Position(0, 0.0, 0), []);
      new;
      GenerateGrid();
      GenerateSeaChunk();
    }

    /** The per-frame hook; it does nothing. */
    method Update() {
    }

    /** generateSeaChunk: replaces the sea chunk by a fresh one sized to the grid. */
    method GenerateSeaChunk()
      modifies this`seaChunk
      ensures seaChunk == SeaFor(n, size, seaVertexCount)
    {
      var newSize := SeaSize(n, size);
      var colours := [];
      var i := 0;
      while i < seaVertexCount
        invariant 0 <= i <= seaVertexCount
        invariant colours == seq(i, _ => Sea)
      {
        colours := colours + [Sea];
        i := i + 1;
      }
      seaChunk := SeaChunk(newSize, Position(0, 0.0, 0), colours);
    }

    /** findChunkAtPosition: whether a chunk stores the offset (xOffset, -zOffset). */
    method FindChunkAtPosition(xOffset: int, zOffset: int) returns (found: bool)
      ensures found <==> exists i :: 0 <= i < |chunks| && chunks[i].offset == Offset(xOffset, -zOffset)
    {
      var i := 0;
      while i < |chunks|
        invariant 0 <= i <= |chunks|
        invariant forall j :: 0 <= j < i ==> chunks[j].offset != Offset(xOffset, -zOffset)
      {
        if chunks[i].offset.x == xOffset && chunks[i].offset.y == -zOffset {
          return true;
        }
        i := i + 1;
      }
      return false;
    }

    /** generateVertexColors: one colour per vertex from its height, for every i with
        i below the buffer length divided by three. */
    method GenerateVertexColours(vertices: array<real>) returns (colours: seq<Colour>)
      ensures ColouredByHeight(colours, vertices[..])
    {
      colours := [];
      var i := 0;
      while 3 * i < vertices.Length
        invariant 0 <= i && 3 * i <= vertices.Length + 2
        invariant |colours| == i
        invariant forall k :: 0 <= k < i ==> colours[k] == VertexBand(vertices[..], k)
      {
        var colour := if i * 3 + 2 < vertices.Length then BandOf(vertices[i * 3 + 2]) else Grassland;
        colours := colours + [colour];
        i := i + 1;
      }
    }

    /** modifyVerticesWithNoise: displaces the buffer with this manager's sampler. */
    method ModifyVerticesWithNoise(vertices: array<real>, offset: Offset)
      modifies vertices
      ensures vertices[..] == WithNoise(old(vertices[..]), offset.x, offset.y, generator)
    {
      DisplaceVertices(vertices, offset, generator);
    }

    /** generateChunk: adds a chunk at (xOffset, -zOffset) unless one is already there. */
    method GenerateChunk(xOffset: int, zOffset: int) returns (created: bool)
      requires ChunksValid()
      modifies this`chunks
      ensures ChunksValid()
      ensures |old(chunks)| <= |chunks| && chunks[..|old(chunks)|] == old(chunks)
      ensures created <==> Offset(xOffset, -zOffset) !in Offsets(old(chunks))
      ensures !created ==> chunks == old(chunks)
      ensures created ==>
        |chunks| == |old(chunks)| + 1 && chunks[..|old(chunks)|] == old(chunks) &&
        chunks[|old(chunks)|].offset == Offset(xOffset, -zOffset) &&
        chunks[|old(chunks)|].position == Position(xOffset, -yOffset, zOffset) &&
        fresh(chunks[|old(chunks)|].vertices)
      ensures Offsets(chunks) == Add(Offsets(old(chunks)), Offset(xOffset, -zOffset))
    {
      var chunkExists := FindChunkAtPosition(xOffset, zOffset);
      OffsetsMember(chunks, Offset(xOffset, -zOffset));
      created := !chunkExists;
      if created {
        var vertices := new real[|template|](i requires 0 <= i < |template| => template[i]);
        assert vertices[..] == template;
        var offset := Offset(xOffset, -zOffset);
        var last := |chunks|;
        chunks := chunks + [Chunk(offset, Position(xOffset, -yOffset, zOffset), vertices, [])];
        ModifyVerticesWithNoise(vertices, offset);
        var colours := GenerateVertexColours(vertices);
        chunks := chunks[last := chunks[last].(colours := colours)];
        assert chunks == old(chunks) + [chunks[last]];
        assert Fits(chunks[last]);
        forall c | c in chunks ensures Fits(c) {
          if c != chunks[last] {
            assert c in old(chunks) && c.vertices != vertices;
          }
        }
        assert Offsets(chunks) == Offsets(old(chunks)) + [offset];
      }
    }

    /** The chunks list extends start by the cells of rows -h up to (not including) row. */
    ghost predicate GridSoFar(start: seq<Chunk>, h: int, row: int)
      reads this`chunks
    {
      |start| <= |chunks| && chunks[..|start|] == start &&
      Offsets(chunks) == Merge(Offsets(start), GridRows(h, Grid(), row))
    }

    /** generateGrid: generateChunk for every cell of rows and columns -n/2..n/2 around
        the camera; chunks already present are kept as they are. */
    method GenerateGrid()
      requires ChunksValid()
      modifies this`chunks
      ensures ChunksValid()
      ensures |old(chunks)| <= |chunks| && chunks[..|old(chunks)|] == old(chunks)
      ensures Offsets(chunks) == Merge(Offsets(old(chunks)), GridCells(n / 2, Grid()))
    {
      var halfSize := n / 2;
      ghost var start := chunks;
      ghost var g := Grid();
      var row := -halfSize;
      while row <= halfSize
        invariant ChunksValid()
        invariant (halfSize >= 0 ==> -halfSize <= row <= halfSize + 1) && (halfSize < 0 ==> row == -halfSize)
        invariant GridSoFar(start, halfSize, row)
      {
        ghost var prev := chunks;
        GenerateRow(row, halfSize);
        GridStep(start, prev, chunks, halfSize, g, row);
        row := row + 1;
      }
      assert GridRows(halfSize, g, row) == GridCells(halfSize, g);
    }

    /** The inner loop of generateGrid: generateChunk for columns -halfSize..halfSize of
        one row. */
    method GenerateRow(row: int, halfSize: int)
      requires ChunksValid()
      modifies this`chunks
      ensures ChunksValid()
      ensures |old(chunks)| <= |chunks| && chunks[..|old(chunks)|] == old(chunks)
      ensures Offsets(chunks) == Merge(Offsets(old(chunks)), RowCells(row, halfSize, Grid(), halfSize + 1))
    {
      var col := -halfSize;
      if halfSize < 0 {
        assert RowCells(row, halfSize, Grid(), halfSize + 1) == [];
      }
      while col <= halfSize
        invariant ChunksValid()
        invariant halfSize >= 0 ==> -halfSize <= col <= halfSize + 1
        invariant halfSize < 0 ==> col == -halfSize
        invariant |old(chunks)| <= |chunks| && chunks[..|old(chunks)|] == old(chunks)
        invariant Offsets(chunks) == Merge(Offsets(old(chunks)), RowCells(row, halfSize, Grid(), col))
      {
        var xOffset := col * size + cx;
        var zOffset := row * size + cz;
        CellAt(row, col, Grid());
        ghost var prev := chunks;
        var _ := GenerateChunk(xOffset, zOffset);
        assert Offsets(chunks) == Add(Offsets(prev), Cell(row, col, Grid()));
        RowStep(old(chunks), prev, chunks, row, halfSize, Grid(), col);
        col := col + 1;
      }
    }

    /** changeSeaLevel: moves every land chunk to the new level; offsets, x and z,
        vertex buffers and the sea chunk stay as they are. */
    method ChangeSeaLevel(newSeaLevel: real)
      requires Valid()
      modifies this`yOffset, this`chunks
      ensures Valid()
      ensures yOffset == newSeaLevel && |chunks| == |old(chunks)|
      ensures forall i :: 0 <= i < |chunks| ==>
        chunks[i] == old(chunks[i]).(position := old(chunks[i].position).(y := -newSeaLevel))
      ensures forall i :: 0 <= i < |chunks| ==> chunks[i].vertices[..] == old(chunks[i].vertices[..])
    {
      yOffset := newSeaLevel;
      var i := 0;
      while i < |chunks|
        invariant yOffset == newSeaLevel
        invariant 0 <= i <= |chunks| == |old(chunks)|
        invariant forall j :: 0 <= j < i ==>
          chunks[j] == old(chunks[j]).(position := old(chunks[j].position).(y := -newSeaLevel))
        invariant forall j :: i <= j < |chunks| ==> chunks[j] == old(chunks[j])
      {
        var currentChunk := chunks[i];
        chunks := chunks[i := currentChunk.(position := currentChunk.position.(y := -newSeaLevel))];
        i := i + 1;
      }
      assert Distinct(chunks) by {
        assert forall j :: 0 <= j < |chunks| ==>
          chunks[j].offset == old(chunks[j]).offset && chunks[j].vertices == old(chunks[j]).vertices;
      }
      forall c | c in chunks ensures Fits(c) {
        var j :| 0 <= j < |chunks| && chunks[j] == c;
        assert old(chunks[j]) in old(chunks);
      }
    }

    /** updateNoiseGenerator: installs a new sampler and redisplaces and recolours every
        chunk in place. */
    method UpdateNoiseGenerator(gen: Noise)
      requires Valid()
      modifies this`generator, this`chunks, Buffers()
      ensures Valid() && generator == gen && |chunks| == |old(chunks)|
      ensures forall i :: 0 <= i < |chunks| ==>
        chunks[i].offset == old(chunks[i].offset) && chunks[i].position == old(chunks[i].position) &&
        chunks[i].vertices == old(chunks[i].vertices)
    {
      ghost var cs, g0 := chunks, generator;
      forall j | 0 <= j < |cs| ensures FitsUnder(cs[j], g0) {
        assert cs[j] in cs;
      }
      generator := gen;
      var i := 0;
      while i < |chunks|
        invariant generator == gen
        invariant 0 <= i <= |chunks| == |cs|
        invariant forall j :: 0 <= j < |cs| ==> chunks[j] == cs[j].(colours := chunks[j].colours)
        invariant Distinct(chunks)
        invariant forall j :: 0 <= j < i ==> FitsUnder(chunks[j], gen)
        invariant forall j :: i <= j < |cs| ==> FitsUnder(chunks[j], g0)
      {
        RenoiseChunk(i, g0);
        i := i + 1;
      }
      forall c | c in chunks ensures Fits(c) {
        var j :| 0 <= j < |chunks| && chunks[j] == c;
      }
    }

    /** The body of updateNoiseGenerator's loop: redisplaces chunk i with the current
        sampler and recolours it; a chunk that fitted the previous sampler then fits
        the current one. */
    method RenoiseChunk(i: nat, ghost g0: Noise)
      requires i < |chunks| && FitsUnder(chunks[i], g0)
      modifies this`chunks, chunks[i].vertices
      ensures |chunks| == |old(chunks)|
      ensures chunks == old(chunks)[i := old(chunks[i]).(colours := chunks[i].colours)]
      ensures FitsUnder(chunks[i], generator)
    {
      var chunk := chunks[i];
      ModifyVerticesWithNoise(chunk.vertices, chunk.offset);
      NoiseOverwrites(template, chunk.offset.x, chunk.offset.y, g0, generator);
      var colours := GenerateVertexColours(chunk.vertices);
      chunks := chunks[i := chunk.(colours := colours)];
    }

    /** pruneChunks: removes, walking the list backwards, every chunk whose offset is
        more than size * floor(newN / 2) from the origin on either axis. */
    method PruneChunks(newN: int)
      requires ChunksValid()
      modifies this`chunks
      ensures ChunksValid()
      ensures chunks == Pruned(old(chunks), size * (newN / 2))
    {
      var halfSize := newN / 2;
      var pruneOffset := size * halfSize;
      PrunedDistinct(chunks, pruneOffset);
      PrunedSubset(chunks, pruneOffset);
      chunks := PruneList(chunks, pruneOffset);
    }

    /** regenerateChunks: rounds the new side length up to odd (the value written back
        into the parameters is returned), prunes when it shrinks, grows the grid when it
        grows, rebuilds the sea chunk in both cases and leaves everything alone when it
        is unchanged. */
    method RegenerateChunks(newN: int) returns (rounded: int)
      requires Valid()
      modifies this`n, this`chunks, this`seaChunk
      ensures Valid()
      ensures rounded == RoundToOdd(newN, "up").value && n == rounded
      ensures rounded < old(n) ==> chunks == Pruned(old(chunks), size * (rounded / 2))
      ensures rounded > old(n) ==>
        |old(chunks)| <= |chunks| && chunks[..|old(chunks)|] == old(chunks) &&
        Offsets(chunks) == Merge(Offsets(old(chunks)), GridCells(rounded / 2, Grid()))
      ensures rounded == old(n) ==> chunks == old(chunks) && seaChunk == old(seaChunk)
    {
      rounded := RoundToOdd(newN, "up").value;
      if rounded < n {
        PruneChunks(rounded);
        forall c | c in chunks ensures c in old(chunks) {
          PrunedMembers(old(chunks), size * (rounded / 2), c);
        }
        n := rounded;
        GenerateSeaChunk();
      } else if rounded > n {
        n := rounded;
        GenerateGrid();
        GenerateSeaChunk();
      }
      n := rounded;
    }
  }
}
