/**
 One row of the screen and of the two cell buffers.

 Between calls every front row is at rest: it says what its screen row shows, and a column
 under a wide glyph holds the invalid cell. Painting keeps a frontier: left of it the row
 shows the back buffer, right of it the row is still as it was, and the frontier column
 has lost its glyph if a wide glyph covered it.
 */
module TermboxRows {
  import opened Terminal
  import opened TermboxSpec

  /** Column x of a front row lies under a wide glyph. */
  predicate Skipped(wc: WidthFn, f: seq<Cell>, x: nat)
    requires x < |f|
  {
    x > 0 && Wide(wc, f[x - 1])
  }

  ghost predicate RestAt(wc: WidthFn, f: seq<Cell>, g: seq<Glyph>, x: nat)
    requires x < |f| == |g|
  {
    && !ZeroWidth(wc, f[x])
    && if Skipped(wc, f, x) then f[x] == INVALID
    else if Wide(wc, f[x]) && x + 1 < |f| then
      && f[x + 1] == INVALID
      && g[x] == WideL(f[x].ch, f[x].fg, f[x].bg)
      && g[x + 1] == WideR(f[x].ch, f[x].fg, f[x].bg)
    else g[x] == Single(wc, f[x])
  }

  /** A code point that takes no column and is sent as it is. */
  predicate ZeroWidth(wc: WidthFn, c: Cell) {
    wc(c.ch) == 0 && c.ch != 0
  }

  /** tb_present can paint column x: a wide glyph of the back row hides it, or its cell takes a
      column and is not taken for what is left of a wide glyph of the front row. */
  predicate PaintableAt(wc: WidthFn, b: seq<Cell>, f: seq<Cell>, x: nat)
    requires x < |b| == |f|
  {
    Shadowed(wc, b, x) || (!ZeroWidth(wc, b[x]) && !(b[x] == INVALID && Skipped(wc, f, x)))
  }

  ghost predicate RestRow(wc: WidthFn, f: seq<Cell>, g: seq<Glyph>) {
    |f| == |g| && forall x :: 0 <= x < |f| ==> RestAt(wc, f, g, x)
  }

  /** No cell that has to be drawn has a code point that takes no column. */
  ghost predicate Sendable(wc: WidthFn, b: seq<Cell>) {
    forall x :: 0 <= x < |b| ==> Shadowed(wc, b, x) || !ZeroWidth(wc, b[x])
  }

  /** The first x columns are painted. */
  ghost predicate PaintedTo(wc: WidthFn, b: seq<Cell>, f: seq<Cell>, g: seq<Glyph>, x: nat)
    requires |b| == |f| == |g|
  {
    forall i :: 0 <= i < x && i < |b| ==> f[i] == TileAt(wc, b, i) && g[i] == ShowAt(wc, b, i)
  }

  /** Column x is next. Before painting the front row was f0. */
  ghost predicate MidRow(wc: WidthFn, b: seq<Cell>, f0: seq<Cell>, f: seq<Cell>, g: seq<Glyph>, x: nat) {
    && |b| == |f0| == |f| == |g|
    && PaintedTo(wc, b, f, g, x)
    && (forall i :: x <= i < |b| ==> f[i] == f0[i])
    && (x < |b| ==> !Shadowed(wc, b, x))
    && (x < |b| ==> if Skipped(wc, f0, x) then f0[x] == INVALID && g[x] == Unknown else RestAt(wc, f0, g, x))
    && (forall i :: x < i < |b| ==> RestAt(wc, f0, g, i))
  }

  lemma {:induction false} StartRow(wc: WidthFn, b: seq<Cell>, f: seq<Cell>, g: seq<Glyph>)
    requires |b| == |f| && RestRow(wc, f, g)
    ensures MidRow(wc, b, f, f, g, 0)
  {
    if b != [] {
      assert RestAt(wc, f, g, 0);
    }
  }

  /** The cell at the frontier is unchanged: skip it. */
  lemma {:induction false} SkipCell(wc: WidthFn, b: seq<Cell>, f0: seq<Cell>, f: seq<Cell>, g: seq<Glyph>, x: nat)
    requires WidthTable(wc) && x < |b| && MidRow(wc, b, f0, f, g, x) && PaintableAt(wc, b, f0, x) && f[x] == b[x]
    ensures MidRow(wc, b, f0, f, g, x + CellWidth(wc, b[x]))
  {
    assert !Skipped(wc, f0, x) && RestAt(wc, f0, g, x);
    if x + 1 < |b| {
      assert RestAt(wc, f0, g, x + 1);
      if Wide(wc, b[x]) {
        assert Shadowed(wc, b, x + 1);
        if x + 2 < |b| {
          assert !Shadowed(wc, b, x + 2) && !Skipped(wc, f0, x + 2);
          assert RestAt(wc, f0, g, x + 2);
        }
      } else {
        assert !Shadowed(wc, b, x + 1);
      }
    }
  }

  /** Columns beyond `from` stay at rest when no glyph beyond it changes. */
  lemma {:induction false} RestBeyond(wc: WidthFn, f: seq<Cell>, g: seq<Glyph>, g': seq<Glyph>, from: nat)
    requires |f| == |g| == |g'| && from < |f| && g'[from + 1..] == g[from + 1..]
    requires forall i :: from < i < |f| ==> RestAt(wc, f, g, i)
    ensures forall i :: from < i < |f| ==> RestAt(wc, f, g', i)
  {
    forall i | from < i < |f|
      ensures RestAt(wc, f, g', i)
    {
      assert RestAt(wc, f, g, i);
      assert forall k :: from < k < |f| ==>
        g'[k] == g'[from + 1..][k - from - 1] && g[k] == g[from + 1..][k - from - 1];
    }
  }

  lemma {:induction false} PutNarrowAt(g: seq<Glyph>, x: nat, c: Glyph)
    requires x < |g| && !g[x].WideR?
    ensures var g' := PutNarrow(g, x, c);
            && g'[..x] == g[..x] && g'[x] == c
            && (x + 1 < |g| ==> g'[x + 1] == if g[x].WideL? then Unknown else g[x + 1])
            && (x + 1 < |g| ==> g'[x + 2..] == g[x + 2..])
  {
  }

  /** A changed cell that takes one column is printed over whatever is at the frontier. */
  lemma {:induction false} PaintSingle(wc: WidthFn, b: seq<Cell>, f0: seq<Cell>, f: seq<Cell>, g: seq<Glyph>, x: nat)
    requires WidthTable(wc) && x < |b| && MidRow(wc, b, f0, f, g, x)
    requires !(Wide(wc, b[x]) && x + 1 < |b|)
    ensures MidRow(wc, b, f0, f[x := b[x]], PutNarrow(g, x, Single(wc, b[x])), x + CellWidth(wc, b[x]))
  {
    var f', g' := f[x := b[x]], PutNarrow(g, x, Single(wc, b[x]));
    PutNarrowAt(g, x, Single(wc, b[x]));
    SinglePainted(wc, b, f, g, f', g', x);
    if x + 1 < |b| {
      assert !Shadowed(wc, b, x + 1);
      assert RestAt(wc, f0, g, x + 1);
      RestBeyond(wc, f0, g, g', x + 1);
    }
  }

  lemma {:induction false} SinglePainted(wc: WidthFn, b: seq<Cell>, f: seq<Cell>, g: seq<Glyph>, f': seq<Cell>,
          g': seq<Glyph>, x: nat)
    requires |b| == |f| == |g| == |f'| == |g'| && x < |b| && PaintedTo(wc, b, f, g, x)
    requires !Shadowed(wc, b, x) && !(Wide(wc, b[x]) && x + 1 < |b|)
    requires f'[..x] == f[..x] && g'[..x] == g[..x]
    requires f'[x] == b[x] && g'[x] == Single(wc, b[x])
    ensures PaintedTo(wc, b, f', g', x + 1)
  {
    forall i | 0 <= i < x + 1
      ensures f'[i] == TileAt(wc, b, i) && g'[i] == ShowAt(wc, b, i)
    {
      if i < x {
        assert f'[i] == f'[..x][i] && f[i] == f[..x][i] && g'[i] == g'[..x][i] && g[i] == g[..x][i];
      }
    }
  }

  lemma {:induction false} PutWideAt(g: seq<Glyph>, x: nat, l: Glyph, r: Glyph)
    requires x + 1 < |g| && !g[x].WideR? && (g[x + 1].WideR? ==> g[x].WideL?)
    ensures var g' := PutWide(g, x, l, r);
            && g'[..x] == g[..x] && g'[x] == l && g'[x + 1] == r
            && (x + 2 < |g| ==> g'[x + 2] == if g[x + 1].WideL? && !g[x].WideL? then Unknown else g[x + 2])
            && (x + 2 < |g| ==> g'[x + 3..] == g[x + 3..])
  {
  }

  /** Where the frontier and the column after it are rest columns, their glyphs pair up. */
  lemma {:induction false} FrontierPair(wc: WidthFn, b: seq<Cell>, f0: seq<Cell>, f: seq<Cell>, g: seq<Glyph>, x: nat)
    requires WidthTable(wc) && x + 1 < |b| && MidRow(wc, b, f0, f, g, x)
    ensures !g[x].WideR? && (g[x + 1].WideR? ==> g[x].WideL?)
    ensures x + 2 < |b| && Skipped(wc, f0, x + 2) ==> f0[x + 2] == INVALID && g[x + 1].WideL? && !g[x].WideL?
    ensures x + 2 < |b| && !Skipped(wc, f0, x + 2) ==> !g[x + 1].WideL?
  {
    assert RestAt(wc, f0, g, x + 1);
    if x + 2 < |b| {
      assert RestAt(wc, f0, g, x + 2);
    }
  }

  /** A changed wide cell is printed over two columns, and the second is marked skipped. */
  lemma {:induction false} PaintWide(wc: WidthFn, b: seq<Cell>, f0: seq<Cell>, f: seq<Cell>, g: seq<Glyph>, x: nat)
    requires WidthTable(wc) && x + 1 < |b| && MidRow(wc, b, f0, f, g, x)
    requires Wide(wc, b[x])
    ensures var c := b[x];
            MidRow(wc, b, f0, f[x := c][x + 1 := INVALID],
                   PutWide(g, x, WideL(c.ch, c.fg, c.bg), WideR(c.ch, c.fg, c.bg)), x + 2)
  {
    var c := b[x];
    var l, r := WideL(c.ch, c.fg, c.bg), WideR(c.ch, c.fg, c.bg);
    var f' := f[x := c][x + 1 := INVALID];
    var g' := PutWide(g, x, l, r);
    FrontierPair(wc, b, f0, f, g, x);
    PutWideAt(g, x, l, r);
    assert Shadowed(wc, b, x + 1);
    WidePainted(wc, b, f, g, f', g', x);
    if x + 2 < |b| {
      assert !Shadowed(wc, b, x + 2);
      assert RestAt(wc, f0, g, x + 2);
      RestBeyond(wc, f0, g, g', x + 2);
    }
  }

  lemma {:induction false} WidePainted(wc: WidthFn, b: seq<Cell>, f: seq<Cell>, g: seq<Glyph>, f': seq<Cell>,
          g': seq<Glyph>, x: nat)
    requires |b| == |f| == |g| == |f'| == |g'| && x + 1 < |b| && PaintedTo(wc, b, f, g, x)
    requires !Shadowed(wc, b, x) && Wide(wc, b[x])
    requires f'[..x] == f[..x] && g'[..x] == g[..x]
    requires f'[x] == b[x] && f'[x + 1] == INVALID
    requires g'[x] == WideL(b[x].ch, b[x].fg, b[x].bg) && g'[x + 1] == WideR(b[x].ch, b[x].fg, b[x].bg)
    ensures PaintedTo(wc, b, f', g', x + 2)
  {
    forall i | 0 <= i < x + 2
      ensures f'[i] == TileAt(wc, b, i) && g'[i] == ShowAt(wc, b, i)
    {
      if i < x {
        assert f'[i] == f'[..x][i] && f[i] == f[..x][i] && g'[i] == g'[..x][i] && g[i] == g[..x][i];
      }
    }
  }

  ghost predicate DoneRow(wc: WidthFn, b: seq<Cell>, f: seq<Cell>, g: seq<Glyph>) {
    && |b| == |f|
    && g == ShowRow(wc, b)
    && forall x :: 0 <= x < |f| ==> f[x] == TileAt(wc, b, x)
  }

  lemma {:induction false} FinishRow(wc: WidthFn, b: seq<Cell>, f0: seq<Cell>, f: seq<Cell>, g: seq<Glyph>, x: nat)
    requires |b| <= x && MidRow(wc, b, f0, f, g, x)
    ensures DoneRow(wc, b, f, g)
  {
    assert PaintedTo(wc, b, f, g, x);
  }

  /** A painted row is at rest. */
  lemma {:induction false} DoneIsRest(wc: WidthFn, b: seq<Cell>, f: seq<Cell>, g: seq<Glyph>)
    requires WidthTable(wc) && Sendable(wc, b) && DoneRow(wc, b, f, g)
    ensures RestRow(wc, f, g)
  {
    forall x | 0 <= x < |f|
      ensures RestAt(wc, f, g, x)
    {
      assert Shadowed(wc, b, x) || !ZeroWidth(wc, b[x]);
      assert x > 0 ==> f[x - 1] == TileAt(wc, b, x - 1);
      if Wide(wc, b[x]) && x + 1 < |b| && !Shadowed(wc, b, x) {
        assert Shadowed(wc, b, x + 1);
      }
    }
  }
}
