/**
 The front buffer over every run, whatever the cells: after tb_present it holds the tiles of
 the back buffer, so that a second tb_present has nothing to send.
 */
module TermboxFront {
  import opened Terminal
  import opened TermboxSpec
  import opened TermboxRows
  import opened TermboxRuns

  /** Every wide cell that fits is followed by the invalid cell. */
  ghost predicate TiledRow(wc: WidthFn, f: seq<Cell>) {
    forall x :: 0 <= x && x + 1 < |f| && Wide(wc, f[x]) ==> f[x + 1] == INVALID
  }

  ghost predicate Tiled(wc: WidthFn, s: Tb) {
    Shape(s) && forall y :: 0 <= y < s.h ==> TiledRow(wc, s.front[y])
  }

  /** The first x columns hold the tiles of b, and the others are as in f0. */
  ghost predicate TilesTo(wc: WidthFn, b: seq<Cell>, f0: seq<Cell>, f: seq<Cell>, x: nat) {
    && |b| == |f0| == |f|
    && (forall i :: 0 <= i < x && i < |b| ==> f[i] == TileAt(wc, b, i))
    && (forall i :: x <= i < |b| ==> f[i] == f0[i])
    && (x < |b| ==> !Shadowed(wc, b, x))
  }

  /** What painting a cell does to the front row. */
  function FrontAfter(wc: WidthFn, b: seq<Cell>, f: seq<Cell>, x: nat): seq<Cell>
    requires x < |b| == |f|
  {
    if b[x] == f[x] then f
    else if Wide(wc, b[x]) && x + 1 < |b| then f[x := b[x]][x + 1 := INVALID]
    else f[x := b[x]]
  }

  lemma {:induction false} PaintCellFront(wc: WidthFn, s: Tb, x: nat, y: nat)
    requires WidthTable(wc) && Shape(s) && x < s.w && y < s.h
    ensures PaintCell(wc, s, x, y).front == s.front[y := FrontAfter(wc, s.back[y], s.front[y], x)]
  {
    var b := s.back[y][x];
    if b != s.front[y][x] {
      var s1 := SendAttr(SetFront(s, x, y, b), b.fg, b.bg);
      if !(CellWidth(wc, b) > 1 && x + 1 >= s.w) {
        MarkSkippedFront(SendChar(wc, s1, x, y, b.ch), x, y, CellWidth(wc, b));
      }
    }
  }

  lemma {:induction false} MarkSkippedFront(s: Tb, x: nat, y: nat, w: nat)
    requires Shape(s) && y < s.h && 1 <= w <= 2 && x + w <= s.w
    ensures MarkSkipped(s, x, y, 1, w).front == if w == 1 then s.front else s.front[y := s.front[y][x + 1 := INVALID]]
  {
    if w == 2 {
      var r := SetFront(s, x + 1, y, INVALID);
      assert MarkSkipped(s, x, y, 1, w) == MarkSkipped(r, x, y, 2, w) == r;
    }
  }

  lemma {:induction false} CellTiled(wc: WidthFn, b: seq<Cell>, f0: seq<Cell>, f: seq<Cell>, x: nat)
    requires WidthTable(wc) && TiledRow(wc, f0) && TilesTo(wc, b, f0, f, x) && x < |b|
    ensures TilesTo(wc, b, f0, FrontAfter(wc, b, f, x), x + CellWidth(wc, b[x]))
  {
    if x + 1 < |b| {
      assert Shadowed(wc, b, x + 1) == Wide(wc, b[x]);
      if Wide(wc, b[x]) && x + 2 < |b| {
        assert !Shadowed(wc, b, x + 2);
      }
    }
  }

  lemma {:induction false} FirstCellFront(wc: WidthFn, s: Tb, x: nat, y: nat) returns (r: Tb)
    requires WidthTable(wc) && Shape(s) && y < s.h && x < s.w
    ensures Shape(r) && SameFrame(s, r) && r.front == s.front[y := FrontAfter(wc, s.back[y], s.front[y], x)]
    ensures PaintRow(wc, s, x, y) == PaintRow(wc, r, x + CellWidth(wc, s.back[y][x]), y)
  {
    PaintCellFront(wc, s, x, y);
    r := PaintCell(wc, s, x, y);
  }

  lemma {:induction false} FirstCellTiled(wc: WidthFn, s: Tb, f0: seq<Cell>, x: nat, y: nat) returns (r: Tb, x': nat)
    requires WidthTable(wc) && Shape(s) && y < s.h && x < s.w
    requires TiledRow(wc, f0) && TilesTo(wc, s.back[y], f0, s.front[y], x)
    ensures x' > x && Shape(r) && SameFrame(s, r) && TilesTo(wc, s.back[y], f0, r.front[y], x')
    ensures forall j :: 0 <= j < s.h && j != y ==> r.front[j] == s.front[j]
    ensures PaintRow(wc, s, x, y) == PaintRow(wc, r, x', y)
  {
    x' := x + CellWidth(wc, s.back[y][x]);
    r := FirstCellFront(wc, s, x, y);
    CellTiled(wc, s.back[y], f0, s.front[y], x);
  }

  lemma {:induction false} RowTiled(wc: WidthFn, s: Tb, f0: seq<Cell>, x: nat, y: nat)
    requires WidthTable(wc) && Shape(s) && y < s.h && TiledRow(wc, f0) && TilesTo(wc, s.back[y], f0, s.front[y], x)
    ensures var r := PaintRow(wc, s, x, y);
            && TilesTo(wc, s.back[y], f0, r.front[y], s.w)
            && forall j :: 0 <= j < s.h && j != y ==> r.front[j] == s.front[j]
    decreases s.w - x
  {
    if x < s.w {
      var r, x' := FirstCellTiled(wc, s, f0, x, y);
      RowTiled(wc, r, f0, x', y);
    }
  }

  lemma {:induction false} RowsTiled(wc: WidthFn, s: Tb, y: nat)
    requires WidthTable(wc) && Shape(s) && y <= s.h
    requires forall j :: y <= j < s.h ==> TiledRow(wc, s.front[j])
    requires forall j :: 0 <= j < y ==> TilesTo(wc, s.back[j], s.front[j], s.front[j], s.w)
    ensures var r := PaintRows(wc, s, y);
            forall j :: 0 <= j < s.h ==> TilesTo(wc, s.back[j], r.front[j], r.front[j], s.w)
    decreases s.h - y
  {
    if y < s.h {
      RowTiled(wc, s, s.front[y], 0, y);
      RowsTiled(wc, PaintRow(wc, s, 0, y), y + 1);
    }
  }

  /** Every front row holds the tiles of the back row: nothing has changed since painting. */
  ghost predicate Painted(wc: WidthFn, s: Tb) {
    && Shape(s)
    && forall y, x :: 0 <= y < s.h && 0 <= x < s.w ==> s.front[y][x] == TileAt(wc, s.back[y], x)
  }

  lemma {:induction false} PresentPaints(wc: WidthFn, s: Tb)
    requires WidthTable(wc) && Tiled(wc, s)
    ensures Painted(wc, Present(wc, s))
  {
    var s0 := s.(lastX := -1, lastY := -1);
    RowsTiled(wc, s0, 0);
    assert Present(wc, s).front == PaintRows(wc, s0, 0).front;
  }

  lemma {:induction false} PaintedTiled(wc: WidthFn, s: Tb)
    requires WidthTable(wc) && Painted(wc, s)
    ensures Tiled(wc, s)
  {
    forall y, x | 0 <= y < s.h && 0 <= x && x + 1 < s.w && Wide(wc, s.front[y][x])
      ensures s.front[y][x + 1] == INVALID
    {
      assert s.front[y][x] == TileAt(wc, s.back[y], x);
      assert Shadowed(wc, s.back[y], x + 1);
    }
  }

  lemma {:induction false} StepTiled(wc: WidthFn, s: Tb, op: Op)
    requires WidthTable(wc) && Tiled(wc, s)
    ensures Tiled(wc, Step(wc, s, op))
  {
    match op
    case OpInvalidate => BlankTiled(wc, s);
    case OpResize(w, h) => BlankTiled(wc, s.(tty := WindowResized(s, w, h), width := w, height := h));
    case OpPresent =>
      PresentPaints(wc, s);
      PaintedTiled(wc, Present(wc, s));
    case _ => assert Step(wc, s, op).front == s.front;
  }

  lemma {:induction false} BlankTiled(wc: WidthFn, s: Tb)
    requires WidthTable(wc) && Shape(s)
    ensures Tiled(wc, ResizeCellbufs(wc, s))
  {
    assert !Wide(wc, Blank(s));
  }

  /** After every run, with any cells, a wide front cell that is not in the last column is followed
      by the invalid cell. */
  lemma {:induction false} FrontTiled(wc: WidthFn, w: nat, h: nat, ops: seq<Op>, n: nat)
    requires WidthTable(wc) && n <= |ops|
    ensures Tiled(wc, After(wc, w, h, ops, n))
    decreases n
  {
    if n > 0 {
      FrontTiled(wc, w, h, ops, n - 1);
      AfterNext(wc, w, h, ops, n - 1);
      StepTiled(wc, After(wc, w, h, ops, n - 1), ops[n - 1]);
    }
  }

  /** An invalid front cell is the second half of a wide one. */
  ghost predicate NoneLoose(wc: WidthFn, s: Tb) {
    Shape(s) && forall y, x :: 0 <= y < s.h && 0 <= x < s.w && s.front[y][x] == INVALID ==> Skipped(wc, s.front[y], x)
  }

  lemma {:induction false} PaintedNoneLoose(wc: WidthFn, s: Tb)
    requires Painted(wc, s) && AllDrawable(wc, s.back)
    ensures NoneLoose(wc, s)
  {
    forall y, x | 0 <= y < s.h && 0 <= x < s.w && s.front[y][x] == INVALID
      ensures Skipped(wc, s.front[y], x)
    {
      assert s.front[y][x] == TileAt(wc, s.back[y], x);
      assert Drawable(wc, s.back[y][x]);
      assert s.front[y][x - 1] == TileAt(wc, s.back[y], x - 1);
    }
  }

  lemma {:induction false} StepNoneLoose(wc: WidthFn, s: Tb, op: Op)
    requires WidthTable(wc) && Tiled(wc, s) && NoneLoose(wc, s) && AllDrawable(wc, s.back)
    ensures NoneLoose(wc, Step(wc, s, op))
  {
    match op
    case OpPresent =>
      PresentPaints(wc, s);
      PaintedNoneLoose(wc, Present(wc, s));
    case OpInvalidate => assert Blank(s) != INVALID;
    case OpResize(w, h) => assert Blank(s) != INVALID;
    case _ => assert Step(wc, s, op).front == s.front;
  }

  lemma {:induction false} RunNoneLoose(wc: WidthFn, w: nat, h: nat, ops: seq<Op>, n: nat)
    requires WidthTable(wc) && DrawableOps(wc, ops) && n <= |ops|
    ensures NoneLoose(wc, After(wc, w, h, ops, n))
    decreases n
  {
    if n > 0 {
      FrontTiled(wc, w, h, ops, n - 1);
      RunNoneLoose(wc, w, h, ops, n - 1);
      RunDrawable(wc, w, h, ops, n - 1);
      AfterNext(wc, w, h, ops, n - 1);
      StepNoneLoose(wc, After(wc, w, h, ops, n - 1), ops[n - 1]);
    }
  }

  /** After every run of drawable cells, a front cell is followed by the invalid cell exactly if it
      is wide. */
  lemma {:induction false} InvalidMarksWide(wc: WidthFn, w: nat, h: nat, ops: seq<Op>, n: nat, x: nat, y: nat)
    requires WidthTable(wc) && DrawableOps(wc, ops) && n <= |ops|
    requires var s := After(wc, w, h, ops, n); y < s.h && x + 1 < s.w
    ensures var f := After(wc, w, h, ops, n).front[y]; f[x + 1] == INVALID <==> Wide(wc, f[x])
  {
    FrontTiled(wc, w, h, ops, n);
    RunNoneLoose(wc, w, h, ops, n);
    assert TiledRow(wc, After(wc, w, h, ops, n).front[y]);
  }

  lemma {:induction false} PaintRowPainted(wc: WidthFn, s: Tb, x: nat, y: nat)
    requires WidthTable(wc) && Painted(wc, s) && y < s.h
    requires x < s.w ==> !Shadowed(wc, s.back[y], x)
    ensures PaintRow(wc, s, x, y) == s
    decreases s.w - x
  {
    if x < s.w {
      var b := s.back[y];
      assert s.front[y][x] == TileAt(wc, b, x);
      if Wide(wc, b[x]) && x + 1 < s.w {
        assert Shadowed(wc, b, x + 1);
      }
      PaintRowPainted(wc, s, x + CellWidth(wc, b[x]), y);
    }
  }

  lemma {:induction false} PaintRowsPainted(wc: WidthFn, s: Tb, y: nat)
    requires WidthTable(wc) && Painted(wc, s)
    ensures PaintRows(wc, s, y) == s
    decreases s.h - y
  {
    if y < s.h {
      PaintRowPainted(wc, s, 0, y);
      PaintRowsPainted(wc, s, y + 1);
    }
  }

  /** After every run, with any cells: a second tb_present in a row changes no front cell and sends
      no attribute and no glyph, at most the final cursor move. */
  lemma {:induction false} PresentTwiceSendsNothing(wc: WidthFn, w: nat, h: nat, ops: seq<Op>, n: nat)
    requires WidthTable(wc) && n <= |ops|
    ensures var p := Present(wc, After(wc, w, h, ops, n));
            var q := Paint(wc, p);
            && q.front == p.front
            && q.out == if p.cursorX < 0 || p.cursorY < 0 then Empty else Then(Empty, MoveTo(p.cursorX, p.cursorY))
  {
    FrontTiled(wc, w, h, ops, n);
    PresentPaints(wc, After(wc, w, h, ops, n));
    PaintRowsPainted(wc, Present(wc, After(wc, w, h, ops, n)).(lastX := -1, lastY := -1), 0);
  }
}
