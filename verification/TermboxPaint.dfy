/** tb_present on the whole state: it shows the back buffer, and leaves the state at rest. */
module TermboxPaint {
  import opened Wrappers
  import opened Terminal
  import opened TermboxSpec
  import opened TermboxRows

  /** Queued output included, the terminal has the attributes the program remembers. */
  ghost predicate Synced(wc: WidthFn, s: Tb) {
    && Shape(s)
    && Sized(Screen(wc, s).grid, s.w, s.h)
    && Screen(wc, s).attr == Some((s.lastFg, s.lastBg))
  }

  ghost predicate RestRows(wc: WidthFn, s: Tb, from: int)
    requires Synced(wc, s)
  {
    forall y :: 0 <= from <= y < s.h ==> RestRow(wc, s.front[y], Screen(wc, s).grid[y])
  }

  ghost predicate DoneRows(wc: WidthFn, s: Tb, to: int)
    requires Synced(wc, s)
  {
    forall y :: 0 <= y < to && y < s.h ==> DoneRow(wc, s.back[y], s.front[y], Screen(wc, s).grid[y])
  }

  /** The invariant between calls. */
  ghost predicate Rest(wc: WidthFn, s: Tb) {
    Synced(wc, s) && SizeKnown(s) && RestRows(wc, s, 0)
  }

  /** The buffers have the reported size, or that size with zeros made one. */
  ghost predicate SizeKnown(s: Tb) {
    || (s.w == s.width && s.h == s.height)
    || (s.w == AtLeast1(s.width) && s.h == AtLeast1(s.height))
  }

  /** A cursor move is elided only when the cursor is already there. */
  ghost predicate CursorKnown(wc: WidthFn, s: Tb, x: nat, y: nat) {
    && s.lastY <= y
    && (s.lastY == y ==> s.lastX < x)
    && (s.lastY == y && s.lastX == x - 1 && x < s.w ==> Screen(wc, s).cursor == Some((x, y)))
  }

  lemma {:induction false} EmitScreen(wc: WidthFn, s: Tb, c: Cmd)
    ensures Screen(wc, Emit(s, c)) == Apply(wc, Screen(wc, s), c)
  {
  }

  /** Everything but what an output step may change. */
  ghost predicate SameBuffers(s: Tb, r: Tb) {
    r.back == s.back && r.front == s.front && r.w == s.w && r.h == s.h
  }

  lemma {:induction false} SendAttrScreen(wc: WidthFn, s: Tb, fg: Attr, bg: Attr)
    requires Synced(wc, s)
    ensures var r := SendAttr(s, fg, bg);
            && Synced(wc, r) && SameBuffers(s, r)
            && r.lastFg == fg && r.lastBg == bg && r.lastX == s.lastX && r.lastY == s.lastY
            && Screen(wc, r) == Screen(wc, s).(attr := Some((fg, bg)))
  {
    EmitScreen(wc, s, SetAttr(fg, bg));
    assert Screen(wc, Emit(s, SetAttr(fg, bg)).(lastFg := fg, lastBg := bg)) == Screen(wc, Emit(s, SetAttr(fg, bg)));
  }

  /** Putting a glyph where the cursor is. */
  lemma {:induction false} PutScreen(wc: WidthFn, s: Tb, x: nat, y: nat, ch: Rune)
    requires WidthTable(wc) && Synced(wc, s) && x < s.w && y < s.h && Screen(wc, s).cursor == Some((x, y))
    requires wc(ch) == 0 ==> ch == 0
    ensures var k := Shown(wc, ch);
            var t, t' := Screen(wc, s), Screen(wc, Emit(s, Put(k)));
            && (wc(ch) != 2 ==>
                  t' == t.(grid := t.grid[y := PutNarrow(t.grid[y], x, Narrow(k, s.lastFg, s.lastBg))],
                           cursor := CursorAt(t, x + 1, y)))
            && (wc(ch) == 2 && x + 1 < s.w ==>
                  t' == t.(grid := t.grid[y := PutWide(t.grid[y], x,
                                  WideL(ch, s.lastFg, s.lastBg), WideR(ch, s.lastFg, s.lastBg))],
                           cursor := CursorAt(t, x + 2, y)))
  {
    EmitScreen(wc, s, Put(Shown(wc, ch)));
    assert wc(Shown(wc, ch)) == if wc(ch) == 2 then 2 else 1;
  }

  /** The state of send_char just before it sends the glyph. */
  function AtChar(s: Tb, x: int, y: int): Tb {
    (if s.lastX != x - 1 || s.lastY != y then SendCursorIf(s, x, y) else s).(lastX := x, lastY := y)
  }

  lemma {:induction false} AtCharScreen(wc: WidthFn, s: Tb, x: nat, y: nat)
    requires Synced(wc, s) && x < s.w && y < s.h && CursorKnown(wc, s, x, y)
    ensures var r := AtChar(s, x, y);
            && Synced(wc, r) && SameBuffers(s, r) && r.lastFg == s.lastFg && r.lastBg == s.lastBg
            && Screen(wc, r) == Screen(wc, s).(cursor := Some((x, y)))
  {
    EmitScreen(wc, s, MoveTo(x, y));
    var r := AtChar(s, x, y);
    assert Screen(wc, r) == Screen(wc, if s.lastX != x - 1 || s.lastY != y then Emit(s, MoveTo(x, y)) else s);
  }

  /** send_char puts the glyph at (x, y), whether or not the cursor move is elided. */
  lemma {:induction false} SendCharScreen(wc: WidthFn, s: Tb, x: nat, y: nat, ch: Rune)
    requires WidthTable(wc) && Synced(wc, s) && x < s.w && y < s.h && CursorKnown(wc, s, x, y)
    requires wc(ch) == 0 ==> ch == 0
    ensures var r := SendChar(wc, s, x, y, ch);
            var t, t' := Screen(wc, s), Screen(wc, r);
            var k := Shown(wc, ch);
            && SameBuffers(s, r) && r.lastX == x && r.lastY == y
            && r.lastFg == s.lastFg && r.lastBg == s.lastBg
            && (wc(ch) != 2 ==>
                  t' == t.(grid := t.grid[y := PutNarrow(t.grid[y], x, Narrow(k, s.lastFg, s.lastBg))],
                           cursor := CursorAt(t, x + 1, y)))
            && (wc(ch) == 2 && x + 1 < s.w ==>
                  t' == t.(grid := t.grid[y := PutWide(t.grid[y], x,
                                  WideL(ch, s.lastFg, s.lastBg), WideR(ch, s.lastFg, s.lastBg))],
                           cursor := CursorAt(t, x + 2, y)))
  {
    AtCharScreen(wc, s, x, y);
    PutScreen(wc, AtChar(s, x, y), x, y, ch);
    assert SendChar(wc, s, x, y, ch) == Emit(AtChar(s, x, y), Put(Shown(wc, ch)));
  }

  ghost predicate OtherRows<T>(a: seq<T>, b: seq<T>, y: nat) {
    |a| == |b| && forall i :: 0 <= i < |a| && i != y ==> a[i] == b[i]
  }

  /** The state is painted up to column x of row y, whose front row was f0. */
  ghost predicate AtFrontier(wc: WidthFn, s: Tb, f0: seq<Cell>, x: nat, y: nat) {
    && Synced(wc, s) && y < s.h
    && CursorKnown(wc, s, x, y)
    && MidRow(wc, s.back[y], f0, s.front[y], Screen(wc, s).grid[y], x)
  }

  /** The step of one changed cell, given what it does to the row and to the terminal. */
  lemma {:induction false} CellPainted(wc: WidthFn, s: Tb, r: Tb, f0: seq<Cell>, x: nat, y: nat,
                                       g': seq<Glyph>, c: Option<(int, int)>)
    requires WidthTable(wc) && AtFrontier(wc, s, f0, x, y) && x < s.w && Shape(r)
    requires SameFrame(s, r) && r.lastX == x && r.lastY == y
    requires Screen(wc, r) == Screen(wc, s).(grid := Screen(wc, s).grid[y := g'], cursor := c,
               attr := Some((r.lastFg, r.lastBg)))
    requires |g'| == s.w && OtherRows(s.front, r.front, y)
    requires MidRow(wc, s.back[y], f0, r.front[y], g', x + CellWidth(wc, s.back[y][x]))
    requires CellWidth(wc, s.back[y][x]) == 1 ==> c == CursorAt(Screen(wc, s), x + 1, y)
    ensures AtFrontier(wc, r, f0, x + CellWidth(wc, s.back[y][x]), y)
    ensures OtherRows(Screen(wc, s).grid, Screen(wc, r).grid, y)
  {
  }

  lemma {:induction false} PaintCellStep(wc: WidthFn, s: Tb, f0: seq<Cell>, x: nat, y: nat)
    requires WidthTable(wc) && AtFrontier(wc, s, f0, x, y) && x < s.w
    requires PaintableAt(wc, s.back[y], f0, x)
    ensures var r := PaintCell(wc, s, x, y);
            && AtFrontier(wc, r, f0, x + CellWidth(wc, s.back[y][x]), y)
            && OtherRows(s.front, r.front, y) && OtherRows(Screen(wc, s).grid, Screen(wc, r).grid, y)
  {
    var b := s.back[y][x];
    var bk, f, g := s.back[y], s.front[y], Screen(wc, s).grid[y];
    if b == f[x] {
      SkipCell(wc, bk, f0, f, g, x);
    } else if Wide(wc, b) && x + 1 < s.w {
      PaintWideStep(wc, s, f0, x, y);
      PaintWide(wc, bk, f0, f, g, x);
      var t := Screen(wc, s);
      CellPainted(wc, s, PaintCell(wc, s, x, y), f0, x, y,
                  PutWide(g, x, WideL(b.ch, b.fg, b.bg), WideR(b.ch, b.fg, b.bg)), CursorAt(t, x + 2, y));
    } else {
      PaintSingleStep(wc, s, f0, x, y);
      PaintSingle(wc, bk, f0, f, g, x);
      CellPainted(wc, s, PaintCell(wc, s, x, y), f0, x, y,
                  PutNarrow(g, x, Single(wc, b)), CursorAt(Screen(wc, s), x + 1, y));
    }
  }

  lemma {:induction false} PaintWideStep(wc: WidthFn, s: Tb, f0: seq<Cell>, x: nat, y: nat)
    requires WidthTable(wc) && AtFrontier(wc, s, f0, x, y) && x + 1 < s.w
    requires s.back[y][x] != s.front[y][x] && Wide(wc, s.back[y][x])
    ensures var b := s.back[y][x];
            var r, t := PaintCell(wc, s, x, y), Screen(wc, s);
            && r.lastX == x && r.lastY == y && r.lastFg == b.fg && r.lastBg == b.bg
            && r.front == s.front[y := s.front[y][x := b][x + 1 := INVALID]]
            && Screen(wc, r) == Term(
                 t.grid[y := PutWide(t.grid[y], x, WideL(b.ch, b.fg, b.bg), WideR(b.ch, b.fg, b.bg))],
                                     CursorAt(t, x + 2, y), Some((b.fg, b.bg)))
  {
    var b := s.back[y][x];
    var s0 := SetFront(s, x, y, b);
    assert Screen(wc, s0) == Screen(wc, s);
    SendAttrScreen(wc, s0, b.fg, b.bg);
    var s1 := SendAttr(s0, b.fg, b.bg);
    SendCharScreen(wc, s1, x, y, b.ch);
    var s2 := SendChar(wc, s1, x, y, b.ch);
    var s3 := SetFront(s2, x + 1, y, INVALID);
    assert MarkSkipped(s2, x, y, 1, 2) == MarkSkipped(s3, x, y, 2, 2) == s3;
    assert Screen(wc, s3) == Screen(wc, s2);
  }

  lemma {:induction false} PaintSingleStep(wc: WidthFn, s: Tb, f0: seq<Cell>, x: nat, y: nat)
    requires WidthTable(wc) && AtFrontier(wc, s, f0, x, y) && x < s.w
    requires s.back[y][x] != s.front[y][x] && !ZeroWidth(wc, s.back[y][x])
    requires !(Wide(wc, s.back[y][x]) && x + 1 < s.w)
    ensures var b := s.back[y][x];
            var r, t := PaintCell(wc, s, x, y), Screen(wc, s);
            && r.lastX == x && r.lastY == y && r.lastFg == b.fg && r.lastBg == b.bg
            && r.front == s.front[y := s.front[y][x := b]]
            && Screen(wc, r) == Term(t.grid[y := PutNarrow(t.grid[y], x, Single(wc, b))],
                                     CursorAt(t, x + 1, y), Some((b.fg, b.bg)))
  {
    var b := s.back[y][x];
    var s0 := SetFront(s, x, y, b);
    assert Screen(wc, s0) == Screen(wc, s);
    SendAttrScreen(wc, s0, b.fg, b.bg);
    var s1 := SendAttr(s0, b.fg, b.bg);
    var ch := if Wide(wc, b) then SPACE else b.ch;
    SendCharScreen(wc, s1, x, y, ch);
    var s2 := SendChar(wc, s1, x, y, ch);
    if Wide(wc, b) {
      assert SendSpaces(wc, s1, x, y) == SendSpaces(wc, s2, x + 1, y) == s2;
    } else {
      assert MarkSkipped(s2, x, y, 1, 1) == s2;
    }
  }

  /** From s, row y has been painted and the other rows are as they were. */
  ghost predicate RowDone(wc: WidthFn, s: Tb, r: Tb, y: nat) {
    && Synced(wc, s) && Synced(wc, r) && SameFrame(s, r) && y < s.h && r.lastY <= y
    && DoneRow(wc, r.back[y], r.front[y], Screen(wc, r).grid[y])
    && OtherRows(s.front, r.front, y) && OtherRows(Screen(wc, s).grid, Screen(wc, r).grid, y)
  }

  lemma {:induction false} RowDoneFrom(wc: WidthFn, s: Tb, m: Tb, r: Tb, y: nat)
    requires Synced(wc, s) && SameFrame(s, m) && RowDone(wc, m, r, y)
    requires OtherRows(s.front, m.front, y) && OtherRows(Screen(wc, s).grid, Screen(wc, m).grid, y)
    ensures RowDone(wc, s, r, y)
  {
    OtherRowsTrans(s.front, m.front, r.front, y);
    OtherRowsTrans(Screen(wc, s).grid, Screen(wc, m).grid, Screen(wc, r).grid, y);
  }

  ghost predicate PaintableRow(wc: WidthFn, b: seq<Cell>, f: seq<Cell>) {
    |b| == |f| && forall x :: 0 <= x < |b| ==> PaintableAt(wc, b, f, x)
  }

  lemma {:induction false} FirstCellPainted(wc: WidthFn, s: Tb, f0: seq<Cell>, x: nat, y: nat) returns (r: Tb, x': nat)
    requires WidthTable(wc) && AtFrontier(wc, s, f0, x, y) && PaintableRow(wc, s.back[y], f0) && x < s.w
    ensures x' > x && SameFrame(s, r) && AtFrontier(wc, r, f0, x', y)
    ensures OtherRows(s.front, r.front, y) && OtherRows(Screen(wc, s).grid, Screen(wc, r).grid, y)
    ensures PaintRow(wc, s, x, y) == PaintRow(wc, r, x', y)
  {
    x' := x + CellWidth(wc, s.back[y][x]);
    r := PaintCell(wc, s, x, y);
    PaintCellStep(wc, s, f0, x, y);
  }

  lemma {:induction false} PaintRowDone(wc: WidthFn, s: Tb, f0: seq<Cell>, x: nat, y: nat)
    requires WidthTable(wc) && AtFrontier(wc, s, f0, x, y) && PaintableRow(wc, s.back[y], f0)
    ensures RowDone(wc, s, PaintRow(wc, s, x, y), y)
    decreases s.w - x
  {
    if x >= s.w {
      FinishRow(wc, s.back[y], f0, s.front[y], Screen(wc, s).grid[y], x);
    } else {
      var r, x' := FirstCellPainted(wc, s, f0, x, y);
      PaintRowDone(wc, r, f0, x', y);
      RowDoneFrom(wc, s, r, PaintRow(wc, r, x', y), y);
    }
  }

  lemma {:induction false} OtherRowsTrans<T>(a: seq<T>, b: seq<T>, c: seq<T>, y: nat)
    requires OtherRows(a, b, y) && OtherRows(b, c, y)
    ensures OtherRows(a, c, y)
  {
  }

  /** What tb_present needs of the two buffers, readable with tb_get_cell before the call. */
  ghost predicate AllPaintable(wc: WidthFn, s: Tb)
    requires Shape(s)
  {
    forall y :: 0 <= y < s.h ==> PaintableRow(wc, s.back[y], s.front[y])
  }

  /** Painting row y leaves the rows above it painted and the rows below it at rest. */
  lemma {:induction false} RowPainted(wc: WidthFn, s: Tb, r: Tb, y: nat)
    requires Synced(wc, s) && Synced(wc, r) && SameFrame(s, r) && y < s.h
    requires DoneRows(wc, s, y) && RestRows(wc, s, y)
    requires forall j :: y <= j < s.h ==> PaintableRow(wc, s.back[j], s.front[j])
    requires DoneRow(wc, r.back[y], r.front[y], Screen(wc, r).grid[y])
    requires OtherRows(s.front, r.front, y) && OtherRows(Screen(wc, s).grid, Screen(wc, r).grid, y)
    ensures DoneRows(wc, r, y + 1) && RestRows(wc, r, y + 1)
    ensures forall j :: y + 1 <= j < s.h ==> PaintableRow(wc, r.back[j], r.front[j])
  {
    forall j | 0 <= j < y + 1
      ensures DoneRow(wc, r.back[j], r.front[j], Screen(wc, r).grid[j])
    {
      if j < y {
        assert DoneRow(wc, s.back[j], s.front[j], Screen(wc, s).grid[j]);
      }
    }
    forall j | y + 1 <= j < s.h
      ensures RestRow(wc, r.front[j], Screen(wc, r).grid[j]) && PaintableRow(wc, r.back[j], r.front[j])
    {
      assert RestRow(wc, s.front[j], Screen(wc, s).grid[j]) && PaintableRow(wc, s.back[j], s.front[j]);
    }
  }

  lemma {:induction false} PaintRowsDone(wc: WidthFn, s: Tb, y: nat)
    requires WidthTable(wc) && Synced(wc, s) && s.lastY < y <= s.h
    requires forall j :: y <= j < s.h ==> PaintableRow(wc, s.back[j], s.front[j])
    requires DoneRows(wc, s, y) && RestRows(wc, s, y)
    ensures var r := PaintRows(wc, s, y); Synced(wc, r) && DoneRows(wc, r, r.h)
    decreases s.h - y
  {
    if y < s.h {
      assert PaintableRow(wc, s.back[y], s.front[y]);
      StartRow(wc, s.back[y], s.front[y], Screen(wc, s).grid[y]);
      PaintRowDone(wc, s, s.front[y], 0, y);
      RowPainted(wc, s, PaintRow(wc, s, 0, y), y);
      PaintRowsDone(wc, PaintRow(wc, s, 0, y), y + 1);
    }
  }

  lemma {:induction false} PaintDone(wc: WidthFn, s: Tb)
    requires WidthTable(wc) && Rest(wc, s) && AllPaintable(wc, s)
    ensures var r := Paint(wc, s); Synced(wc, r) && DoneRows(wc, r, r.h)
  {
    var s0 := s.(lastX := -1, lastY := -1);
    assert Screen(wc, s0) == Screen(wc, s);
    PaintRowsDone(wc, s0, 0);
    var p := PaintRows(wc, s0, 0);
    EmitScreen(wc, p, MoveTo(p.cursorX, p.cursorY));
  }

  // ----- tb_present shows the back buffer

  lemma {:induction false} PaintableIsSendable(wc: WidthFn, b: seq<Cell>, f: seq<Cell>)
    requires PaintableRow(wc, b, f)
    ensures Sendable(wc, b)
  {
    forall x | 0 <= x < |b|
      ensures Shadowed(wc, b, x) || !ZeroWidth(wc, b[x])
    {
      assert PaintableAt(wc, b, f, x);
    }
  }

  /** From any state at rest whose cells can be painted, tb_present leaves exactly the full
      rendering of the back buffer on the terminal, with nothing queued, and the state is at
      rest again. */
  lemma {:induction false} PresentShows(wc: WidthFn, s: Tb)
    requires WidthTable(wc) && Rest(wc, s) && AllPaintable(wc, s)
    ensures var r := Present(wc, s);
            && r.out == Empty && r.tty.grid == Show(wc, s.back)
            && Rest(wc, r)
  {
    var p, r := Paint(wc, s), Present(wc, s);
    PaintDone(wc, s);
    assert Screen(wc, r) == Screen(wc, p);
    forall y | 0 <= y < s.h
      ensures r.tty.grid[y] == ShowRow(wc, s.back[y]) && RestRow(wc, r.front[y], Screen(wc, r).grid[y])
    {
      assert DoneRow(wc, p.back[y], p.front[y], Screen(wc, p).grid[y]);
      PaintableIsSendable(wc, s.back[y], s.front[y]);
      DoneIsRest(wc, p.back[y], p.front[y], Screen(wc, p).grid[y]);
    }
  }

  lemma {:induction false} DrawableIsPaintable(wc: WidthFn, s: Tb)
    requires Shape(s) && AllDrawable(wc, s.back)
    ensures AllPaintable(wc, s)
  {
    forall y, x | 0 <= y < s.h && 0 <= x < s.w
      ensures PaintableAt(wc, s.back[y], s.front[y], x)
    {
      assert Drawable(wc, s.back[y][x]);
    }
  }

  lemma {:induction false} PresentFromRest(wc: WidthFn, s: Tb)
    requires Shape(s)
    ensures WidthTable(wc) && Rest(wc, s) && AllPaintable(wc, s) ==>
            Rest(wc, Present(wc, s)) && Present(wc, s).tty.grid == Show(wc, s.back)
  {
    if WidthTable(wc) && Rest(wc, s) && AllPaintable(wc, s) {
      PresentShows(wc, s);
    }
  }
}
